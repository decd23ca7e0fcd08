/** The polling directory watcher: one loop of timer and listing, with backoff, which reports the
    difference between successive listings. Timers, listings, failures and the closing of the watcher
    come in any order. */
module PollingWatcher {
  import opened Prelude

  const POLL_INTERVAL_MS: nat := 2000
  const POLL_BACKOFF_MS: seq<nat> := [POLL_INTERVAL_MS, 5000, 10000, 30000]

  datatype Entry = Entry(path: string, isDirectory: bool, size: nat, mtimeMs: Option<int>)

  datatype FsEvent = Add(path: string, isDirectory: bool, size: nat) | Change(path: string) | Unlink(path: string)

  /** An insertion-ordered map from paths to entries. */
  type Table = seq<Entry>

  predicate Distinct(t: Table) {
    forall i, j :: 0 <= i < j < |t| ==> t[i].path != t[j].path
  }

  function Paths(t: Table): set<string> { set e | e in t :: e.path }

  /** Setting a key keeps its place if it is there already. */
  function Put(t: Table, e: Entry): Table {
    if t == [] then [e]
    else if t[0].path == e.path then [e] + t[1..]
    else [t[0]] + Put(t[1..], e)
  }

  function Load(entries: seq<Entry>): Table {
    if entries == [] then [] else Put(Load(entries[..|entries| - 1]), entries[|entries| - 1])
  }

  function Lookup(t: Table, path: string): (e: Option<Entry>)
    ensures e.None? ==> path !in Paths(t)
    ensures e.Some? ==> e.value in t && e.value.path == path
  {
    if t == [] then None else if t[0].path == path then Some(t[0]) else Lookup(t[1..], path)
  }

  // ---- The difference of two listings ----

  /** What the pass over the current listing reports of one entry. */
  function Seen(previous: Table, e: Entry): seq<FsEvent> {
    var before := Lookup(previous, e.path);
    if before.None? then [Add(e.path, e.isDirectory, e.size)]
    else if !e.isDirectory && (before.value.size != e.size || before.value.mtimeMs != e.mtimeMs) then [Change(e.path)]
    else []
  }

  function Arrivals(previous: Table, current: Table): seq<FsEvent> {
    if current == [] then []
    else Arrivals(previous, current[..|current| - 1]) + Seen(previous, current[|current| - 1])
  }

  function Departures(previous: Table, current: Table): seq<FsEvent> {
    if previous == [] then []
    else
      var e := previous[|previous| - 1];
      Departures(previous[..|previous| - 1], current) + (if Lookup(current, e.path).None? then [Unlink(e.path)] else [])
  }

  function Diff(previous: Table, current: Table): seq<FsEvent> {
    Arrivals(previous, current) + Departures(previous, current)
  }

  /** The first pass reports in the order of the current listing, the second in that of the previous
      one: what is reported of a part of it comes first. */
  lemma {:induction false} PassesInOrder(previous: Table, current: Table, n: nat)
    ensures n <= |current| ==> Arrivals(previous, current[..n]) <= Arrivals(previous, current)
    ensures n <= |previous| ==> Departures(previous[..n], current) <= Departures(previous, current)
    decreases |current| + |previous|
  {
    if n < |current| {
      assert current[..|current| - 1][..n] == current[..n];
      PassesInOrder(previous, current[..|current| - 1], n);
    } else if n == |current| {
      assert current[..n] == current;
    }
    if n < |previous| {
      assert previous[..|previous| - 1][..n] == previous[..n];
      PassesInOrder(previous[..|previous| - 1], current, n);
    } else if n == |previous| {
      assert previous[..n] == previous;
    }
  }

  lemma {:induction false} PassesApart(previous: Table, current: Table)
    ensures forall k :: 0 <= k < |Arrivals(previous, current)| ==> !Arrivals(previous, current)[k].Unlink?
    ensures forall k :: 0 <= k < |Departures(previous, current)| ==> Departures(previous, current)[k].Unlink?
    decreases |current| + |previous|
  {
    if current != [] {
      PassesApart(previous, current[..|current| - 1]);
    }
    if previous != [] {
      PassesApart(previous[..|previous| - 1], current);
    }
  }

  /** Whatever was added or changed is reported before whatever was removed. */
  lemma RemovalsLast(previous: Table, current: Table, i: nat, k: nat)
    requires i < k < |Diff(previous, current)| && Diff(previous, current)[i].Unlink?
    ensures Diff(previous, current)[k].Unlink?
  {
    PassesApart(previous, current);
  }

  // ---- Replaying events ----

  /** The paths a listener knows after an event; nothing if the event makes no sense to it. */
  function Apply(known: Option<set<string>>, e: FsEvent): Option<set<string>> {
    if known.None? then None
    else match e
      case Add(p, _, _) => if p in known.value then None else Some(known.value + {p})
      case Change(p) => if p in known.value then known else None
      case Unlink(p) => if p in known.value then Some(known.value - {p}) else None
  }

  function Replay(known: Option<set<string>>, events: seq<FsEvent>): Option<set<string>> {
    if events == [] then known else Apply(Replay(known, events[..|events| - 1]), events[|events| - 1])
  }

  lemma {:induction false} ReplayConcat(known: Option<set<string>>, a: seq<FsEvent>, b: seq<FsEvent>)
    ensures Replay(known, a + b) == Replay(Replay(known, a), b)
  {
    if b == [] {
      assert a + b == a;
    } else {
      assert (a + b)[..|a + b| - 1] == a + b[..|b| - 1];
      ReplayConcat(known, a, b[..|b| - 1]);
    }
  }

  lemma ReplayOne(known: Option<set<string>>, e: FsEvent)
    ensures Replay(known, [e]) == Apply(known, e)
  {
    assert [e][..0] == [];
  }

  lemma PathsOfSplit(t: Table)
    requires t != []
    ensures Paths(t) == Paths(t[..|t| - 1]) + {t[|t| - 1].path}
  {
    assert t == t[..|t| - 1] + [t[|t| - 1]];
    forall p | p in Paths(t)
      ensures p in Paths(t[..|t| - 1]) + {t[|t| - 1].path}
    {
      var e :| e in t && e.path == p;
      assert e in t[..|t| - 1] || e == t[|t| - 1];
    }
  }

  lemma LastIsNew(t: Table)
    requires t != [] && Distinct(t)
    ensures Distinct(t[..|t| - 1]) && t[|t| - 1].path !in Paths(t[..|t| - 1])
  {
  }

  lemma {:induction false} ArrivalsReplay(previous: Table, current: Table)
    requires Distinct(current)
    ensures Replay(Some(Paths(previous)), Arrivals(previous, current)) == Some(Paths(previous) + Paths(current))
  {
    var start := Some(Paths(previous));
    if current == [] {
      assert Paths(previous) + Paths(current) == Paths(previous);
    } else {
      var front, e := current[..|current| - 1], current[|current| - 1];
      LastIsNew(current);
      PathsOfSplit(current);
      ArrivalsReplay(previous, front);
      ReplayConcat(start, Arrivals(previous, front), Seen(previous, e));
      SeenReplay(previous, Paths(front), e);
      assert Paths(previous) + Paths(front) + {e.path} == Paths(previous) + Paths(current);
    }
  }

  lemma SeenReplay(previous: Table, before: set<string>, e: Entry)
    requires e.path !in before
    ensures Replay(Some(Paths(previous) + before), Seen(previous, e)) == Some(Paths(previous) + before + {e.path})
  {
    var known := Paths(previous) + before;
    if Seen(previous, e) == [] {
      assert known + {e.path} == known;
    } else {
      ReplayOne(Some(known), Seen(previous, e)[0]);
      assert Seen(previous, e) == [Seen(previous, e)[0]];
      if Lookup(previous, e.path).Some? {
        assert known + {e.path} == known;
      }
    }
  }

  /** The paths of `t` that `current` no longer has. */
  function Gone(t: Table, current: Table): set<string> { Paths(t) - Paths(current) }

  lemma {:induction false} DeparturesReplay(previous: Table, current: Table, known: set<string>)
    requires Distinct(previous) && Paths(previous) <= known
    ensures Replay(Some(known), Departures(previous, current)) == Some(known - Gone(previous, current))
  {
    if previous == [] {
      assert known - Gone(previous, current) == known;
    } else {
      var front, e := previous[..|previous| - 1], previous[|previous| - 1];
      LastIsNew(previous);
      PathsOfSplit(previous);
      DeparturesReplay(front, current, known);
      DepartureReplay(known, Paths(front), e.path, current);
      if Lookup(current, e.path).None? {
        ReplayConcat(Some(known), Departures(front, current), [Unlink(e.path)]);
        ReplayOne(Some(known - Gone(front, current)), Unlink(e.path));
      } else {
        assert Departures(previous, current) == Departures(front, current);
      }
    }
  }

  /** One more path of the previous listing: gone from what is known exactly if the current one lacks it. */
  lemma DepartureReplay(known: set<string>, before: set<string>, path: string, current: Table)
    requires path in known && path !in before
    ensures path in known - (before - Paths(current))
    ensures path in Paths(current) ==> known - (before + {path} - Paths(current)) == known - (before - Paths(current))
    ensures path !in Paths(current) ==>
      known - (before + {path} - Paths(current)) == known - (before - Paths(current)) - {path}
  {
  }

  /** Replaying the difference over the paths of the previous listing gives those of the current one,
      and every event makes sense when it comes. */
  lemma DiffReplay(previous: Table, current: Table)
    requires Distinct(previous) && Distinct(current)
    ensures Replay(Some(Paths(previous)), Diff(previous, current)) == Some(Paths(current))
  {
    var middle := Paths(previous) + Paths(current);
    ArrivalsReplay(previous, current);
    DeparturesReplay(previous, current, middle);
    ReplayConcat(Some(Paths(previous)), Arrivals(previous, current), Departures(previous, current));
    assert middle - Gone(previous, current) == Paths(current);
  }

  // ---- Exactly which events ----

  lemma {:induction false} ArrivalsExactly(previous: Table, current: Table, event: FsEvent)
    ensures event in Arrivals(previous, current) <==> exists e :: e in current && event in Seen(previous, e)
  {
    if current != [] {
      var front, last := current[..|current| - 1], current[|current| - 1];
      assert current == front + [last];
      ArrivalsExactly(previous, front, event);
    }
  }

  lemma {:induction false} DeparturesExactly(previous: Table, current: Table, event: FsEvent)
    ensures event in Departures(previous, current) <==>
      event.Unlink? && event.path in Paths(previous) && event.path !in Paths(current)
  {
    if previous != [] {
      var front, last := previous[..|previous| - 1], previous[|previous| - 1];
      PathsOfSplit(previous);
      DeparturesExactly(front, current, event);
      assert Lookup(current, last.path).Some? ==> last.path in Paths(current);
    }
  }

  lemma {:induction false} LookupFinds(t: Table, e: Entry)
    requires Distinct(t) && e in t
    ensures Lookup(t, e.path) == Some(e)
    ensures forall f :: f in t && f.path == e.path ==> f == e
  {
    if t[0] != e {
      assert e in t[1..];
      LookupFinds(t[1..], e);
    }
  }

  /** What is reported of a path in both listings comes from the pass over the current one. */
  lemma KeptPathEvents(previous: Table, current: Table, now: Entry, event: FsEvent)
    requires Distinct(current) && now in current && now.path in Paths(previous) && event.path == now.path
    ensures event in Diff(previous, current) <==> event in Seen(previous, now)
  {
    LookupFinds(current, now);
    ArrivalsExactly(previous, current, event);
    DeparturesExactly(previous, current, event);
    if event in Arrivals(previous, current) {
      var e :| e in current && event in Seen(previous, e);
      SeenIsAbout(previous, e, event);
    }
    if event in Seen(previous, now) {
      assert event in Arrivals(previous, current);
    }
    assert now.path in Paths(current);
  }

  lemma SeenIsAbout(previous: Table, e: Entry, event: FsEvent)
    requires event in Seen(previous, e)
    ensures event.path == e.path && !event.Unlink?
  {
  }

  /** A path in both listings is reported, as changed, exactly if it is a file now and its size or
      time differs. So a file that has become a directory is not reported at all. */
  lemma KeptPathReported(previous: Table, current: Table, before: Entry, now: Entry, event: FsEvent)
    requires Distinct(previous) && Distinct(current)
    requires before in previous && now in current && before.path == now.path == event.path
    ensures event in Diff(previous, current) <==>
      event.Change? && !now.isDirectory && (before.size != now.size || before.mtimeMs != now.mtimeMs)
  {
    LookupFinds(previous, before);
    KeptPathEvents(previous, current, now, event);
  }

  /** A path in one listing only is reported as added, with its kind and size, or as removed. */
  lemma NewAndGoneReported(previous: Table, current: Table, e: Entry)
    requires Distinct(current)
    ensures e in current && e.path !in Paths(previous) ==> Add(e.path, e.isDirectory, e.size) in Diff(previous, current)
    ensures e in previous && e.path !in Paths(current) ==> Unlink(e.path) in Diff(previous, current)
  {
    DeparturesExactly(previous, current, Unlink(e.path));
    ArrivalsExactly(previous, current, Add(e.path, e.isDirectory, e.size));
    if e in current && e.path !in Paths(previous) {
      assert Lookup(previous, e.path).None?;
    }
  }

  // ---- The loop ----

  /** The closure variables, and everything reported so far. A pending timer is its delay. */
  datatype Poller = Poller(
    previous: Table,
    timer: Option<nat>,
    closed: bool,
    inFlight: bool,
    initialized: bool,
    failures: nat,
    emitted: seq<FsEvent>)

  datatype Event =
    | TimerFires
    | Listed(entries: seq<Entry>)
    | ListingFails
    | Close

  /** After start-up: the first timer is due at once. */
  const STARTED := Poller([], Some(0), false, false, false, 0, [])

  function NextDelay(failures: nat): nat {
    POLL_BACKOFF_MS[Min(Max(failures - 1, 0), |POLL_BACKOFF_MS| - 1)]
  }

  function Schedule(s: Poller, delay: nat): Poller {
    if s.closed then s else s.(timer := Some(delay))
  }

  /** The end of a poll, whatever its outcome. */
  function Finish(s: Poller): Poller {
    Schedule(s.(inFlight := false), NextDelay(s.failures))
  }

  function Fire(s: Poller): Poller {
    if s.closed then s
    else if s.inFlight then Schedule(s, NextDelay(s.failures))
    else s.(inFlight := true)
  }

  function Receive(s: Poller, current: Table): Poller {
    if s.closed then s
    else if !s.initialized then s.(failures := 0, previous := current, initialized := true)
    else s.(failures := 0, previous := current, emitted := s.emitted + Diff(s.previous, current))
  }

  function Step(s: Poller, e: Event): Poller {
    match e
    case TimerFires => if s.timer.None? then s else Fire(s.(timer := None))
    case Listed(entries) => if !s.inFlight then s else Finish(Receive(s, Load(entries)))
    case ListingFails => if !s.inFlight then s else Finish(s.(failures := s.failures + 1))
    case Close => s.(closed := true, timer := None)
  }

  function Run(s: Poller, events: seq<Event>): Poller
    decreases |events|
  {
    if events == [] then s else Run(Step(s, events[0]), events[1..])
  }

  /** One loop: while the watcher is open, either a timer is pending or a listing is in flight, never
      both, and a timer is only ever pending while it is open. */
  predicate OneLoop(s: Poller) {
    && (!s.closed ==> (s.timer.Some? <==> !s.inFlight))
    && (s.closed ==> s.timer.None?)
  }

  predicate Inv(s: Poller) {
    && OneLoop(s)
    && Distinct(s.previous)
    && (!s.initialized ==> s.previous == [] && s.emitted == [])
  }

  lemma {:induction false} PutAdds(t: Table, e: Entry)
    ensures Paths(Put(t, e)) == Paths(t) + {e.path}
  {
    PathsOfHead(Put(t, e));
    if t != [] {
      PathsOfHead(t);
      if t[0].path != e.path {
        PutAdds(t[1..], e);
        assert Put(t, e)[1..] == Put(t[1..], e);
      } else {
        assert Put(t, e)[1..] == t[1..];
      }
    } else {
      assert Paths(t) == {};
    }
  }

  /** A path that is there keeps its place and gets the new entry; a new one goes to the end. */
  lemma {:induction false} PutInPlace(t: Table, e: Entry)
    requires Distinct(t)
    ensures e.path !in Paths(t) ==> Put(t, e) == t + [e]
    ensures e.path in Paths(t) ==>
      |Put(t, e)| == |t| && forall k :: 0 <= k < |t| ==> Put(t, e)[k] == if t[k].path == e.path then e else t[k]
  {
    if t != [] {
      PathsOfHead(t);
      if t[0].path != e.path {
        PutInPlace(t[1..], e);
      }
    }
  }

  lemma DistinctWithHead(head: Entry, rest: Table)
    requires Distinct(rest) && head.path !in Paths(rest)
    ensures Distinct([head] + rest)
  {
  }

  lemma {:induction false} PutKeeps(t: Table, e: Entry)
    requires Distinct(t)
    ensures Distinct(Put(t, e))
  {
    if t != [] && t[0].path != e.path {
      PutKeeps(t[1..], e);
      PutAdds(t[1..], e);
      assert t[0].path !in Paths(t[1..]);
      DistinctWithHead(t[0], Put(t[1..], e));
    }
  }

  lemma PathsOfHead(t: Table)
    requires t != []
    ensures Paths(t) == {t[0].path} + Paths(t[1..])
  {
    assert t == [t[0]] + t[1..];
    forall p | p in Paths(t)
      ensures p in {t[0].path} + Paths(t[1..])
    {
      var e :| e in t && e.path == p;
      assert e == t[0] || e in t[1..];
    }
  }

  /** Loading a listing gives every path once. */
  lemma {:induction false} LoadKeeps(entries: seq<Entry>)
    ensures Distinct(Load(entries)) && Paths(Load(entries)) == Paths(entries)
  {
    if entries != [] {
      LoadKeeps(entries[..|entries| - 1]);
      PutKeeps(Load(entries[..|entries| - 1]), entries[|entries| - 1]);
      PutAdds(Load(entries[..|entries| - 1]), entries[|entries| - 1]);
      PathsOfSplit(entries);
    }
  }

  /** And what it says last of that path. */
  lemma {:induction false} LoadKeepsLast(entries: seq<Entry>, i: nat)
    requires i < |entries| && forall j :: i < j < |entries| ==> entries[j].path != entries[i].path
    ensures entries[i] in Load(entries)
  {
    var n := |entries| - 1;
    var front := Load(entries[..n]);
    LoadKeeps(entries[..n]);
    PutInPlace(front, entries[n]);
    if i == n {
      PutHas(front, entries[n]);
    } else {
      LoadKeepsLast(entries[..n], i);
      var k :| 0 <= k < |front| && front[k] == entries[i];
      assert Put(front, entries[n])[k] == entries[i];
    }
  }

  lemma {:induction false} PutHas(t: Table, e: Entry)
    ensures e in Put(t, e)
  {
    if t != [] && t[0].path != e.path {
      PutHas(t[1..], e);
    }
  }

  lemma StepKeeps(s: Poller, e: Event)
    requires Inv(s)
    ensures Inv(Step(s, e))
  {
    if e.Listed? {
      LoadKeeps(e.entries);
    }
  }

  lemma {:induction false} RunKeeps(s: Poller, events: seq<Event>)
    requires Inv(s)
    ensures Inv(Run(s, events))
    decreases |events|
  {
    if events != [] {
      StepKeeps(s, events[0]);
      RunKeeps(Step(s, events[0]), events[1..]);
    }
  }

  /** Main result. In every reachable state one loop is going while the watcher is open, and none
      after it is closed; so a firing timer never meets a listing in flight. */
  lemma OneLoopAlways(events: seq<Event>)
    ensures OneLoop(Run(STARTED, events))
    ensures Run(STARTED, events).timer.Some? ==> !Run(STARTED, events).inFlight && !Run(STARTED, events).closed
  {
    RunKeeps(STARTED, events);
  }

  /** So a timer that fires begins a listing, in every run, and a listing in flight ends with the next
      timer set, unless the watcher was closed meanwhile. */
  lemma PollingGoesOn(events: seq<Event>, e: Event)
    ensures
      var s := Run(STARTED, events);
      && (s.timer.Some? ==> Step(s, TimerFires) == s.(timer := None, inFlight := true))
      && (s.inFlight && (e.Listed? || e.ListingFails?) ==> !Step(s, e).inFlight && (Step(s, e).timer.Some? <==> !s.closed))
  {
    RunKeeps(STARTED, events);
  }

  // ---- What a listener learns ----

  lemma StepReplay(s: Poller, e: Event, base: Table)
    requires Inv(s) && s.initialized
    requires Replay(Some(Paths(base)), s.emitted) == Some(Paths(s.previous))
    ensures Step(s, e).initialized
    ensures Replay(Some(Paths(base)), Step(s, e).emitted) == Some(Paths(Step(s, e).previous))
  {
    if e.Listed? && s.inFlight && !s.closed {
      LoadKeeps(e.entries);
      DiffReplay(s.previous, Load(e.entries));
      ReplayConcat(Some(Paths(base)), s.emitted, Diff(s.previous, Load(e.entries)));
    }
  }

  lemma {:induction false} RunReplay(s: Poller, events: seq<Event>, base: Table)
    requires Inv(s) && s.initialized
    requires Replay(Some(Paths(base)), s.emitted) == Some(Paths(s.previous))
    ensures Replay(Some(Paths(base)), Run(s, events).emitted) == Some(Paths(Run(s, events).previous))
    decreases |events|
  {
    if events != [] {
      StepReplay(s, events[0], base);
      StepKeeps(s, events[0]);
      RunReplay(Step(s, events[0]), events[1..], base);
    }
  }

  /** The listing the watcher goes by after `events`: the latest one that arrived while it was open. */
  function Latest(s: Poller, listing: Table, events: seq<Event>): Table
    decreases |events|
  {
    if events == [] then listing
    else
      var e := events[0];
      Latest(Step(s, e), if e.Listed? && s.inFlight && !s.closed then Load(e.entries) else listing, events[1..])
  }

  lemma {:induction false} PreviousIsLatest(s: Poller, events: seq<Event>)
    ensures Run(s, events).previous == Latest(s, s.previous, events)
    decreases |events|
  {
    if events != [] {
      PreviousIsLatest(Step(s, events[0]), events[1..]);
    }
  }

  /** Main result. Before the first successful listing nothing is reported. From then on, whatever mix
      of listings and failures follows, replaying everything reported over the paths of that first
      listing makes sense event by event and gives exactly the paths of the latest one. */
  lemma ReplayGivesLatest(before: seq<Event>, first: seq<Entry>, after: seq<Event>)
    requires
      var s := Run(STARTED, before);
      !s.initialized && !s.closed && s.inFlight
    ensures Run(STARTED, before).emitted == []
    ensures
      var s := Step(Run(STARTED, before), Listed(first));
      Replay(Some(Paths(first)), Run(s, after).emitted) == Some(Paths(Latest(s, Load(first), after)))
  {
    RunKeeps(STARTED, before);
    var s := Step(Run(STARTED, before), Listed(first));
    StepKeeps(Run(STARTED, before), Listed(first));
    LoadKeeps(first);
    assert s.previous == Load(first) && s.emitted == [];
    RunReplay(s, after, Load(first));
    PreviousIsLatest(s, after);
  }

  /** After it is closed the watcher reports nothing more and sets no timer, even if a listing was in
      flight when it was closed. */
  lemma {:induction false} SilentOnceClosed(s: Poller, events: seq<Event>)
    requires s.closed && s.timer.None?
    ensures Run(s, events).emitted == s.emitted && Run(s, events).timer.None? && Run(s, events).closed
    decreases |events|
  {
    if events != [] {
      SilentOnceClosed(Step(s, events[0]), events[1..]);
    }
  }

  /** How many polls have failed since the last one that was listed, `n` of them before `s`. */
  function Streak(s: Poller, n: nat, events: seq<Event>): nat
    decreases |events|
  {
    if events == [] then n
    else
      var more := if !s.inFlight then n
                  else if events[0].ListingFails? then n + 1
                  else if events[0].Listed? && !s.closed then 0
                  else n;
      Streak(Step(s, events[0]), more, events[1..])
  }

  lemma {:induction false} FailuresAreStreak(s: Poller, events: seq<Event>)
    ensures Run(s, events).failures == Streak(s, s.failures, events)
    decreases |events|
  {
    if events != [] {
      FailuresAreStreak(Step(s, events[0]), events[1..]);
    }
  }

  /** The backoff, in any run: behind the first failure in a row the next poll waits two seconds, behind
      the second five, the third ten, and thirty from then on; behind a listing it waits two. */
  lemma BackoffSchedule(events: seq<Event>, e: Event)
    requires Run(STARTED, events).inFlight && !Run(STARTED, events).closed && (e.Listed? || e.ListingFails?)
    ensures
      var inRow := if e.Listed? then 0 else Streak(STARTED, 0, events) + 1;
      Step(Run(STARTED, events), e).timer
        == Some(if inRow <= 1 then 2000 else if inRow == 2 then 5000 else if inRow == 3 then 10000 else 30000)
  {
    FailuresAreStreak(STARTED, events);
  }

  // ---- The watcher ----

  class Watcher {
    var previous: Table
    var timer: Option<nat>
    var closed: bool
    var inFlight: bool
    var initialized: bool
    var consecutiveFailures: nat
    var emitted: seq<FsEvent>

    ghost function State(): Poller
      reads this
    {
      Poller(previous, timer, closed, inFlight, initialized, consecutiveFailures, emitted)
    }

    ghost predicate Valid()
      reads this
    {
      Inv(State())
    }

    constructor ()
      ensures Valid() && State() == STARTED
    {
      previous, timer, closed, inFlight := [], Some(0), false, false;
      initialized, consecutiveFailures, emitted := false, 0, [];
    }

    method SetTimer(delay: nat)
      modifies this`timer
      ensures State() == Schedule(old(State()), delay)
    {
      if !closed {
        timer := Some(delay);
      }
    }

    /** The timer is due: the first half of a poll, up to the listing. In a valid state a listing
        always begins; the branches that put it off are for states that never arise. */
    method Poll()
      requires timer.Some?
      modifies this
      ensures State() == Step(old(State()), TimerFires)
      ensures old(Valid()) ==> Valid() && inFlight
    {
      if Inv(State()) {
        StepKeeps(State(), TimerFires);
      }
      timer := None;
      if closed {
        return;
      }
      if inFlight {
        SetTimer(NextDelay(consecutiveFailures));
        return;
      }
      inFlight := true;
    }

    method Emit(e: FsEvent)
      modifies this`emitted
      ensures emitted == old(emitted) + [e]
    {
      emitted := emitted + [e];
    }

    /** The pass over the current listing. */
    method EmitArrivals(current: Table)
      modifies this`emitted
      ensures emitted == old(emitted) + Arrivals(previous, current)
    {
      for i := 0 to |current|
        invariant emitted == old(emitted) + Arrivals(previous, current[..i])
      {
        var e := current[i];
        var prev := Lookup(previous, e.path);
        assert current[..i + 1][..i] == current[..i];
        if prev.None? {
          Emit(Add(e.path, e.isDirectory, e.size));
        } else if !e.isDirectory && (prev.value.size != e.size || prev.value.mtimeMs != e.mtimeMs) {
          Emit(Change(e.path));
        }
      }
      assert current[..|current|] == current;
    }

    /** The pass over the previous listing. */
    method EmitDepartures(current: Table)
      modifies this`emitted
      ensures emitted == old(emitted) + Departures(previous, current)
    {
      for i := 0 to |previous|
        invariant emitted == old(emitted) + Departures(previous[..i], current)
      {
        assert previous[..i + 1][..i] == previous[..i];
        if Lookup(current, previous[i].path).None? {
          Emit(Unlink(previous[i].path));
        }
      }
      assert previous[..|previous|] == previous;
    }

    /** What a poll does with the listing. */
    method Digest(current: Table)
      modifies this
      ensures State() == Receive(old(State()), current)
    {
      if closed {
        return;
      }
      consecutiveFailures := 0;
      if !initialized {
        previous := current;
        initialized := true;
        return;
      }
      EmitArrivals(current);
      EmitDepartures(current);
      previous := current;
    }

    /** The listing arrived: the second half of a poll. */
    method OnListed(entries: seq<Entry>)
      requires Valid() && inFlight
      modifies this
      ensures Valid() && State() == Step(old(State()), Listed(entries))
    {
      StepKeeps(State(), Listed(entries));
      Digest(Load(entries));
      inFlight := false;
      SetTimer(NextDelay(consecutiveFailures));
    }

    method OnListingFailed()
      requires Valid() && inFlight
      modifies this
      ensures Valid() && State() == Step(old(State()), ListingFails)
    {
      StepKeeps(State(), ListingFails);
      consecutiveFailures := consecutiveFailures + 1;
      inFlight := false;
      SetTimer(NextDelay(consecutiveFailures));
    }

    method Shut()
      requires Valid()
      modifies this
      ensures Valid() && State() == Step(old(State()), Close)
    {
      StepKeeps(State(), Close);
      closed := true;
      timer := None;
    }
  }
}
