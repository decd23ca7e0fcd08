/** Debounced badge invalidation: each notification restarts its workspace's quiet window, and the
    workspace is told once the window has passed. The scheduler may run a due timer at any later
    moment; a prompt scheduler runs it before time passes on. */
module BadgeInvalidation {
  import opened Prelude

  const QUIET_WINDOW_MS: nat := 300

  /** A timer of the scheduler: whose it is and when it is due. */
  datatype Timer = Timer(workspace: string, due: nat)

  datatype Sent = Sent(workspace: string, at: nat)

  /** The coordinator's map and flag, the scheduler's live timers, and all broadcasts so far. */
  datatype Coordinator = Coordinator(
    now: nat,
    timers: map<string, nat>,
    stopped: bool,
    live: map<nat, Timer>,
    nextId: nat,
    log: seq<Sent>)

  datatype Event = Notify(workspace: string) | Stop | Wake(timer: nat) | Pass(ms: nat)

  const START := Coordinator(0, map[], false, map[], 0, [])

  function Cleared(live: map<nat, Timer>, timers: map<string, nat>, w: string): map<nat, Timer> {
    if w in timers then live - {timers[w]} else live
  }

  function Step(c: Coordinator, e: Event): Coordinator {
    match e
    case Notify(w) =>
      if c.stopped then c
      else c.(live := Cleared(c.live, c.timers, w)[c.nextId := Timer(w, c.now + QUIET_WINDOW_MS)],
              timers := c.timers[w := c.nextId], nextId := c.nextId + 1)
    case Stop =>
      if c.stopped then c else c.(stopped := true, live := c.live - c.timers.Values, timers := map[])
    case Wake(id) =>
      if id !in c.live || c.live[id].due > c.now then c
      else
        var w := c.live[id].workspace;
        var fired := c.(live := c.live - {id}, timers := c.timers - {w});
        if c.stopped then fired else fired.(log := c.log + [Sent(w, c.now)])
    case Pass(ms) => c.(now := c.now + ms)
  }

  function Run(events: seq<Event>): Coordinator {
    if events == [] then START else Step(Run(events[..|events| - 1]), events[|events| - 1])
  }

  // ---- The map and the scheduler agree ----

  ghost predicate Inv(c: Coordinator) {
    && (forall w :: w in c.timers ==> c.timers[w] in c.live && c.live[c.timers[w]].workspace == w)
    && (forall id :: id in c.live ==> id < c.nextId && c.live[id].workspace in c.timers)
    && (forall id :: id in c.live ==> c.timers[c.live[id].workspace] == id)
    && (c.stopped ==> c.timers == map[])
  }

  lemma NotifyKeeps(c: Coordinator, w: string)
    requires Inv(c)
    ensures Inv(Step(c, Notify(w)))
  {
  }

  lemma StopKeeps(c: Coordinator)
    requires Inv(c)
    ensures Inv(Step(c, Stop)) && Step(c, Stop).live == map[]
  {
    forall id | id in c.live
      ensures id in c.timers.Values || c.stopped
    {
      assert c.timers[c.live[id].workspace] == id;
    }
  }

  lemma WakeKeeps(c: Coordinator, id: nat)
    requires Inv(c)
    ensures Inv(Step(c, Wake(id)))
  {
  }

  lemma StepKeeps(c: Coordinator, e: Event)
    requires Inv(c)
    ensures Inv(Step(c, e))
  {
    match e
    case Notify(w) => NotifyKeeps(c, w);
    case Stop => StopKeeps(c);
    case Wake(id) => WakeKeeps(c, id);
    case Pass(ms) =>
  }

  lemma {:induction false} RunKeeps(events: seq<Event>)
    ensures Inv(Run(events))
  {
    if events != [] {
      RunKeeps(events[..|events| - 1]);
      StepKeeps(Run(events[..|events| - 1]), events[|events| - 1]);
    }
  }

  // ---- Bursts, told from the trace alone ----

  /** The timer a wake-up would run if it is due. */
  predicate Tells(c: Coordinator, e: Event, w: string) {
    e.Wake? && e.timer in c.live && c.live[e.timer].due <= c.now && c.live[e.timer].workspace == w && !c.stopped
  }

  /** Step `j` of the trace broadcasts for `w`. */
  predicate Broadcasts(events: seq<Event>, j: nat, w: string)
    requires j < |events|
  {
    Tells(Run(events[..j]), events[j], w)
  }

  /** A broadcast is exactly what lengthens the log, by the workspace and the time. */
  lemma BroadcastIsLogged(c: Coordinator, e: Event, w: string)
    ensures Tells(c, e, w) <==> Step(c, e).log == c.log + [Sent(w, c.now)]
    ensures Step(c, e).log != c.log ==> e.Wake? && e.timer in c.live && Tells(c, e, c.live[e.timer].workspace)
  {
    var longer := c.log + [Sent(w, c.now)];
    assert longer[|c.log|] == Sent(w, c.now) && |longer| == |c.log| + 1;
    if Step(c, e).log != c.log {
      assert Step(c, e).log[|c.log|].workspace == c.live[e.timer].workspace;
    }
  }

  /** Step `i` is a notification of `w` that counts: the coordinator is not stopped. */
  predicate Counts(events: seq<Event>, i: nat, w: string)
    requires i < |events|
  {
    events[i] == Notify(w) && Stop !in events[..i]
  }

  /** From step `i` on, and before step `j`, nothing ends the wait that `i` began. */
  predicate Quiet(events: seq<Event>, i: nat, j: nat, w: string)
    requires i < j <= |events|
  {
    forall k :: i < k < j ==> events[k] != Notify(w) && events[k] != Stop && !Broadcasts(events, k, w)
  }

  /** Step `i` is the last notification of a burst for `w` that is still waiting before step `j`. */
  predicate Waits(events: seq<Event>, i: nat, j: nat, w: string) {
    i < j <= |events| && Counts(events, i, w) && Quiet(events, i, j, w)
  }

  lemma {:induction false} StoppedIsStop(events: seq<Event>)
    ensures Run(events).stopped <==> Stop in events
  {
    if events != [] {
      var front, e := events[..|events| - 1], events[|events| - 1];
      assert events == front + [e];
      StoppedIsStop(front);
    }
  }

  /** The wait of a burst, as the coordinator holds it: a live timer due one quiet window after the
      burst's last notification. */
  ghost predicate Holds(c: Coordinator, w: string, since: nat) {
    w in c.timers && c.timers[w] in c.live && c.live[c.timers[w]] == Timer(w, since + QUIET_WINDOW_MS)
  }

  lemma PrefixOfPrefix(events: seq<Event>, i: nat, j: nat)
    requires i <= j <= |events|
    ensures events[..j][..i] == events[..i]
  {
  }

  lemma QuietPrefix(events: seq<Event>, i: nat, j: nat, w: string)
    requires i < j <= |events|
    ensures Waits(events, i, j, w) <==> Waits(events[..j], i, j, w)
  {
    PrefixOfPrefix(events, i, j);
    forall k | i < k < j
      ensures Broadcasts(events, k, w) <==> Broadcasts(events[..j], k, w)
    {
      PrefixOfPrefix(events, k, j);
    }
  }

  lemma HoldStep(c: Coordinator, e: Event, w: string, since: nat)
    requires Inv(c) && Holds(c, w, since)
    requires e != Notify(w) && e != Stop && !Tells(c, e, w)
    ensures Holds(Step(c, e), w, since)
  {
    if e.Wake? && e.timer in c.live {
      assert c.live[e.timer].workspace == w <==> c.timers[w] == e.timer;
    }
  }

  /** A burst that waits is held by the coordinator: its timer is live, and due one quiet window
      after the burst's last notification. */
  lemma {:induction false} WaitIsHeld(events: seq<Event>, i: nat, w: string)
    requires Waits(events, i, |events|, w)
    ensures Holds(Run(events), w, Run(events[..i]).now)
    decreases |events|
  {
    var front, e := events[..|events| - 1], events[|events| - 1];
    RunKeeps(front);
    if i == |front| {
      StoppedIsStop(front);
    } else {
      QuietPrefix(events, i, |front|, w);
      PrefixOfPrefix(events, i, |front|);
      assert Waits(events, i, |front|, w);
      WaitIsHeld(front, i, w);
      assert !Broadcasts(events, |front|, w);
      HoldStep(Run(front), e, w, Run(events[..i]).now);
    }
  }

  lemma TimerStep(c: Coordinator, e: Event, w: string)
    requires Inv(c) && w in Step(c, e).timers
    ensures e == Notify(w) ==> !c.stopped
    ensures e != Notify(w) ==> w in c.timers && e != Stop && !Tells(c, e, w)
  {
  }

  /** And a timer the coordinator holds belongs to a burst that waits. */
  lemma {:induction false} HeldIsWaiting(events: seq<Event>, w: string) returns (i: nat)
    requires w in Run(events).timers
    ensures Waits(events, i, |events|, w)
    decreases |events|
  {
    var front, e := events[..|events| - 1], events[|events| - 1];
    RunKeeps(front);
    StoppedIsStop(front);
    TimerStep(Run(front), e, w);
    if e == Notify(w) {
      i := |front|;
    } else {
      i := HeldIsWaiting(front, w);
      QuietPrefix(events, i, |front|, w);
      assert Waits(events, i, |front|, w);
      assert !Broadcasts(events, |front|, w);
    }
  }

  // ---- The trace law ----

  /** Main result, for any scheduler. A broadcast for a workspace comes one full quiet window or more
      after a notification that counts, with no other notification of it, no stop and no broadcast
      for it in between. */
  lemma BroadcastEndsABurst(events: seq<Event>, j: nat, w: string) returns (i: nat)
    requires j < |events| && Broadcasts(events, j, w)
    ensures Waits(events, i, j, w)
    ensures Run(events[..j]).now >= Run(events[..i]).now + 300
  {
    var front := events[..j];
    RunKeeps(front);
    i := HeldIsWaiting(front, w);
    QuietPrefix(events, i, j, w);
    WaitIsHeld(front, i, w);
    PrefixOfPrefix(events, i, j);
  }

  /** The other half: while a burst waits and its window has passed, there is a wake-up that tells,
      and it is the wake-up of the one timer the workspace has. */
  lemma DueTimerTells(events: seq<Event>, i: nat, w: string, id: nat)
    requires Waits(events, i, |events|, w)
    requires Run(events).now >= Run(events[..i]).now + 300
    ensures w in Run(events).timers
    ensures Tells(Run(events), Wake(id), w) <==> id == Run(events).timers[w]
  {
    RunKeeps(events);
    WaitIsHeld(events, i, w);
  }

  /** One broadcast a burst: between two broadcasts for a workspace there is a notification of it. */
  lemma OneBroadcastPerBurst(events: seq<Event>, j: nat, k: nat, w: string) returns (i: nat)
    requires j < k < |events| && Broadcasts(events, j, w) && Broadcasts(events, k, w)
    ensures j < i < k && Counts(events, i, w)
  {
    i := BroadcastEndsABurst(events, k, w);
    if i < j {
      assert false;
    }
  }

  lemma NothingAfterStop(events: seq<Event>, j: nat, w: string)
    requires j < |events| && Stop in events[..j]
    ensures !Broadcasts(events, j, w)
  {
    StoppedIsStop(events[..j]);
  }

  /** The scheduler is prompt: time never passes beyond a timer that is due. */
  ghost predicate Prompt(events: seq<Event>) {
    forall j :: 0 <= j < |events| && events[j].Pass? ==> NoneOverdue(Run(events[..j]), events[j].ms)
  }

  ghost predicate NoneOverdue(c: Coordinator, ms: nat) {
    forall id :: id in c.live ==> c.now + ms <= c.live[id].due
  }

  lemma {:induction false} PromptIsOnTime(events: seq<Event>)
    requires Prompt(events)
    ensures NoneOverdue(Run(events), 0)
    decreases |events|
  {
    if events != [] {
      var front, e := events[..|events| - 1], events[|events| - 1];
      PromptPrefix(events, |front|);
      PromptIsOnTime(front);
      if e.Pass? {
        assert NoneOverdue(Run(events[..|front|]), e.ms);
      }
    }
  }

  lemma PromptPrefix(events: seq<Event>, j: nat)
    requires Prompt(events) && j <= |events|
    ensures Prompt(events[..j])
  {
    forall k | 0 <= k < j && events[..j][k].Pass?
      ensures NoneOverdue(Run(events[..j][..k]), events[..j][k].ms)
    {
      PrefixOfPrefix(events, k, j);
    }
  }

  /** With a prompt scheduler a broadcast comes exactly one quiet window after the last notification. */
  lemma BroadcastIsOnTime(events: seq<Event>, j: nat, w: string) returns (i: nat)
    requires Prompt(events) && j < |events| && Broadcasts(events, j, w)
    ensures Waits(events, i, j, w)
    ensures Run(events[..j]).now == Run(events[..i]).now + 300
  {
    i := BroadcastEndsABurst(events, j, w);
    PromptPrefix(events, j);
    PromptIsOnTime(events[..j]);
    QuietPrefix(events, i, j, w);
    WaitIsHeld(events[..j], i, w);
    PrefixOfPrefix(events, i, j);
  }

  lemma {:induction false} FirstBroadcast(events: seq<Event>, i: nat, j: nat, w: string) returns (k: nat)
    requires i < j <= |events| && Counts(events, i, w) && !Quiet(events, i, j, w)
    requires forall k :: i < k < j ==> events[k] != Notify(w) && events[k] != Stop
    ensures i < k < j && Broadcasts(events, k, w) && Waits(events, i, k, w)
    decreases j
  {
    if j - 1 > i && !Quiet(events, i, j - 1, w) {
      k := FirstBroadcast(events, i, j - 1, w);
    } else {
      k := j - 1;
    }
  }

  /** Main result, for a prompt scheduler. A notification followed by a full quiet window - time has
      gone on beyond it, with no further notification of the workspace and no stop - has been told
      within that window, exactly at its end. */
  lemma QuietWindowIsTold(events: seq<Event>, i: nat, j: nat, w: string) returns (k: nat)
    requires Prompt(events) && i < j <= |events| && Counts(events, i, w)
    requires forall k :: i < k < j ==> events[k] != Notify(w) && events[k] != Stop
    requires Run(events[..j]).now > Run(events[..i]).now + 300
    ensures i < k < j && Broadcasts(events, k, w)
    ensures Run(events[..k]).now == Run(events[..i]).now + 300
  {
    if Quiet(events, i, j, w) {
      PromptPrefix(events, j);
      PromptIsOnTime(events[..j]);
      QuietPrefix(events, i, j, w);
      WaitIsHeld(events[..j], i, w);
      PrefixOfPrefix(events, i, j);
      assert false;
    } else {
      k := FirstBroadcast(events, i, j, w);
      var last := BroadcastIsOnTime(events, k, w);
      if last < i {
        assert false;
      } else if last > i {
        assert false;
      }
    }
  }

  // ---- Other workspaces do not interfere ----

  /** What one workspace sees: the time, when it is due, whether all is stopped, when it was told. */
  datatype View = View(now: nat, due: Option<nat>, stopped: bool, told: seq<nat>)

  /** What can happen to a workspace that is alone. */
  datatype Own = Notified | StoppedAll | Fires | Passes(ms: nat)

  function Alone(v: View, e: Own): View {
    match e
    case Notified => if v.stopped then v else v.(due := Some(v.now + QUIET_WINDOW_MS))
    case StoppedAll => v.(stopped := true, due := None)
    case Fires => if v.due.None? || v.due.value > v.now then v else v.(due := None, told := v.told + [v.now])
    case Passes(ms) => v.(now := v.now + ms)
  }

  function AloneRun(events: seq<Own>): View {
    if events == [] then View(0, None, false, []) else Alone(AloneRun(events[..|events| - 1]), events[|events| - 1])
  }

  function Told(log: seq<Sent>, w: string): seq<nat> {
    if log == [] then []
    else Told(log[..|log| - 1], w) + (if log[|log| - 1].workspace == w then [log[|log| - 1].at] else [])
  }

  function ViewOf(c: Coordinator, w: string): View {
    View(c.now, if w in c.timers && c.timers[w] in c.live then Some(c.live[c.timers[w]].due) else None,
         c.stopped, Told(c.log, w))
  }

  /** What an event is to workspace `w`: nothing, if it is about another one. */
  function OwnEvent(c: Coordinator, e: Event, w: string): seq<Own> {
    match e
    case Notify(v) => if v == w then [Notified] else []
    case Stop => [StoppedAll]
    case Wake(id) => if id in c.live && c.live[id].workspace == w then [Fires] else []
    case Pass(ms) => [Passes(ms)]
  }

  function OwnEvents(events: seq<Event>, w: string): seq<Own> {
    if events == [] then []
    else
      var front := events[..|events| - 1];
      OwnEvents(front, w) + OwnEvent(Run(front), events[|events| - 1], w)
  }

  lemma ToldMore(log: seq<Sent>, s: Sent, w: string)
    ensures Told(log + [s], w) == if s.workspace == w then Told(log, w) + [s.at] else Told(log, w)
  {
    assert (log + [s])[..|log|] == log;
  }

  lemma OwnStep(c: Coordinator, e: Event, w: string)
    requires Inv(c)
    ensures OwnEvent(c, e, w) == [] ==> ViewOf(Step(c, e), w) == ViewOf(c, w)
    ensures OwnEvent(c, e, w) != [] ==> ViewOf(Step(c, e), w) == Alone(ViewOf(c, w), OwnEvent(c, e, w)[0])
  {
    if e.Wake? && e.timer in c.live {
      ToldMore(c.log, Sent(c.live[e.timer].workspace, c.now), w);
      assert c.live[e.timer].workspace == w <==> w in c.timers && c.timers[w] == e.timer;
    }
  }

  /** Main result. What the coordinator does for one workspace is what it would do if the others did
      not exist: its due time and its broadcasts follow from its own events alone. */
  lemma {:induction false} OthersDoNotInterfere(events: seq<Event>, w: string)
    ensures ViewOf(Run(events), w) == AloneRun(OwnEvents(events, w))
  {
    if events != [] {
      var front, e := events[..|events| - 1], events[|events| - 1];
      OthersDoNotInterfere(front, w);
      RunKeeps(front);
      OwnStep(Run(front), e, w);
      AloneMore(OwnEvents(front, w), OwnEvent(Run(front), e, w));
    }
  }

  lemma AloneMore(own: seq<Own>, more: seq<Own>)
    requires |more| <= 1
    ensures AloneRun(own + more) == if more == [] then AloneRun(own) else Alone(AloneRun(own), more[0])
  {
    if more == [] {
      assert own + more == own;
    } else {
      assert (own + more)[..|own|] == own;
    }
  }

  // ---- The coordinator ----

  class BadgeInvalidationCoordinator {
    var timers: map<string, nat>
    var stopped: bool
    var now: nat
    var live: map<nat, Timer>
    var nextId: nat
    var log: seq<Sent>

    ghost function State(): Coordinator
      reads this
    {
      Coordinator(now, timers, stopped, live, nextId, log)
    }

    ghost predicate Valid()
      reads this
    {
      Inv(State())
    }

    constructor ()
      ensures Valid() && State() == START
    {
      timers, stopped, now, live, nextId, log := map[], false, 0, map[], 0, [];
    }

    method SetTimeout(w: string, delay: nat) returns (timer: nat)
      modifies this`live, this`nextId
      ensures timer == old(nextId) && nextId == timer + 1
      ensures live == old(live)[timer := Timer(w, now + delay)]
    {
      timer := nextId;
      live := live[timer := Timer(w, now + delay)];
      nextId := nextId + 1;
    }

    method ClearTimeout(timer: nat)
      modifies this`live
      ensures live == old(live) - {timer}
    {
      live := live - {timer};
    }

    /** Time passes. */
    method Advance(ms: nat)
      requires Valid()
      modifies this`now
      ensures Valid() && State() == Step(old(State()), Pass(ms))
    {
      StepKeeps(State(), Pass(ms));
      now := now + ms;
    }

    method OnNotify(w: string)
      requires Valid()
      modifies this
      ensures Valid() && State() == Step(old(State()), Notify(w))
    {
      NotifyKeeps(State(), w);
      ghost var next := Step(State(), Notify(w));
      if !stopped {
        if w in timers {
          ClearTimeout(timers[w]);
        }
        var timer := SetTimeout(w, QUIET_WINDOW_MS);
        timers := timers[w := timer];
      }
      assert State() == next;
    }

    /** The callback of a timer, when the scheduler runs it. */
    method OnTimer(timer: nat)
      requires Valid() && timer in live && live[timer].due <= now
      modifies this
      ensures Valid() && State() == Step(old(State()), Wake(timer))
    {
      WakeKeeps(State(), timer);
      var w := live[timer].workspace;
      live := live - {timer};
      timers := timers - {w};
      if !stopped {
        log := log + [Sent(w, now)];
      }
    }

    method ClearAll()
      modifies this`live
      ensures live == old(live) - timers.Values
    {
      var left := timers.Values;
      while left != {}
        invariant left <= timers.Values
        invariant live == old(live) - (timers.Values - left)
        decreases left
      {
        var timer :| timer in left;
        left := left - {timer};
        ClearTimeout(timer);
      }
      assert timers.Values - left == timers.Values;
    }

    method OnStop()
      requires Valid()
      modifies this
      ensures Valid() && State() == Step(old(State()), Stop)
    {
      StopKeeps(State());
      if stopped {
        return;
      }
      stopped := true;
      ClearAll();
      timers := map[];
    }
  }
}
