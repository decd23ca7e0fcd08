/** Reply correlation of the close-flush handshake: one outstanding request per target and round,
    settled by its reply, by its timer or by a failed send. */
module FlushReplies {

  datatype TabOutcome = Saved | Pristine | Conflict | Error | Timeout
  datatype FlushResult = FlushResult(tabId: string, outcome: TabOutcome)

  datatype Settlement = Replied(results: seq<FlushResult>) | TimedOut | SendFailed

  /** A promise that was resolved, in the order it happened. */
  datatype Resolution = Resolution(requestId: nat, how: Settlement)

  /** `issued` counts requests; the identifiers are 1 to `issued`. */
  datatype Table = Table(issued: nat, pending: set<nat>, timers: set<nat>, resolved: seq<Resolution>)

  datatype Event =
    | Send(delivered: bool)
    | Reply(requestId: nat, results: seq<FlushResult>)
    | TimerFires(requestId: nat)

  const EMPTY := Table(0, {}, {}, [])

  function Step(t: Table, e: Event): Table {
    match e
    case Send(delivered) =>
      var id := t.issued + 1;
      if delivered then t.(issued := id, pending := t.pending + {id}, timers := t.timers + {id})
      else t.(issued := id, resolved := t.resolved + [Resolution(id, SendFailed)])
    case Reply(id, results) =>
      if id !in t.pending then t
      else t.(pending := t.pending - {id}, timers := t.timers - {id},
              resolved := t.resolved + [Resolution(id, Replied(results))])
    case TimerFires(id) =>
      if id !in t.timers then t
      else
        var quiet := t.(timers := t.timers - {id});
        if id !in t.pending then quiet
        else quiet.(pending := t.pending - {id}, resolved := t.resolved + [Resolution(id, TimedOut)])
  }

  function Run(events: seq<Event>): Table {
    if events == [] then EMPTY else Step(Run(events[..|events| - 1]), events[|events| - 1])
  }

  predicate ResolvedIn(t: Table, id: nat) {
    exists i :: 0 <= i < |t.resolved| && t.resolved[i].requestId == id
  }

  /** Every request issued is outstanding with its timer running, or resolved exactly once. */
  ghost predicate Consistent(t: Table) {
    && t.timers == t.pending
    && (forall id :: id in t.pending ==> 1 <= id <= t.issued && !ResolvedIn(t, id))
    && (forall i :: 0 <= i < |t.resolved| ==> 1 <= t.resolved[i].requestId <= t.issued)
    && (forall i, j :: 0 <= i < j < |t.resolved| ==> t.resolved[i].requestId != t.resolved[j].requestId)
    && (forall id :: 1 <= id <= t.issued && id !in t.pending ==> ResolvedIn(t, id))
  }

  /** Settling an outstanding request keeps the table consistent. */
  lemma ResolveKeepsConsistent(t: Table, id: nat, how: Settlement)
    requires Consistent(t) && id in t.pending
    ensures Consistent(t.(pending := t.pending - {id}, timers := t.timers - {id},
                          resolved := t.resolved + [Resolution(id, how)]))
  {
    var u := t.(pending := t.pending - {id}, timers := t.timers - {id},
                resolved := t.resolved + [Resolution(id, how)]);
    assert !ResolvedIn(t, id);
    forall k | 1 <= k <= u.issued && k !in u.pending ensures ResolvedIn(u, k) {
      if k == id {
        assert u.resolved[|t.resolved|].requestId == k;
      } else {
        var i :| 0 <= i < |t.resolved| && t.resolved[i].requestId == k;
        assert u.resolved[i].requestId == k;
      }
    }
    forall k | k in u.pending ensures !ResolvedIn(u, k) {
      assert !ResolvedIn(t, k);
    }
  }

  lemma RegisterKeepsConsistent(t: Table)
    requires Consistent(t)
    ensures var id := t.issued + 1;
            Consistent(t.(issued := id, pending := t.pending + {id}, timers := t.timers + {id}))
  {
    var id := t.issued + 1;
    var u := t.(issued := id, pending := t.pending + {id}, timers := t.timers + {id});
    forall k | 1 <= k <= u.issued && k !in u.pending ensures ResolvedIn(u, k) {
      assert ResolvedIn(t, k);
    }
    forall k | k in u.pending ensures !ResolvedIn(u, k) {
      assert k in t.pending ==> !ResolvedIn(t, k);
    }
  }

  lemma StepKeepsConsistent(t: Table, e: Event)
    requires Consistent(t)
    ensures Consistent(Step(t, e))
  {
    match e
    case Send(delivered) =>
      RegisterKeepsConsistent(t);
      if !delivered {
        var id := t.issued + 1;
        var u := t.(issued := id, pending := t.pending + {id}, timers := t.timers + {id});
        ResolveKeepsConsistent(u, id, SendFailed);
        assert u.pending - {id} == t.pending && u.timers - {id} == t.timers;
      }
    case Reply(id, results) =>
      if id in t.pending { ResolveKeepsConsistent(t, id, Replied(results)); }
    case TimerFires(id) =>
      if id in t.pending { ResolveKeepsConsistent(t, id, TimedOut); }
  }

  /** In every run each request settles at most once, and an outstanding one still has its timer. */
  lemma {:induction false} EachRequestSettlesOnce(events: seq<Event>)
    ensures Consistent(Run(events))
  {
    if events != [] {
      EachRequestSettlesOnce(events[..|events| - 1]);
      StepKeepsConsistent(Run(events[..|events| - 1]), events[|events| - 1]);
    }
  }

  /** A reply or a timer for a request that is not outstanding changes nothing, in any run. */
  lemma LateAnswersChangeNothing(events: seq<Event>, id: nat, results: seq<FlushResult>)
    requires id !in Run(events).pending
    ensures Step(Run(events), Reply(id, results)) == Run(events)
    ensures Step(Run(events), TimerFires(id)) == Run(events)
  {
    EachRequestSettlesOnce(events);
  }

  // ---- What settles a request ----

  /** The event is a reply to the request, or its timer. */
  predicate Answers(e: Event, id: nat) {
    (e.Reply? && e.requestId == id) || (e.TimerFires? && e.requestId == id)
  }

  /** How such an event settles a request that is outstanding. */
  function SettledBy(e: Event): Settlement
    requires !e.Send?
  {
    if e.Reply? then Replied(e.results) else TimedOut
  }

  /** Request `id` was sent by event `k`. */
  predicate SentBy(events: seq<Event>, k: int, id: nat) {
    0 <= k < |events| && events[k].Send? && Run(events[..k]).issued + 1 == id
  }

  /** Event `j` is the first answer behind event `k`. */
  predicate FirstAnswer(events: seq<Event>, k: int, j: int, id: nat) {
    0 <= k < j < |events| && Answers(events[j], id) && forall i :: k < i < j ==> !Answers(events[i], id)
  }

  predicate Unanswered(events: seq<Event>, k: int, id: nat) {
    0 <= k && forall j :: k < j < |events| ==> !Answers(events[j], id)
  }

  /** How the table stands towards a request sent by event `k`: settled at once if it could not be sent,
      else outstanding until the first answer to it, and settled by that one. */
  ghost predicate StandsSo(events: seq<Event>, k: int, id: nat)
    requires SentBy(events, k, id)
  {
    var t := Run(events);
    if !events[k].delivered then id !in t.pending && Resolution(id, SendFailed) in t.resolved
    else
      && (id in t.pending <==> Unanswered(events, k, id))
      && (forall j :: FirstAnswer(events, k, j, id) ==> Resolution(id, SettledBy(events[j])) in t.resolved)
  }

  lemma ResolvedStays(t: Table, e: Event, r: Resolution)
    requires r in t.resolved
    ensures r in Step(t, e).resolved
  {
    var i :| 0 <= i < |t.resolved| && t.resolved[i] == r;
    assert Step(t, e).resolved[i] == r;
  }

  /** A first answer among the events is one among the earlier ones, or the last event. */
  lemma FirstAnswerEarlier(events: seq<Event>, k: int, j: int, id: nat)
    requires FirstAnswer(events, k, j, id) && j < |events| - 1
    ensures FirstAnswer(events[..|events| - 1], k, j, id)
  {
  }

  lemma UnansweredSoFar(events: seq<Event>, k: int, id: nat)
    requires 0 <= k < |events| - 1
    ensures Unanswered(events, k, id) <==>
      Unanswered(events[..|events| - 1], k, id) && !Answers(events[|events| - 1], id)
  {
    var n := |events| - 1;
    if Unanswered(events[..n], k, id) && !Answers(events[n], id) {
      forall j | k < j < |events| ensures !Answers(events[j], id) {
        assert j < n ==> events[..n][j] == events[j];
      }
    }
  }

  lemma AnswerSettles(t: Table, e: Event, id: nat)
    requires Consistent(t) && id <= t.issued
    ensures id in Step(t, e).pending <==> id in t.pending && !Answers(e, id)
    ensures id in t.pending && Answers(e, id) ==> Resolution(id, SettledBy(e)) in Step(t, e).resolved
  {
    var u := Step(t, e);
    if id in t.pending && Answers(e, id) {
      assert u.resolved[|t.resolved|] == Resolution(id, SettledBy(e));
    }
  }

  lemma OneMoreEvent(events: seq<Event>, k: int, id: nat)
    requires events != [] && k < |events| - 1 && SentBy(events, k, id) && SentBy(events[..|events| - 1], k, id)
    requires Consistent(Run(events[..|events| - 1])) && id <= Run(events[..|events| - 1]).issued
    requires StandsSo(events[..|events| - 1], k, id)
    ensures StandsSo(events, k, id)
  {
    var n := |events| - 1;
    var t, e := Run(events[..n]), events[n];
    AnswerSettles(t, e, id);
    if events[k].delivered {
      UnansweredSoFar(events, k, id);
      forall j | FirstAnswer(events, k, j, id) ensures Resolution(id, SettledBy(events[j])) in Run(events).resolved {
        if j < n {
          FirstAnswerEarlier(events, k, j, id);
          ResolvedStays(t, e, Resolution(id, SettledBy(events[j])));
        } else {
          assert Unanswered(events[..n], k, id);
        }
      }
    } else {
      ResolvedStays(t, e, Resolution(id, SendFailed));
    }
  }

  lemma JustSent(events: seq<Event>, id: nat)
    requires events != [] && SentBy(events, |events| - 1, id)
    ensures StandsSo(events, |events| - 1, id)
  {
    var n := |events| - 1;
    var t, u := Run(events[..n]), Run(events);
    EachRequestSettlesOnce(events[..n]);
    if !events[n].delivered {
      assert u.resolved[|t.resolved|] == Resolution(id, SendFailed);
    }
  }

  lemma {:induction false} IssuedBy(events: seq<Event>, k: int, id: nat)
    requires SentBy(events, k, id)
    ensures id <= Run(events).issued
  {
    var n := |events| - 1;
    if k < n {
      assert events[..n][..k] == events[..k];
      IssuedBy(events[..n], k, id);
    }
  }

  /** Main result. Over every run: a request that could not be sent is settled so at once; one that was
      sent is outstanding exactly until the first reply to it or its timer, whichever comes first, and is
      settled by that one. */
  lemma {:induction false} SettledByTheFirst(events: seq<Event>, k: int, id: nat)
    requires SentBy(events, k, id)
    ensures StandsSo(events, k, id)
  {
    var n := |events| - 1;
    if k == n {
      JustSent(events, id);
    } else {
      assert events[..n][..k] == events[..k];
      SettledByTheFirst(events[..n], k, id);
      IssuedBy(events[..n], k, id);
      EachRequestSettlesOnce(events[..n]);
      OneMoreEvent(events, k, id);
    }
  }

  /** The module state of the handshake; `resolved` records the promises as they settle. */
  class ReplyTable {
    var requestSeq: nat
    var pendingReplies: set<nat>
    var timers: set<nat>
    ghost var resolved: seq<Resolution>

    ghost function State(): Table
      reads this
    {
      Table(requestSeq, pendingReplies, timers, resolved)
    }

    ghost predicate Valid()
      reads this
    {
      Consistent(State())
    }

    constructor ()
      ensures Valid() && State() == EMPTY
    {
      requestSeq, pendingReplies, timers, resolved := 0, {}, {}, [];
    }

    /** Registers the request before it is sent; a send that throws settles it at once. */
    method FlushTarget(delivered: bool) returns (id: nat)
      requires Valid()
      modifies this
      ensures Valid() && State() == Step(old(State()), Send(delivered)) && id == requestSeq
    {
      StepKeepsConsistent(State(), Send(delivered));
      requestSeq := requestSeq + 1;
      id := requestSeq;
      timers := timers + {id};
      pendingReplies := pendingReplies + {id};
      if !delivered {
        timers := timers - {id};
        pendingReplies := pendingReplies - {id};
        resolved := resolved + [Resolution(id, SendFailed)];
      }
    }

    /** A renderer answered; unknown and settled requests are ignored. */
    method HandleFlushReply(id: nat, results: seq<FlushResult>)
      requires Valid()
      modifies this
      ensures Valid() && State() == Step(old(State()), Reply(id, results))
    {
      StepKeepsConsistent(State(), Reply(id, results));
      if id !in pendingReplies { return; }
      pendingReplies := pendingReplies - {id};
      timers := timers - {id};
      resolved := resolved + [Resolution(id, Replied(results))];
    }

    method OnTimer(id: nat)
      requires Valid()
      modifies this
      ensures Valid() && State() == Step(old(State()), TimerFires(id))
    {
      StepKeepsConsistent(State(), TimerFires(id));
      if id !in timers { return; }
      timers := timers - {id};
      if id in pendingReplies {
        pendingReplies := pendingReplies - {id};
        resolved := resolved + [Resolution(id, TimedOut)];
      }
    }
  }
}
