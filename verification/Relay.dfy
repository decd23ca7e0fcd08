/** The two-agent deliberation: waiting for a turn to complete, waiting for the receiver, and the
    relay loop. What the API answers, the clock and the plan file are inputs: one record for every
    pass of a polling loop, one for every turn. A time stamp is its rank in the order of the ISO
    strings; every message has one. */
module Relay {
  import opened Prelude

  const MAX_TURNS: nat := 10
  const STATUS_CHECK_INTERVAL_MS: nat := 10000

  datatype Agent = Lead | Reviewer

  datatype Status = Idle | Waiting | Working | Crashed | Done | Other

  datatype Message = Message(ts: nat, turnComplete: bool, content: string)

  // ---- Reading the next message ----

  type Relayed = map<Agent, nat>

  /** The latest message if it ends a turn and is newer than the last one relayed. */
  function NextMessage(relayed: Relayed, agent: Agent, latest: Option<Message>): Option<Message> {
    if latest.None? || !latest.value.turnComplete then None
    else if agent in relayed && latest.value.ts <= relayed[agent] then None
    else latest
  }

  /** What is remembered at the start, so that an earlier message is not relayed again. */
  function Seeded(relayed: Relayed, agent: Agent, latest: Option<Message>): Relayed {
    if latest.Some? && latest.value.turnComplete then relayed[agent := latest.value.ts] else relayed
  }

  // ---- Waiting for a turn to complete ----

  /** One pass of the loop: the answer to the message request, or its failure; the time after it;
      the status if it is asked for; the time of the stall check; the status and the time of the
      final check. A status request may fail. */
  datatype Poll =
    | Broken
    | Poll(latest: Option<Message>, now: nat, status: Option<Status>,
           checkedAt: nat, finalStatus: Option<Status>, finalAt: nat)

  datatype Outcome = Got(message: Message) | Exited | TimedOut | Failed | StillWaiting

  /** A status that was looked at, and when. */
  datatype Sample = Sample(at: nat, status: Status)

  /** The loop's variables, and every status sampled so far. */
  datatype Watch = Watch(stallDeadline: nat, lastStatusCheck: nat, samples: seq<Sample>)

  predicate Gone(status: Status) { status == Crashed || status == Done }

  function Sampled(w: Watch, at: nat, status: Status, timeoutMs: nat): Watch {
    Watch(if status == Working then at + timeoutMs else w.stallDeadline, at, w.samples + [Sample(at, status)])
  }

  /** The regular status check, at most once in an interval. */
  function Check(w: Watch, p: Poll, timeoutMs: nat): (Watch, Outcome)
    requires p.Poll?
  {
    if p.now - w.lastStatusCheck < STATUS_CHECK_INTERVAL_MS then (w, StillWaiting)
    else if p.status.None? then (w, Failed)
    else (Sampled(w, p.now, p.status.value, timeoutMs), if Gone(p.status.value) then Exited else StillWaiting)
  }

  /** The stall check, with a last look at the status before giving up. */
  function StallCheck(w: Watch, p: Poll, timeoutMs: nat): (Watch, Outcome)
    requires p.Poll?
  {
    if p.checkedAt <= w.stallDeadline then (w, StillWaiting)
    else if p.finalStatus.None? then (w, Failed)
    else
      (Sampled(w, p.finalAt, p.finalStatus.value, timeoutMs),
       if Gone(p.finalStatus.value) then Exited
       else if p.finalStatus.value == Working then StillWaiting
       else TimedOut)
  }

  function Pass(w: Watch, p: Poll, next: Option<Message>, timeoutMs: nat): (Watch, Outcome) {
    if p.Broken? then (w, Failed)
    else if next.Some? then (w, Got(next.value))
    else
      var checked := Check(w, p, timeoutMs);
      if !checked.1.StillWaiting? then checked else StallCheck(checked.0, p, timeoutMs)
  }

  function NextOf(relayed: Relayed, agent: Agent, p: Poll): Option<Message> {
    if p.Broken? then None else NextMessage(relayed, agent, p.latest)
  }

  function WaitTurn(w: Watch, polls: seq<Poll>, relayed: Relayed, agent: Agent, timeoutMs: nat): (Watch, Outcome)
    decreases |polls|
  {
    if polls == [] then (w, StillWaiting)
    else
      var after := Pass(w, polls[0], NextOf(relayed, agent, polls[0]), timeoutMs);
      if after.1.StillWaiting? then WaitTurn(after.0, polls[1..], relayed, agent, timeoutMs) else after
  }

  function Begin(start: nat, timeoutMs: nat): Watch { Watch(start + timeoutMs, 0, []) }

  /** The last time the agent was seen working, or the start of the wait. */
  function LastSeenWorking(start: nat, samples: seq<Sample>): nat {
    if samples == [] then start
    else if samples[|samples| - 1].status == Working then samples[|samples| - 1].at
    else LastSeenWorking(start, samples[..|samples| - 1])
  }

  predicate OnClock(w: Watch, start: nat, timeoutMs: nat) {
    w.stallDeadline == LastSeenWorking(start, w.samples) + timeoutMs
  }

  lemma SampledOnClock(w: Watch, start: nat, at: nat, status: Status, timeoutMs: nat)
    requires OnClock(w, start, timeoutMs)
    ensures OnClock(Sampled(w, at, status, timeoutMs), start, timeoutMs)
  {
    var all := w.samples + [Sample(at, status)];
    assert all[..|all| - 1] == w.samples;
  }

  lemma PassOnClock(w: Watch, start: nat, p: Poll, next: Option<Message>, timeoutMs: nat)
    requires OnClock(w, start, timeoutMs)
    ensures OnClock(Pass(w, p, next, timeoutMs).0, start, timeoutMs)
  {
    if p.Poll? && next.None? {
      var checked := Check(w, p, timeoutMs);
      if p.status.Some? {
        SampledOnClock(w, start, p.now, p.status.value, timeoutMs);
      }
      if p.finalStatus.Some? {
        SampledOnClock(checked.0, start, p.finalAt, p.finalStatus.value, timeoutMs);
      }
    }
  }

  /** Giving up at this pass: no message, the deadline passed, and a last sample that is neither
      working nor gone. */
  predicate GivesUp(start: nat, samples: seq<Sample>, timeoutMs: nat, p: Poll) {
    && samples != [] && p.Poll?
    && p.checkedAt > LastSeenWorking(start, samples) + timeoutMs
    && samples[|samples| - 1].status != Working && !Gone(samples[|samples| - 1].status)
  }

  lemma PassGivesUp(w: Watch, start: nat, p: Poll, next: Option<Message>, timeoutMs: nat)
    requires OnClock(w, start, timeoutMs) && Pass(w, p, next, timeoutMs).1 == TimedOut
    ensures GivesUp(start, Pass(w, p, next, timeoutMs).0.samples, timeoutMs, p) && next.None?
  {
    if p.status.Some? {
      SampledOnClock(w, start, p.now, p.status.value, timeoutMs);
    }
    StallGivesUp(Check(w, p, timeoutMs).0, start, p, timeoutMs);
  }

  lemma StallGivesUp(w: Watch, start: nat, p: Poll, timeoutMs: nat)
    requires p.Poll? && OnClock(w, start, timeoutMs) && StallCheck(w, p, timeoutMs).1 == TimedOut
    ensures GivesUp(start, StallCheck(w, p, timeoutMs).0.samples, timeoutMs, p)
  {
    var all := w.samples + [Sample(p.finalAt, p.finalStatus.value)];
    assert all[..|all| - 1] == w.samples;
  }

  /** Main result. A turn is timed out only if, counted from the last status sample that showed the
      agent working, or from the start if there is none, more than the timeout has passed; the final
      sample shows it neither working nor gone; and no poll so far had a new complete message. */
  lemma {:induction false} TimeoutMeansIdle(w: Watch, start: nat, polls: seq<Poll>, relayed: Relayed, agent: Agent,
      timeoutMs: nat) returns (k: nat)
    requires OnClock(w, start, timeoutMs)
    requires WaitTurn(w, polls, relayed, agent, timeoutMs).1 == TimedOut
    ensures k < |polls| && forall i :: 0 <= i <= k ==> NextOf(relayed, agent, polls[i]).None?
    ensures GivesUp(start, WaitTurn(w, polls, relayed, agent, timeoutMs).0.samples, timeoutMs, polls[k])
    decreases |polls|
  {
    var next := NextOf(relayed, agent, polls[0]);
    var after := Pass(w, polls[0], next, timeoutMs);
    PassOnClock(w, start, polls[0], next, timeoutMs);
    if after.1.StillWaiting? {
      var j := TimeoutMeansIdle(after.0, start, polls[1..], relayed, agent, timeoutMs);
      k := j + 1;
      forall i | 0 <= i <= k
        ensures NextOf(relayed, agent, polls[i]).None?
      {
        if i > 0 {
          assert polls[i] == polls[1..][i - 1];
        }
      }
    } else {
      k := 0;
      PassGivesUp(w, start, polls[0], next, timeoutMs);
    }
  }

  /** A turn that completes gives the first new complete message any poll saw. */
  lemma {:induction false} CompletionIsFresh(w: Watch, polls: seq<Poll>, relayed: Relayed, agent: Agent, timeoutMs: nat)
      returns (k: nat)
    requires WaitTurn(w, polls, relayed, agent, timeoutMs).1.Got?
    ensures
      var m := WaitTurn(w, polls, relayed, agent, timeoutMs).1.message;
      && k < |polls| && polls[k].Poll? && polls[k].latest == Some(m)
      && m.turnComplete && (agent in relayed ==> relayed[agent] < m.ts)
      && forall i :: 0 <= i < k ==> NextOf(relayed, agent, polls[i]).None?
    decreases |polls|
  {
    var after := Pass(w, polls[0], NextOf(relayed, agent, polls[0]), timeoutMs);
    if after.1.StillWaiting? {
      var j := CompletionIsFresh(after.0, polls[1..], relayed, agent, timeoutMs);
      k := j + 1;
      forall i | 0 <= i < k
        ensures NextOf(relayed, agent, polls[i]).None?
      {
        if i > 0 {
          assert polls[i] == polls[1..][i - 1];
        }
      }
    } else {
      k := 0;
    }
  }

  // ---- Every pass of the wait ----

  /** When the status was last looked at; long ago if it never was. */
  function LastLook(samples: seq<Sample>): nat {
    if samples == [] then 0 else samples[|samples| - 1].at
  }

  /** The regular look at the status: made at most every ten seconds. It may fail, or show the agent gone. */
  ghost predicate Looks(before: seq<Sample>, p: Poll, after: seq<Sample>, o: Outcome)
    requires p.Poll?
  {
    if p.now - LastLook(before) < 10_000 then after == before && o == StillWaiting
    else if p.status.None? then after == before && o == Failed
    else
      && after == before + [Sample(p.now, p.status.value)]
      && o == if p.status.value in {Crashed, Done} then Exited else StillWaiting
  }

  /** The last look, made once the agent was not seen working for longer than the timeout. Only an agent
      that works or is gone is not given up. */
  ghost predicate LooksAgain(start: nat, before: seq<Sample>, p: Poll, timeoutMs: nat, after: seq<Sample>, o: Outcome)
    requires p.Poll?
  {
    if p.checkedAt <= LastSeenWorking(start, before) + timeoutMs then after == before && o == StillWaiting
    else if p.finalStatus.None? then after == before && o == Failed
    else
      && after == before + [Sample(p.finalAt, p.finalStatus.value)]
      && o == if p.finalStatus.value in {Crashed, Done} then Exited
              else if p.finalStatus.value == Working then StillWaiting
              else TimedOut
  }

  /** What one pass makes of what was seen before it. */
  ghost predicate PassMeans(start: nat, before: seq<Sample>, p: Poll, next: Option<Message>, timeoutMs: nat,
                            after: seq<Sample>, o: Outcome) {
    if p.Broken? then after == before && o == Failed
    else if next.Some? then after == before && o == Got(next.value)
    else
      exists looked, first ::
        && Looks(before, p, looked, first)
        && if first != StillWaiting then after == looked && o == first
           else LooksAgain(start, looked, p, timeoutMs, after, o)
  }

  /** The two clocks are where the samples say. */
  predicate OnBothClocks(w: Watch, start: nat, timeoutMs: nat) {
    OnClock(w, start, timeoutMs) && w.lastStatusCheck == LastLook(w.samples)
  }

  lemma CheckLooks(w: Watch, start: nat, p: Poll, timeoutMs: nat)
    requires p.Poll? && OnBothClocks(w, start, timeoutMs)
    ensures
      var checked := Check(w, p, timeoutMs);
      OnBothClocks(checked.0, start, timeoutMs) && Looks(w.samples, p, checked.0.samples, checked.1)
  {
    if p.status.Some? {
      SampledOnClock(w, start, p.now, p.status.value, timeoutMs);
    }
  }

  lemma StallLooksAgain(w: Watch, start: nat, p: Poll, timeoutMs: nat)
    requires p.Poll? && OnBothClocks(w, start, timeoutMs)
    ensures
      var checked := StallCheck(w, p, timeoutMs);
      && OnBothClocks(checked.0, start, timeoutMs)
      && LooksAgain(start, w.samples, p, timeoutMs, checked.0.samples, checked.1)
  {
    if p.finalStatus.Some? {
      SampledOnClock(w, start, p.finalAt, p.finalStatus.value, timeoutMs);
    }
  }

  lemma PassExactly(w: Watch, start: nat, p: Poll, next: Option<Message>, timeoutMs: nat)
    requires OnBothClocks(w, start, timeoutMs)
    ensures
      var passed := Pass(w, p, next, timeoutMs);
      && OnBothClocks(passed.0, start, timeoutMs)
      && PassMeans(start, w.samples, p, next, timeoutMs, passed.0.samples, passed.1)
  {
    if p.Poll? && next.None? {
      var checked := Check(w, p, timeoutMs);
      CheckLooks(w, start, p, timeoutMs);
      StallLooksAgain(checked.0, start, p, timeoutMs);
    }
  }

  /** The wait seen from its end: the last pass is made if all before it go on. */
  lemma {:induction false} WaitEnds(w: Watch, polls: seq<Poll>, relayed: Relayed, agent: Agent, timeoutMs: nat)
    requires polls != []
    ensures
      var n := |polls| - 1;
      var before := WaitTurn(w, polls[..n], relayed, agent, timeoutMs);
      WaitTurn(w, polls, relayed, agent, timeoutMs)
        == if before.1.StillWaiting? then Pass(before.0, polls[n], NextOf(relayed, agent, polls[n]), timeoutMs) else before
    decreases |polls|
  {
    var n := |polls| - 1;
    if n == 0 {
      assert polls[..n] == [] && polls[1..] == [];
    } else {
      var after := Pass(w, polls[0], NextOf(relayed, agent, polls[0]), timeoutMs);
      assert polls[..n][1..] == polls[1..][..n - 1];
      if after.1.StillWaiting? {
        WaitEnds(after.0, polls[1..], relayed, agent, timeoutMs);
      }
    }
  }

  lemma {:induction false} WaitOnBothClocks(w: Watch, start: nat, polls: seq<Poll>, relayed: Relayed, agent: Agent,
      timeoutMs: nat)
    requires OnBothClocks(w, start, timeoutMs)
    ensures OnBothClocks(WaitTurn(w, polls, relayed, agent, timeoutMs).0, start, timeoutMs)
    decreases |polls|
  {
    if polls != [] {
      var after := Pass(w, polls[0], NextOf(relayed, agent, polls[0]), timeoutMs);
      PassExactly(w, start, polls[0], NextOf(relayed, agent, polls[0]), timeoutMs);
      if after.1.StillWaiting? {
        WaitOnBothClocks(after.0, start, polls[1..], relayed, agent, timeoutMs);
      }
    }
  }

  /** Main result. At every pass of every wait: a message that is next is returned; otherwise the status
      is looked at exactly when ten seconds have passed since the last look, and once more exactly when
      the agent was not seen working for longer than the timeout; the wait goes on unless a request
      fails or the last look shows the agent gone or idle. */
  lemma EveryPass(start: nat, polls: seq<Poll>, relayed: Relayed, agent: Agent, timeoutMs: nat)
    requires polls != []
    ensures
      var n := |polls| - 1;
      var before := WaitTurn(Begin(start, timeoutMs), polls[..n], relayed, agent, timeoutMs);
      var after := WaitTurn(Begin(start, timeoutMs), polls, relayed, agent, timeoutMs);
      if before.1 != StillWaiting then after == before
      else PassMeans(start, before.0.samples, polls[n], NextOf(relayed, agent, polls[n]), timeoutMs, after.0.samples, after.1)
  {
    var n := |polls| - 1;
    var w := Begin(start, timeoutMs);
    WaitEnds(w, polls, relayed, agent, timeoutMs);
    WaitOnBothClocks(w, start, polls[..n], relayed, agent, timeoutMs);
    PassExactly(WaitTurn(w, polls[..n], relayed, agent, timeoutMs).0, start, polls[n],
                NextOf(relayed, agent, polls[n]), timeoutMs);
  }

  /** A message is next exactly if a poll answers with it, it ends a turn, and it is newer than the last
      one relayed. */
  lemma NextExactly(relayed: Relayed, agent: Agent, p: Poll, m: Message)
    ensures NextOf(relayed, agent, p) == Some(m) <==>
      p.Poll? && p.latest == Some(m) && m.turnComplete && (agent in relayed ==> relayed[agent] < m.ts)
  {
  }

  /** After seeding, a message is next exactly if it ends a turn and is newer than the turn that was
      complete at the start, if any. */
  lemma SeedExactly(relayed: Relayed, agent: Agent, latest: Option<Message>, m: Message)
    requires agent !in relayed
    ensures NextMessage(Seeded(relayed, agent, latest), agent, Some(m)) == Some(m) <==>
      m.turnComplete && (latest.Some? && latest.value.turnComplete ==> latest.value.ts < m.ts)
    ensures forall other :: other != agent ==>
      NextMessage(Seeded(relayed, agent, latest), other, Some(m)) == NextMessage(relayed, other, Some(m))
  {
  }

  // ---- Waiting for the receiver ----

  datatype ReadyPoll = ReadyPoll(now: nat, status: Option<Status>)

  datatype Readiness = Ready | Left | NotReady | Lost | Undecided

  predicate IsReady(status: Status) { status == Idle || status == Waiting }

  function WaitReady(deadline: nat, polls: seq<ReadyPoll>): Readiness {
    if polls == [] then Undecided
    else if polls[0].now >= deadline then NotReady
    else if polls[0].status.None? then Lost
    else if Gone(polls[0].status.value) then Left
    else if IsReady(polls[0].status.value) then Ready
    else WaitReady(deadline, polls[1..])
  }

  predicate Busy(deadline: nat, p: ReadyPoll) {
    p.now < deadline && p.status.Some? && !Gone(p.status.value) && !IsReady(p.status.value)
  }

  /** The receiver is declared not ready only at a time past the deadline, after every sample before
      it was busy; and ready only on a sample that says so, in time. */
  lemma {:induction false} ReadinessIsSampled(deadline: nat, polls: seq<ReadyPoll>) returns (k: nat)
    requires WaitReady(deadline, polls) == NotReady || WaitReady(deadline, polls) == Ready
    ensures k < |polls| && forall i :: 0 <= i < k ==> Busy(deadline, polls[i])
    ensures WaitReady(deadline, polls) == NotReady ==> polls[k].now >= deadline
    ensures WaitReady(deadline, polls) == Ready ==>
      polls[k].now < deadline && polls[k].status.Some? && IsReady(polls[k].status.value)
  {
    if Busy(deadline, polls[0]) {
      var j := ReadinessIsSampled(deadline, polls[1..]);
      k := j + 1;
      forall i | 0 <= i < k
        ensures Busy(deadline, polls[i])
      {
        if i > 0 {
          assert polls[i] == polls[1..][i - 1];
        }
      }
    } else {
      k := 0;
    }
  }

  /** The first pass that does not find the receiver busy in time decides. */
  ghost predicate DecidedAt(deadline: nat, polls: seq<ReadyPoll>, k: int, r: Readiness) {
    && 0 <= k < |polls| && (forall i :: 0 <= i < k ==> StaysBusy(deadline, polls[i]))
    && r == if polls[k].now >= deadline then NotReady
            else if polls[k].status.None? then Lost
            else if polls[k].status.value in {Crashed, Done} then Left
            else Ready
  }

  /** Looked at in time, and neither gone nor ready. */
  predicate StaysBusy(deadline: nat, p: ReadyPoll) {
    p.now < deadline && p.status.Some? && p.status.value in {Working, Other}
  }

  /** The wait for the receiver is undecided exactly while it is busy at every pass; the first other
      pass decides it. */
  lemma {:induction false} ReadinessExactly(deadline: nat, polls: seq<ReadyPoll>)
    ensures WaitReady(deadline, polls) == Undecided <==> forall i :: 0 <= i < |polls| ==> StaysBusy(deadline, polls[i])
    ensures WaitReady(deadline, polls) != Undecided ==>
      exists k :: DecidedAt(deadline, polls, k, WaitReady(deadline, polls)) && !StaysBusy(deadline, polls[k])
  {
    if polls != [] {
      if StaysBusy(deadline, polls[0]) {
        ReadinessExactly(deadline, polls[1..]);
        assert WaitReady(deadline, polls) == WaitReady(deadline, polls[1..]);
        if WaitReady(deadline, polls) == Undecided {
          forall i | 0 <= i < |polls| ensures StaysBusy(deadline, polls[i]) {
            assert i > 0 ==> polls[i] == polls[1..][i - 1];
          }
        } else {
          var k :| DecidedAt(deadline, polls[1..], k, WaitReady(deadline, polls)) && !StaysBusy(deadline, polls[1..][k]);
          DecidedLater(deadline, polls, k, WaitReady(deadline, polls));
        }
      } else {
        FirstDecides(deadline, polls);
      }
    }
  }

  lemma FirstDecides(deadline: nat, polls: seq<ReadyPoll>)
    requires polls != [] && !StaysBusy(deadline, polls[0])
    ensures DecidedAt(deadline, polls, 0, WaitReady(deadline, polls)) && WaitReady(deadline, polls) != Undecided
  {
    if polls[0].status.Some? {
      match polls[0].status.value {
        case Idle =>
        case Waiting =>
        case Working =>
        case Crashed =>
        case Done =>
        case Other =>
      }
    }
  }

  lemma DecidedLater(deadline: nat, polls: seq<ReadyPoll>, k: int, r: Readiness)
    requires polls != [] && StaysBusy(deadline, polls[0]) && DecidedAt(deadline, polls[1..], k, r)
    ensures DecidedAt(deadline, polls, k + 1, r) && polls[k + 1] == polls[1..][k]
  {
    forall i | 0 <= i < k + 1 ensures StaysBusy(deadline, polls[i]) {
      assert i > 0 ==> polls[i] == polls[1..][i - 1];
    }
  }

  // ---- The relay loop ----

  /** What happens in half a turn: the wait for the speaker, the wait for the receiver, whether the
      message is accepted, and whether the plan file exists when it is looked for. */
  datatype Half = Half(start: nat, polls: seq<Poll>, readyStart: nat, ready: seq<ReadyPoll>, accepted: bool, plan: bool)

  datatype Turn = Turn(lead: Half, reviewer: Half)

  datatype Relay = Relay(from: Agent, message: Message)

  datatype Session = Session(turn: nat, relayed: Relayed, relays: seq<Relay>)

  datatype Reason = TurnCap | ReceiverNotReady | Timeout

  datatype End = GoOn | PlanSeen | Completed | Stalled(reason: Reason) | Error | Cut

  function AfterWait(o: Outcome): End {
    match o
    case Got(_) => GoOn
    case TimedOut => Stalled(Timeout)
    case StillWaiting => Cut
    case _ => Error
  }

  function AfterReady(r: Readiness): End {
    match r
    case Ready => GoOn
    case NotReady => Stalled(ReceiverNotReady)
    case Undecided => Cut
    case _ => Error
  }

  function Heard(s: Session, agent: Agent, h: Half, timeoutMs: nat): Outcome {
    WaitTurn(Begin(h.start, timeoutMs), h.polls, s.relayed, agent, timeoutMs).1
  }

  /** Hands a message on once the receiver is ready for it. */
  function HandOn(s: Session, agent: Agent, message: Message, h: Half, timeoutMs: nat): (Session, End) {
    var ready := AfterReady(WaitReady(h.readyStart + timeoutMs, h.ready));
    if ready != GoOn then (s, ready)
    else if !h.accepted then (s, Error)
    else (s.(relays := s.relays + [Relay(agent, message)]), GoOn)
  }

  /** The lead speaks; the plan file is looked for before its message is handed on. */
  function LeadHalf(s: Session, h: Half, timeoutMs: nat): (Session, End) {
    var heard := Heard(s, Lead, h, timeoutMs);
    if !heard.Got? then (s, AfterWait(heard))
    else
      var noted := s.(relayed := s.relayed[Lead := heard.message.ts]);
      if h.plan then (noted, PlanSeen) else HandOn(noted, Lead, heard.message, h, timeoutMs)
  }

  /** The reviewer speaks; the plan file is looked for after its message is handed on. */
  function ReviewerHalf(s: Session, h: Half, timeoutMs: nat): (Session, End) {
    var heard := Heard(s, Reviewer, h, timeoutMs);
    if !heard.Got? then (s, AfterWait(heard))
    else
      var noted := s.(relayed := s.relayed[Reviewer := heard.message.ts]);
      var handed := HandOn(noted, Reviewer, heard.message, h, timeoutMs);
      if handed.1 == GoOn && h.plan then (handed.0, PlanSeen) else handed
  }

  function TakeTurn(s: Session, t: Turn, timeoutMs: nat): (Session, End) {
    var half := LeadHalf(s.(turn := s.turn + 1), t.lead, timeoutMs);
    if half.1 != GoOn then half else ReviewerHalf(half.0, t.reviewer, timeoutMs)
  }

  /** Behind the loop: out of turns without the plan file is a stall, anything else is a success. */
  function Close(s: Session, planAtEnd: bool): End {
    if s.turn >= MAX_TURNS && !planAtEnd then Stalled(TurnCap) else Completed
  }

  function Deliberate(s: Session, turns: seq<Turn>, planAtEnd: bool, timeoutMs: nat): (Session, End)
    decreases |turns|
  {
    if s.turn >= MAX_TURNS then (s, Close(s, planAtEnd))
    else if turns == [] then (s, Cut)
    else
      var taken := TakeTurn(s, turns[0], timeoutMs);
      if taken.1 == GoOn then Deliberate(taken.0, turns[1..], planAtEnd, timeoutMs)
      else if taken.1 == PlanSeen then (taken.0, Close(taken.0, planAtEnd))
      else taken
  }

  // ---- What every run keeps ----

  function Speaker(k: nat): Agent { if k % 2 == 0 then Lead else Reviewer }

  /** Directions alternate, beginning with the lead. */
  predicate Alternates(relays: seq<Relay>) {
    forall k :: 0 <= k < |relays| ==> relays[k].from == Speaker(k)
  }

  /** Messages of one agent are strictly newer and newer. */
  predicate Newer(relays: seq<Relay>) {
    forall i, j :: 0 <= i < j < |relays| && relays[i].from == relays[j].from ==>
      relays[i].message.ts < relays[j].message.ts
  }

  /** Everything relayed is complete, newer than what its agent was seeded with, and noted. */
  predicate Noted(seeds: Relayed, relayed: Relayed, relays: seq<Relay>) {
    && (forall a :: a in seeds ==> a in relayed && seeds[a] <= relayed[a])
    && (forall k :: 0 <= k < |relays| ==>
        && relays[k].message.turnComplete
        && relays[k].from in relayed && relays[k].message.ts <= relayed[relays[k].from]
        && (relays[k].from in seeds ==> seeds[relays[k].from] < relays[k].message.ts))
  }

  predicate Sound(seeds: Relayed, s: Session) {
    Alternates(s.relays) && Newer(s.relays) && Noted(seeds, s.relayed, s.relays)
  }

  /** A fresh message of the agent whose turn it is can be noted and handed on. */
  lemma HandOnKeeps(seeds: Relayed, s: Session, agent: Agent, m: Message, h: Half, timeoutMs: nat)
    requires Sound(seeds, s) && agent == Speaker(|s.relays|)
    requires m.turnComplete && (agent in s.relayed ==> s.relayed[agent] < m.ts)
    ensures
      var noted := s.(relayed := s.relayed[agent := m.ts]);
      && Sound(seeds, noted)
      && Sound(seeds, HandOn(noted, agent, m, h, timeoutMs).0)
      && HandOn(noted, agent, m, h, timeoutMs).0.turn == s.turn
      && |HandOn(noted, agent, m, h, timeoutMs).0.relays|
         == |s.relays| + if HandOn(noted, agent, m, h, timeoutMs).1 == GoOn then 1 else 0
  {
  }

  lemma LeadHalfKeeps(seeds: Relayed, s: Session, h: Half, timeoutMs: nat)
    requires Sound(seeds, s) && |s.relays| % 2 == 0
    ensures
      var half := LeadHalf(s, h, timeoutMs);
      && Sound(seeds, half.0) && half.0.turn == s.turn
      && |half.0.relays| == |s.relays| + (if half.1 == GoOn then 1 else 0)
      && (half.1 == PlanSeen ==> h.plan) && half.1 != Completed && half.1 != Stalled(TurnCap)
  {
    var heard := Heard(s, Lead, h, timeoutMs);
    if heard.Got? {
      var k := CompletionIsFresh(Begin(h.start, timeoutMs), h.polls, s.relayed, Lead, timeoutMs);
      HandOnKeeps(seeds, s, Lead, heard.message, h, timeoutMs);
    }
  }

  lemma ReviewerHalfKeeps(seeds: Relayed, s: Session, h: Half, timeoutMs: nat)
    requires Sound(seeds, s) && |s.relays| % 2 == 1
    ensures
      var half := ReviewerHalf(s, h, timeoutMs);
      && Sound(seeds, half.0) && half.0.turn == s.turn
      && |half.0.relays| == |s.relays| + (if half.1 == GoOn || half.1 == PlanSeen then 1 else 0)
      && (half.1 == PlanSeen ==> h.plan) && half.1 != Completed && half.1 != Stalled(TurnCap)
  {
    var heard := Heard(s, Reviewer, h, timeoutMs);
    if heard.Got? {
      var k := CompletionIsFresh(Begin(h.start, timeoutMs), h.polls, s.relayed, Reviewer, timeoutMs);
      HandOnKeeps(seeds, s, Reviewer, heard.message, h, timeoutMs);
    }
  }

  /** Between turns every turn taken has been relayed both ways. */
  predicate BetweenTurns(seeds: Relayed, s: Session) {
    Sound(seeds, s) && |s.relays| == 2 * s.turn && s.turn <= MAX_TURNS
  }

  /** How a run has ended: the relays are sound, no more than the turns taken allow, and success and the
      turn cap have their cause. `saw` tells whether the look at the plan file in the last turn found it. */
  predicate Ended(seeds: Relayed, s: Session, end: End, saw: bool, planAtEnd: bool) {
    && Sound(seeds, s) && s.turn <= MAX_TURNS && |s.relays| <= 2 * s.turn
    && (end == Completed ==> saw || (s.turn == MAX_TURNS && planAtEnd))
    && (end == Stalled(TurnCap) ==> s.turn == MAX_TURNS && !planAtEnd && (saw || |s.relays| == 2 * MAX_TURNS))
    && (end == Cut || end == Completed || end.Stalled? || end == Error)
  }

  lemma TurnKeeps(seeds: Relayed, s: Session, t: Turn, timeoutMs: nat)
    requires BetweenTurns(seeds, s) && s.turn < MAX_TURNS
    ensures
      var taken := TakeTurn(s, t, timeoutMs);
      && Sound(seeds, taken.0) && taken.0.turn == s.turn + 1 && |taken.0.relays| <= 2 * taken.0.turn
      && (taken.1 == GoOn ==> BetweenTurns(seeds, taken.0))
      && (taken.1 == PlanSeen ==> t.lead.plan || t.reviewer.plan)
      && taken.1 != Completed && taken.1 != Stalled(TurnCap)
  {
    var begun := s.(turn := s.turn + 1);
    LeadHalfKeeps(seeds, begun, t.lead, timeoutMs);
    var half := LeadHalf(begun, t.lead, timeoutMs);
    if half.1 == GoOn {
      SecondHalfKeeps(seeds, begun, half.0, t, timeoutMs);
    } else {
      assert TakeTurn(s, t, timeoutMs) == half;
    }
  }

  lemma SecondHalfKeeps(seeds: Relayed, begun: Session, s: Session, t: Turn, timeoutMs: nat)
    requires Sound(seeds, s) && 0 < s.turn <= MAX_TURNS && |s.relays| == 2 * s.turn - 1
    requires LeadHalf(begun, t.lead, timeoutMs) == (s, GoOn) && s.turn == begun.turn
    ensures
      var taken := TakeTurn(begun.(turn := begun.turn - 1), t, timeoutMs);
      && Sound(seeds, taken.0) && taken.0.turn == s.turn && |taken.0.relays| <= 2 * s.turn
      && (taken.1 == GoOn ==> BetweenTurns(seeds, taken.0))
      && (taken.1 == PlanSeen ==> t.reviewer.plan)
      && taken.1 != Completed && taken.1 != Stalled(TurnCap)
  {
    ReviewerHalfKeeps(seeds, s, t.reviewer, timeoutMs);
    assert begun.(turn := begun.turn - 1).(turn := begun.turn) == begun;
    assert TakeTurn(begun.(turn := begun.turn - 1), t, timeoutMs) == ReviewerHalf(s, t.reviewer, timeoutMs);
  }

  /** The plan file was found in the last of the `n` turns taken. */
  predicate SawPlan(turns: seq<Turn>, n: int) {
    0 < n <= |turns| && (turns[n - 1].lead.plan || turns[n - 1].reviewer.plan)
  }

  // ---- Why a run stalls or fails ----

  /** The speaker of this half was idle for too long: GivesUp, at a poll before which none had a message. */
  ghost predicate IdleTooLong(s: Session, agent: Agent, h: Half, timeoutMs: nat) {
    exists k :: 0 <= k < |h.polls|
      && GivesUp(h.start, WaitTurn(Begin(h.start, timeoutMs), h.polls, s.relayed, agent, timeoutMs).0.samples,
                 timeoutMs, h.polls[k])
      && forall i :: 0 <= i <= k ==> NextOf(s.relayed, agent, h.polls[i]).None?
  }

  /** The receiver of this half was busy at every sample up to the deadline. */
  ghost predicate BusyTooLong(h: Half, timeoutMs: nat) {
    exists k :: 0 <= k < |h.ready| && h.ready[k].now >= h.readyStart + timeoutMs
      && forall i :: 0 <= i < k ==> Busy(h.readyStart + timeoutMs, h.ready[i])
  }

  /** An agent is gone, a request failed, or the message was not accepted. */
  predicate Broke(s: Session, agent: Agent, h: Half, timeoutMs: nat) {
    || Heard(s, agent, h, timeoutMs) in {Exited, Failed}
    || WaitReady(h.readyStart + timeoutMs, h.ready) in {Left, Lost}
    || !h.accepted
  }

  ghost predicate Because(s: Session, agent: Agent, h: Half, end: End, timeoutMs: nat) {
    match end
    case Stalled(Timeout) => IdleTooLong(s, agent, h, timeoutMs)
    case Stalled(ReceiverNotReady) => BusyTooLong(h, timeoutMs)
    case Error => Broke(s, agent, h, timeoutMs)
    case Cut => Heard(s, agent, h, timeoutMs) == StillWaiting || WaitReady(h.readyStart + timeoutMs, h.ready) == Undecided
    case _ => true
  }

  lemma WaitBecause(s: Session, agent: Agent, h: Half, timeoutMs: nat)
    requires !Heard(s, agent, h, timeoutMs).Got?
    ensures Because(s, agent, h, AfterWait(Heard(s, agent, h, timeoutMs)), timeoutMs)
  {
    if Heard(s, agent, h, timeoutMs) == TimedOut {
      var k := TimeoutMeansIdle(Begin(h.start, timeoutMs), h.start, h.polls, s.relayed, agent, timeoutMs);
    }
  }

  lemma HandOnBecause(s: Session, agent: Agent, m: Message, h: Half, timeoutMs: nat)
    ensures Because(HandOn(s, agent, m, h, timeoutMs).0, agent, h, HandOn(s, agent, m, h, timeoutMs).1, timeoutMs)
  {
    if WaitReady(h.readyStart + timeoutMs, h.ready) == NotReady {
      var k := ReadinessIsSampled(h.readyStart + timeoutMs, h.ready);
    }
  }

  lemma LeadBecause(s: Session, h: Half, timeoutMs: nat)
    ensures Because(LeadHalf(s, h, timeoutMs).0, Lead, h, LeadHalf(s, h, timeoutMs).1, timeoutMs)
  {
    var heard := Heard(s, Lead, h, timeoutMs);
    if heard.Got? {
      HandOnBecause(s.(relayed := s.relayed[Lead := heard.message.ts]), Lead, heard.message, h, timeoutMs);
    } else {
      WaitBecause(s, Lead, h, timeoutMs);
    }
  }

  lemma ReviewerBecause(s: Session, h: Half, timeoutMs: nat)
    ensures Because(ReviewerHalf(s, h, timeoutMs).0, Reviewer, h, ReviewerHalf(s, h, timeoutMs).1, timeoutMs)
  {
    var heard := Heard(s, Reviewer, h, timeoutMs);
    if heard.Got? {
      HandOnBecause(s.(relayed := s.relayed[Reviewer := heard.message.ts]), Reviewer, heard.message, h, timeoutMs);
    } else {
      WaitBecause(s, Reviewer, h, timeoutMs);
    }
  }

  /** A half of this turn is the reason. */
  ghost predicate TurnBecause(s: Session, t: Turn, end: End, timeoutMs: nat) {
    Because(s, Lead, t.lead, end, timeoutMs) || Because(s, Reviewer, t.reviewer, end, timeoutMs)
  }

  lemma TakenBecause(s: Session, t: Turn, timeoutMs: nat)
    ensures TurnBecause(TakeTurn(s, t, timeoutMs).0, t, TakeTurn(s, t, timeoutMs).1, timeoutMs)
  {
    var begun := s.(turn := s.turn + 1);
    var half := LeadHalf(begun, t.lead, timeoutMs);
    LeadBecause(begun, t.lead, timeoutMs);
    if half.1 == GoOn {
      ReviewerBecause(half.0, t.reviewer, timeoutMs);
    }
  }

  predicate Breaks(end: End) {
    end == Error || (end.Stalled? && end.reason != TurnCap)
  }

  /** The last of the `n` turns taken is the reason. */
  ghost predicate LastTurnBecause(s: Session, turns: seq<Turn>, n: int, end: End, timeoutMs: nat) {
    0 < n <= |turns| && TurnBecause(s, turns[n - 1], end, timeoutMs)
  }

  lemma LaterTurnBecause(s: Session, turns: seq<Turn>, n: int, m: int, end: End, timeoutMs: nat)
    requires turns != [] && m == n + 1 && LastTurnBecause(s, turns[1..], n, end, timeoutMs)
    ensures LastTurnBecause(s, turns, m, end, timeoutMs)
  {
  }

  ghost predicate BrokenBecause(s: Session, turns: seq<Turn>, run: (Session, End), timeoutMs: nat) {
    Breaks(run.1) ==> LastTurnBecause(run.0, turns, run.0.turn - s.turn, run.1, timeoutMs)
  }

  lemma BreaksNow(s: Session, turns: seq<Turn>, planAtEnd: bool, timeoutMs: nat)
    requires s.turn < MAX_TURNS && turns != [] ==> TakeTurn(s, turns[0], timeoutMs).1 != GoOn
    ensures BrokenBecause(s, turns, Deliberate(s, turns, planAtEnd, timeoutMs), timeoutMs)
  {
    if s.turn < MAX_TURNS && turns != [] {
      TakenBecause(s, turns[0], timeoutMs);
      TurnCounts(s, turns[0], timeoutMs);
      DeliberateStops(s, turns, planAtEnd, timeoutMs);
    }
  }

  lemma TurnCounts(s: Session, t: Turn, timeoutMs: nat)
    ensures TakeTurn(s, t, timeoutMs).0.turn == s.turn + 1
  {
  }

  lemma DeliberateStops(s: Session, turns: seq<Turn>, planAtEnd: bool, timeoutMs: nat)
    requires s.turn < MAX_TURNS && turns != [] && TakeTurn(s, turns[0], timeoutMs).1 != GoOn
    ensures
      var taken := TakeTurn(s, turns[0], timeoutMs);
      Deliberate(s, turns, planAtEnd, timeoutMs)
        == (taken.0, if taken.1 == PlanSeen then Close(taken.0, planAtEnd) else taken.1)
  {
  }

  lemma BreaksLater(s: Session, next: Session, turns: seq<Turn>, run: (Session, End), timeoutMs: nat)
    requires turns != [] && next.turn == s.turn + 1 && BrokenBecause(next, turns[1..], run, timeoutMs)
    ensures BrokenBecause(s, turns, run, timeoutMs)
  {
    if Breaks(run.1) {
      LaterTurnBecause(run.0, turns, run.0.turn - next.turn, run.0.turn - s.turn, run.1, timeoutMs);
    }
  }

  /** Main result. A run that stalls or fails other than by the turn cap does so because of its last turn:
      on a timeout the speaker was idle for longer than the timeout, on a receiver that is not ready it was
      busy up to the deadline, and on an error an agent was gone, a request failed, or a message was not
      accepted. */
  lemma {:induction false} EveryBreakHasItsCause(s: Session, turns: seq<Turn>, planAtEnd: bool, timeoutMs: nat)
    ensures BrokenBecause(s, turns, Deliberate(s, turns, planAtEnd, timeoutMs), timeoutMs)
    decreases |turns|
  {
    if s.turn < MAX_TURNS && turns != [] && TakeTurn(s, turns[0], timeoutMs).1 == GoOn {
      var next := TakeTurn(s, turns[0], timeoutMs).0;
      EveryBreakHasItsCause(next, turns[1..], planAtEnd, timeoutMs);
      TurnCounts(s, turns[0], timeoutMs);
      DeliberateNext(s, turns, planAtEnd, timeoutMs);
      BreaksLater(s, next, turns, Deliberate(next, turns[1..], planAtEnd, timeoutMs), timeoutMs);
    } else {
      BreaksNow(s, turns, planAtEnd, timeoutMs);
    }
  }

  // ---- The plan file ends the run ----

  /** The speaker's message is there, its receiver is ready in time, and the message is accepted. */
  predicate GoesThrough(s: Session, agent: Agent, h: Half, timeoutMs: nat) {
    Heard(s, agent, h, timeoutMs).Got? && WaitReady(h.readyStart + timeoutMs, h.ready) == Ready && h.accepted
  }

  /** What was relayed last of the agent is the same in both, so the same messages are next. */
  predicate SameFor(agent: Agent, r: Relayed, q: Relayed) {
    (agent in r <==> agent in q) && (agent in r ==> r[agent] == q[agent])
  }

  lemma {:induction false} HearsTheSame(w: Watch, polls: seq<Poll>, r: Relayed, q: Relayed, agent: Agent,
      timeoutMs: nat)
    requires SameFor(agent, r, q)
    ensures WaitTurn(w, polls, r, agent, timeoutMs) == WaitTurn(w, polls, q, agent, timeoutMs)
    decreases |polls|
  {
    if polls != [] {
      var next := NextOf(r, agent, polls[0]);
      assert next == NextOf(q, agent, polls[0]);
      HearsTheSame(Pass(w, polls[0], next, timeoutMs).0, polls[1..], r, q, agent, timeoutMs);
    }
  }

  /** The messages a turn relays. */
  ghost predicate RelaysOfTurn(s: Session, t: Turn, timeoutMs: nat, relays: seq<Relay>) {
    var n := |s.relays|;
    && s.relays <= relays && |relays| <= n + 2
    && (|relays| > n <==> GoesThrough(s, Lead, t.lead, timeoutMs) && !t.lead.plan)
    && (|relays| > n ==> relays[n] == Relay(Lead, Heard(s, Lead, t.lead, timeoutMs).message))
    && (|relays| == n + 2 <==> |relays| > n && GoesThrough(s, Reviewer, t.reviewer, timeoutMs))
    && (|relays| == n + 2 ==> relays[n + 1] == Relay(Reviewer, Heard(s, Reviewer, t.reviewer, timeoutMs).message))
  }

  /** The time stamps noted in a turn: of every message that was heard, whether it goes through or not. */
  ghost predicate NotedInTurn(s: Session, t: Turn, timeoutMs: nat, after: Session) {
    && (if Heard(s, Lead, t.lead, timeoutMs).Got?
        then Lead in after.relayed && after.relayed[Lead] == Heard(s, Lead, t.lead, timeoutMs).message.ts
        else after.relayed == s.relayed)
    && (if |after.relays| > |s.relays| && Heard(s, Reviewer, t.reviewer, timeoutMs).Got?
        then Reviewer in after.relayed && after.relayed[Reviewer] == Heard(s, Reviewer, t.reviewer, timeoutMs).message.ts
        else SameFor(Reviewer, after.relayed, s.relayed))
  }

  /** The plan file ends the turn exactly if it is there with the lead's message, or behind two relayed
      messages; the loop goes on exactly behind two relayed messages without it. */
  ghost predicate PlanEnds(s: Session, t: Turn, timeoutMs: nat, relays: seq<Relay>, end: End) {
    && (end == PlanSeen <==>
        (Heard(s, Lead, t.lead, timeoutMs).Got? && t.lead.plan) || (|relays| == |s.relays| + 2 && t.reviewer.plan))
    && (end == GoOn <==> |relays| == |s.relays| + 2 && !t.reviewer.plan)
  }

  lemma ReviewerHears(s: Session, next: Session, h: Half, timeoutMs: nat)
    requires SameFor(Reviewer, s.relayed, next.relayed)
    ensures Heard(s, Reviewer, h, timeoutMs) == Heard(next, Reviewer, h, timeoutMs)
  {
    HearsTheSame(Begin(h.start, timeoutMs), h.polls, s.relayed, next.relayed, Reviewer, timeoutMs);
  }

  lemma LeadHalfIs(s: Session, h: Half, timeoutMs: nat)
    ensures
      var half, heard := LeadHalf(s, h, timeoutMs), Heard(s, Lead, h, timeoutMs);
      && (half.1 == GoOn <==> GoesThrough(s, Lead, h, timeoutMs) && !h.plan)
      && (half.1 == PlanSeen <==> heard.Got? && h.plan)
      && half.0.relays == (if half.1 == GoOn then s.relays + [Relay(Lead, heard.message)] else s.relays)
      && half.0.relayed == (if heard.Got? then s.relayed[Lead := heard.message.ts] else s.relayed)
  {
  }

  lemma ReviewerHalfIs(s: Session, h: Half, timeoutMs: nat)
    ensures
      var half, heard, through := ReviewerHalf(s, h, timeoutMs), Heard(s, Reviewer, h, timeoutMs), GoesThrough(s, Reviewer, h, timeoutMs);
      && (half.1 == GoOn <==> through && !h.plan)
      && (half.1 == PlanSeen <==> through && h.plan)
      && half.0.relays == (if through then s.relays + [Relay(Reviewer, heard.message)] else s.relays)
      && half.0.relayed == (if heard.Got? then s.relayed[Reviewer := heard.message.ts] else s.relayed)
  {
  }

  /** Main result. Every turn: what it relays, what it notes, and that a plan file which is seen ends it. */
  lemma TurnExactly(s: Session, t: Turn, timeoutMs: nat)
    ensures
      var taken := TakeTurn(s, t, timeoutMs);
      && RelaysOfTurn(s, t, timeoutMs, taken.0.relays)
      && NotedInTurn(s, t, timeoutMs, taken.0)
      && PlanEnds(s, t, timeoutMs, taken.0.relays, taken.1)
  {
    var begun := s.(turn := s.turn + 1);
    var half := LeadHalf(begun, t.lead, timeoutMs);
    LeadHalfIs(begun, t.lead, timeoutMs);
    if half.1 == GoOn {
      ReviewerHalfIs(half.0, t.reviewer, timeoutMs);
      ReviewerHears(s, half.0, t.reviewer, timeoutMs);
    }
  }

  /** A turn after which the loop goes on saw no plan file. */
  lemma GoOnSawNoPlan(s: Session, t: Turn, timeoutMs: nat)
    requires TakeTurn(s, t, timeoutMs).1 == GoOn
    ensures !t.lead.plan && !t.reviewer.plan
  {
    TurnExactly(s, t, timeoutMs);
  }

  /** The session after the first `k` turns. */
  function After(s: Session, turns: seq<Turn>, k: nat, timeoutMs: nat): Session
    requires k <= |turns|
  {
    if k == 0 then s else TakeTurn(After(s, turns, k - 1, timeoutMs), turns[k - 1], timeoutMs).0
  }

  /** How turn `k` ends. */
  function EndOf(s: Session, turns: seq<Turn>, k: nat, timeoutMs: nat): End
    requires k < |turns|
  {
    TakeTurn(After(s, turns, k, timeoutMs), turns[k], timeoutMs).1
  }

  lemma {:induction false} AfterFirst(s: Session, turns: seq<Turn>, k: nat, timeoutMs: nat)
    requires k < |turns|
    ensures After(TakeTurn(s, turns[0], timeoutMs).0, turns[1..], k, timeoutMs) == After(s, turns, k + 1, timeoutMs)
  {
    if k > 0 {
      AfterFirst(s, turns, k - 1, timeoutMs);
    }
  }

  /** Turn `k` was not the last: it goes on and saw no plan file. */
  ghost predicate WentOn(s: Session, turns: seq<Turn>, k: int, timeoutMs: nat) {
    0 <= k < |turns| && EndOf(s, turns, k, timeoutMs) == GoOn && !turns[k].lead.plan && !turns[k].reviewer.plan
  }

  /** The run took `n` turns: every one but the last goes on and saw no plan file. */
  ghost predicate Took(s: Session, turns: seq<Turn>, n: int, after: Session, timeoutMs: nat) {
    && 0 <= n <= |turns| && after == After(s, turns, n, timeoutMs) && after.turn == s.turn + n
    && forall k :: 0 <= k < n - 1 ==> WentOn(s, turns, k, timeoutMs)
  }

  /** How the last of `n` turns ends; no turn at all is as good as one that goes on. */
  function LastEnd(s: Session, turns: seq<Turn>, n: int, timeoutMs: nat): End
    requires 0 <= n <= |turns|
  {
    if n == 0 then GoOn else EndOf(s, turns, n - 1, timeoutMs)
  }

  /** A run ends as its last turn does, unless that saw the plan file or goes on. Behind the plan file,
      or out of turns, it is complete, save that after the tenth turn the file must still be there. */
  ghost predicate EndsAs(last: End, more: bool, turn: nat, end: End, planAtEnd: bool) {
    if last == PlanSeen || (last == GoOn && turn >= 10)
    then end == if turn >= 10 && !planAtEnd then Stalled(TurnCap) else Completed
    else if last == GoOn then !more && end == Cut
    else end == last
  }

  /** How the turns of a run end, counted from its second turn. */
  lemma EndOfLater(s: Session, turns: seq<Turn>, k: nat, timeoutMs: nat)
    requires k + 1 < |turns|
    ensures EndOf(s, turns, k + 1, timeoutMs) == EndOf(TakeTurn(s, turns[0], timeoutMs).0, turns[1..], k, timeoutMs)
  {
    AfterFirst(s, turns, k, timeoutMs);
    assert turns[1..][k] == turns[k + 1];
  }

  lemma EndOfFirst(s: Session, turns: seq<Turn>, timeoutMs: nat)
    requires turns != []
    ensures EndOf(s, turns, 0, timeoutMs) == TakeTurn(s, turns[0], timeoutMs).1
    ensures After(s, turns, 1, timeoutMs) == TakeTurn(s, turns[0], timeoutMs).0
  {
    assert After(s, turns, 0, timeoutMs) == s;
  }

  lemma FirstWentOn(s: Session, turns: seq<Turn>, timeoutMs: nat)
    requires turns != [] && TakeTurn(s, turns[0], timeoutMs).1 == GoOn
    ensures WentOn(s, turns, 0, timeoutMs)
  {
    EndOfFirst(s, turns, timeoutMs);
    GoOnSawNoPlan(s, turns[0], timeoutMs);
  }

  lemma LaterWentOn(s: Session, turns: seq<Turn>, k: nat, timeoutMs: nat)
    requires turns != [] && WentOn(TakeTurn(s, turns[0], timeoutMs).0, turns[1..], k, timeoutMs)
    ensures WentOn(s, turns, k + 1, timeoutMs)
  {
    EndOfLater(s, turns, k, timeoutMs);
    assert turns[1..][k] == turns[k + 1];
  }

  lemma TookOneMore(s: Session, turns: seq<Turn>, next: Session, n: int, after: Session, timeoutMs: nat)
    requires turns != [] && TakeTurn(s, turns[0], timeoutMs).1 == GoOn && next == TakeTurn(s, turns[0], timeoutMs).0
    requires Took(next, turns[1..], n, after, timeoutMs)
    ensures Took(s, turns, n + 1, after, timeoutMs)
  {
    TurnCounts(s, turns[0], timeoutMs);
    AfterFirst(s, turns, n, timeoutMs);
    FirstWentOn(s, turns, timeoutMs);
    forall k | 0 <= k < n ensures WentOn(s, turns, k, timeoutMs) {
      if k > 0 {
        assert WentOn(next, turns[1..], k - 1, timeoutMs);
        LaterWentOn(s, turns, k - 1, timeoutMs);
      }
    }
  }

  lemma LastEndLater(s: Session, turns: seq<Turn>, n: nat, timeoutMs: nat)
    requires turns != [] && TakeTurn(s, turns[0], timeoutMs).1 == GoOn && n < |turns|
    ensures LastEnd(s, turns, n + 1, timeoutMs) == LastEnd(TakeTurn(s, turns[0], timeoutMs).0, turns[1..], n, timeoutMs)
  {
    if n > 0 {
      EndOfLater(s, turns, n - 1, timeoutMs);
    } else {
      EndOfFirst(s, turns, timeoutMs);
    }
  }

  /** After `n` turns the run has ended. */
  ghost predicate EndsAfter(s: Session, turns: seq<Turn>, n: int, run: (Session, End), planAtEnd: bool,
      timeoutMs: nat) {
    0 <= n <= |turns| && EndsAs(LastEnd(s, turns, n, timeoutMs), n < |turns|, run.0.turn, run.1, planAtEnd)
  }

  lemma EndsOneLater(s: Session, turns: seq<Turn>, next: Session, n: int, run: (Session, End), planAtEnd: bool,
      timeoutMs: nat)
    requires turns != [] && TakeTurn(s, turns[0], timeoutMs).1 == GoOn && next == TakeTurn(s, turns[0], timeoutMs).0
    requires EndsAfter(next, turns[1..], n, run, planAtEnd, timeoutMs)
    ensures EndsAfter(s, turns, n + 1, run, planAtEnd, timeoutMs)
  {
    LastEndLater(s, turns, n, timeoutMs);
  }

  ghost predicate RunIs(s: Session, turns: seq<Turn>, n: int, run: (Session, End), planAtEnd: bool, timeoutMs: nat) {
    n == run.0.turn - s.turn && Took(s, turns, n, run.0, timeoutMs) && EndsAfter(s, turns, n, run, planAtEnd, timeoutMs)
  }

  lemma RunOfNoTurn(s: Session, turns: seq<Turn>, planAtEnd: bool, timeoutMs: nat)
    requires s.turn >= MAX_TURNS || turns == []
    ensures RunIs(s, turns, 0, Deliberate(s, turns, planAtEnd, timeoutMs), planAtEnd, timeoutMs)
  {
    assert After(s, turns, 0, timeoutMs) == s;
  }

  lemma RunOfOneTurn(s: Session, turns: seq<Turn>, planAtEnd: bool, timeoutMs: nat)
    requires s.turn < MAX_TURNS && turns != [] && TakeTurn(s, turns[0], timeoutMs).1 != GoOn
    ensures RunIs(s, turns, 1, Deliberate(s, turns, planAtEnd, timeoutMs), planAtEnd, timeoutMs)
  {
    TurnCounts(s, turns[0], timeoutMs);
    DeliberateStops(s, turns, planAtEnd, timeoutMs);
    EndOfFirst(s, turns, timeoutMs);
  }

  lemma RunOfMore(s: Session, turns: seq<Turn>, next: Session, n: int, run: (Session, End), planAtEnd: bool,
      timeoutMs: nat)
    requires turns != [] && TakeTurn(s, turns[0], timeoutMs).1 == GoOn && next == TakeTurn(s, turns[0], timeoutMs).0 && next.turn == s.turn + 1
    requires RunIs(next, turns[1..], n, run, planAtEnd, timeoutMs)
    ensures RunIs(s, turns, n + 1, run, planAtEnd, timeoutMs)
  {
    assert Took(s, turns, n + 1, run.0, timeoutMs) by {
      TookOneMore(s, turns, next, n, run.0, timeoutMs);
    }
    assert EndsAfter(s, turns, n + 1, run, planAtEnd, timeoutMs) by {
      EndsOneLater(s, turns, next, n, run, planAtEnd, timeoutMs);
    }
  }

  lemma RunGoesOn(s: Session, turns: seq<Turn>, n: int, planAtEnd: bool, timeoutMs: nat)
    requires s.turn < MAX_TURNS && turns != [] && TakeTurn(s, turns[0], timeoutMs).1 == GoOn
    requires
      var next := TakeTurn(s, turns[0], timeoutMs).0;
      RunIs(next, turns[1..], n, Deliberate(next, turns[1..], planAtEnd, timeoutMs), planAtEnd, timeoutMs)
    ensures RunIs(s, turns, n + 1, Deliberate(s, turns, planAtEnd, timeoutMs), planAtEnd, timeoutMs)
  {
    var next := TakeTurn(s, turns[0], timeoutMs).0;
    var run := Deliberate(next, turns[1..], planAtEnd, timeoutMs);
    TurnCounts(s, turns[0], timeoutMs);
    RunOfMore(s, turns, next, n, run, planAtEnd, timeoutMs);
    DeliberateNext(s, turns, planAtEnd, timeoutMs);
  }

  /** Main result. Over every run: no turn but the last one taken saw the plan file, and the run ends
      behind it: once the file was seen, or after the tenth turn, the run is complete, and it is the
      turn cap exactly if ten turns were taken and the file is missing at the end. */
  lemma {:induction false} RunExactly(s: Session, turns: seq<Turn>, planAtEnd: bool, timeoutMs: nat)
    ensures exists n :: RunIs(s, turns, n, Deliberate(s, turns, planAtEnd, timeoutMs), planAtEnd, timeoutMs)
    decreases |turns|
  {
    if s.turn >= MAX_TURNS || turns == [] {
      RunOfNoTurn(s, turns, planAtEnd, timeoutMs);
    } else if TakeTurn(s, turns[0], timeoutMs).1 != GoOn {
      RunOfOneTurn(s, turns, planAtEnd, timeoutMs);
    } else {
      var next := TakeTurn(s, turns[0], timeoutMs).0;
      RunExactly(next, turns[1..], planAtEnd, timeoutMs);
      var n :| RunIs(next, turns[1..], n, Deliberate(next, turns[1..], planAtEnd, timeoutMs), planAtEnd, timeoutMs);
      RunGoesOn(s, turns, n, planAtEnd, timeoutMs);
    }
  }

  /** A run whose last turn saw the plan file is complete, or stalls on the turn cap exactly if that was
      the tenth turn and the file is gone at the end. */
  lemma SeenPlanEndsRun(s: Session, turns: seq<Turn>, n: int, run: (Session, End), planAtEnd: bool, timeoutMs: nat)
    requires RunIs(s, turns, n, run, planAtEnd, timeoutMs) && LastEnd(s, turns, n, timeoutMs) == PlanSeen
    ensures run.1 == Completed || run.1 == Stalled(TurnCap)
    ensures run.1 == Stalled(TurnCap) <==> run.0.turn >= 10 && !planAtEnd
  {
  }

  // ---- Every run ----

  predicate EndsWell(seeds: Relayed, s: Session, turns: seq<Turn>, planAtEnd: bool, timeoutMs: nat) {
    var run := Deliberate(s, turns, planAtEnd, timeoutMs);
    Ended(seeds, run.0, run.1, SawPlan(turns, run.0.turn - s.turn), planAtEnd)
  }

  /** Main result. Over every run of the relay loop, from any seeds: directions alternate beginning
      with the lead, each message relayed is newer than every earlier one of its agent and than its
      seed, there are at most twice as many relays as turns and at most `MAX_TURNS` turns; success
      means that the plan file was found; and the turn cap is reported only after the last turn, when
      the file is missing at the end. */
  lemma {:induction false} EveryDeliberation(seeds: Relayed, s: Session, turns: seq<Turn>, planAtEnd: bool,
      timeoutMs: nat)
    requires BetweenTurns(seeds, s)
    ensures EndsWell(seeds, s, turns, planAtEnd, timeoutMs)
    decreases |turns|
  {
    if s.turn < MAX_TURNS && turns != [] && TakeTurn(s, turns[0], timeoutMs).1 == GoOn {
      NextTurnKeeps(seeds, s, turns[0], timeoutMs);
      EveryDeliberation(seeds, TakeTurn(s, turns[0], timeoutMs).0, turns[1..], planAtEnd, timeoutMs);
      GoesOn(seeds, s, turns, planAtEnd, timeoutMs, TakeTurn(s, turns[0], timeoutMs).0);
    } else {
      EndsNow(seeds, s, turns, planAtEnd, timeoutMs);
    }
  }

  lemma GoesOn(seeds: Relayed, s: Session, turns: seq<Turn>, planAtEnd: bool, timeoutMs: nat, next: Session)
    requires s.turn < MAX_TURNS && turns != [] && TakeTurn(s, turns[0], timeoutMs) == (next, GoOn)
    requires next.turn == s.turn + 1 && EndsWell(seeds, next, turns[1..], planAtEnd, timeoutMs)
    ensures EndsWell(seeds, s, turns, planAtEnd, timeoutMs)
  {
    DeliberateNext(s, turns, planAtEnd, timeoutMs);
    var run := Deliberate(next, turns[1..], planAtEnd, timeoutMs);
    EndedLater(seeds, run.0, run.1, turns, run.0.turn - next.turn, run.0.turn - s.turn, planAtEnd);
  }

  lemma NextTurnKeeps(seeds: Relayed, s: Session, t: Turn, timeoutMs: nat)
    requires BetweenTurns(seeds, s) && s.turn < MAX_TURNS && TakeTurn(s, t, timeoutMs).1 == GoOn
    ensures BetweenTurns(seeds, TakeTurn(s, t, timeoutMs).0) && TakeTurn(s, t, timeoutMs).0.turn == s.turn + 1
  {
    TurnKeeps(seeds, s, t, timeoutMs);
  }

  lemma DeliberateNext(s: Session, turns: seq<Turn>, planAtEnd: bool, timeoutMs: nat)
    requires s.turn < MAX_TURNS && turns != [] && TakeTurn(s, turns[0], timeoutMs).1 == GoOn
    ensures Deliberate(s, turns, planAtEnd, timeoutMs)
      == Deliberate(TakeTurn(s, turns[0], timeoutMs).0, turns[1..], planAtEnd, timeoutMs)
  {
  }

  /** Where the loop is on its way to the result `goal`. */
  ghost predicate Progress(goal: (Session, End), s: Session, rest: seq<Turn>, end: End, planAtEnd: bool,
      timeoutMs: nat) {
    if end == GoOn then goal == Deliberate(s, rest, planAtEnd, timeoutMs)
    else goal == (s, if end == PlanSeen then Close(s, planAtEnd) else end)
  }

  lemma ProgressNext(goal: (Session, End), s: Session, rest: seq<Turn>, planAtEnd: bool, timeoutMs: nat)
    requires Progress(goal, s, rest, GoOn, planAtEnd, timeoutMs) && s.turn < MAX_TURNS && rest != []
    ensures
      var taken := TakeTurn(s, rest[0], timeoutMs);
      Progress(goal, taken.0, rest[1..], taken.1, planAtEnd, timeoutMs)
  {
  }

  lemma ProgressEnds(goal: (Session, End), s: Session, rest: seq<Turn>, end: End, planAtEnd: bool, timeoutMs: nat)
    requires Progress(goal, s, rest, end, planAtEnd, timeoutMs)
    requires end != GoOn || s.turn >= MAX_TURNS || rest == []
    ensures goal.0 == s
    ensures goal.1 ==
      if end == GoOn && s.turn < MAX_TURNS then Cut
      else if end == GoOn || end == PlanSeen then Close(s, planAtEnd)
      else end
  {
  }

  /** The run ends at the next look at the loop's guard, or in the next turn. */
  lemma EndsNow(seeds: Relayed, s: Session, turns: seq<Turn>, planAtEnd: bool, timeoutMs: nat)
    requires BetweenTurns(seeds, s)
    requires s.turn < MAX_TURNS && turns != [] ==> TakeTurn(s, turns[0], timeoutMs).1 != GoOn
    ensures EndsWell(seeds, s, turns, planAtEnd, timeoutMs)
  {
    if s.turn < MAX_TURNS && turns != [] {
      TurnKeeps(seeds, s, turns[0], timeoutMs);
      var taken := TakeTurn(s, turns[0], timeoutMs);
      assert Deliberate(s, turns, planAtEnd, timeoutMs).0 == taken.0;
    }
  }

  lemma EndedLater(seeds: Relayed, s: Session, end: End, turns: seq<Turn>, n: int, m: int, planAtEnd: bool)
    requires turns != [] && m == n + 1 && Ended(seeds, s, end, SawPlan(turns[1..], n), planAtEnd)
    ensures Ended(seeds, s, end, SawPlan(turns, m), planAtEnd)
  {
    LaterTurn(turns, n);
  }

  lemma LaterTurn(turns: seq<Turn>, n: int)
    requires turns != []
    ensures SawPlan(turns[1..], n) ==> SawPlan(turns, n + 1)
    ensures n > 0 && SawPlan(turns, n + 1) ==> SawPlan(turns[1..], n)
  {
  }

  lemma {:induction false} RelaysOf(relays: seq<Relay>, agent: Agent)
    requires Alternates(relays)
    ensures |Of(relays, agent)| == (|relays| + if agent == Lead then 1 else 0) / 2
  {
    if relays != [] {
      RelaysOf(relays[..|relays| - 1], agent);
    }
  }

  /** The relays of one agent. */
  function Of(relays: seq<Relay>, agent: Agent): seq<Relay> {
    if relays == [] then []
    else
      var last := relays[|relays| - 1];
      Of(relays[..|relays| - 1], agent) + (if last.from == agent then [last] else [])
  }

  /** At most `MAX_TURNS` relays each way. */
  lemma AtMostTenEachWay(seeds: Relayed, turns: seq<Turn>, planAtEnd: bool, timeoutMs: nat, agent: Agent)
    ensures |Of(Deliberate(Session(0, seeds, []), turns, planAtEnd, timeoutMs).0.relays, agent)| <= MAX_TURNS
  {
    EveryDeliberation(seeds, Session(0, seeds, []), turns, planAtEnd, timeoutMs);
    RelaysOf(Deliberate(Session(0, seeds, []), turns, planAtEnd, timeoutMs).0.relays, agent);
  }

  // ---- The script ----

  class GroupThink {
    var lastRelayedTs: Relayed
    var turn: nat
    var relays: seq<Relay>

    ghost function State(): Session
      reads this
    {
      Session(turn, lastRelayedTs, relays)
    }

    constructor ()
      ensures State() == Session(0, map[], [])
    {
      lastRelayedTs, turn, relays := map[], 0, [];
    }

    method ReadNextMessage(agent: Agent, latest: Option<Message>) returns (m: Option<Message>)
      ensures m == NextMessage(lastRelayedTs, agent, latest)
      ensures m.Some? <==> latest.Some? && latest.value.turnComplete
                           && (agent in lastRelayedTs ==> lastRelayedTs[agent] < latest.value.ts)
      ensures m.Some? ==> m == latest
    {
      if latest.None? || !latest.value.turnComplete {
        return None;
      }
      if agent in lastRelayedTs && latest.value.ts <= lastRelayedTs[agent] {
        return None;
      }
      return latest;
    }

    /** The latest message there is at the start will not be relayed. */
    method SeedLastRelayedTs(agent: Agent, latest: Option<Message>)
      modifies this`lastRelayedTs
      ensures lastRelayedTs == Seeded(old(lastRelayedTs), agent, latest)
      ensures NextMessage(lastRelayedTs, agent, latest) == None
    {
      if latest.Some? && latest.value.turnComplete {
        lastRelayedTs := lastRelayedTs[agent := latest.value.ts];
      }
    }

    /** One pass of the waiting loop. */
    method PollOnce(agent: Agent, w: Watch, p: Poll, timeoutMs: nat) returns (after: Watch, o: Outcome)
      ensures (after, o) == Pass(w, p, NextOf(lastRelayedTs, agent, p), timeoutMs)
    {
      after := w;
      if p.Broken? {
        return after, Failed;
      }
      var msg := ReadNextMessage(agent, p.latest);
      if msg.Some? {
        return after, Got(msg.value);
      }
      if p.now - after.lastStatusCheck >= STATUS_CHECK_INTERVAL_MS {
        if p.status.None? {
          return after, Failed;
        }
        after := after.(lastStatusCheck := p.now, samples := after.samples + [Sample(p.now, p.status.value)]);
        if p.status.value == Working {
          after := after.(stallDeadline := p.now + timeoutMs);
        }
        if p.status.value == Crashed || p.status.value == Done {
          return after, Exited;
        }
      }
      if p.checkedAt > after.stallDeadline {
        if p.finalStatus.None? {
          return after, Failed;
        }
        var status := p.finalStatus.value;
        after := after.(lastStatusCheck := p.finalAt, samples := after.samples + [Sample(p.finalAt, status)]);
        if status == Crashed || status == Done {
          return after, Exited;
        }
        if status != Working {
          return after, TimedOut;
        }
        after := after.(stallDeadline := p.finalAt + timeoutMs);
      }
      return after, StillWaiting;
    }

    /** The wait, over the passes there are. */
    method WaitTurnComplete(agent: Agent, start: nat, polls: seq<Poll>, timeoutMs: nat)
        returns (w: Watch, o: Outcome)
      ensures (w, o) == WaitTurn(Begin(start, timeoutMs), polls, lastRelayedTs, agent, timeoutMs)
    {
      w, o := Watch(start + timeoutMs, 0, []), StillWaiting;
      var i := 0;
      assert polls[0..] == polls;
      while i < |polls|
        invariant i <= |polls|
        invariant WaitTurn(Begin(start, timeoutMs), polls, lastRelayedTs, agent, timeoutMs)
          == WaitTurn(w, polls[i..], lastRelayedTs, agent, timeoutMs)
        invariant o == StillWaiting
      {
        assert polls[i..][1..] == polls[i + 1..];
        w, o := PollOnce(agent, w, polls[i], timeoutMs);
        if o != StillWaiting {
          return;
        }
        i := i + 1;
      }
    }

    method WaitReceiverReady(start: nat, polls: seq<ReadyPoll>, timeoutMs: nat) returns (r: Readiness)
      ensures r == WaitReady(start + timeoutMs, polls)
    {
      var deadline := start + timeoutMs;
      var i := 0;
      assert polls[0..] == polls;
      while i < |polls|
        invariant i <= |polls|
        invariant WaitReady(deadline, polls) == WaitReady(deadline, polls[i..])
      {
        var p := polls[i];
        assert polls[i..][1..] == polls[i + 1..];
        if p.now >= deadline {
          return NotReady;
        }
        if p.status.None? {
          return Lost;
        }
        if p.status.value == Crashed || p.status.value == Done {
          return Left;
        }
        if p.status.value == Idle || p.status.value == Waiting {
          return Ready;
        }
        i := i + 1;
      }
      return Undecided;
    }

    /** Waits for the receiver and posts the message to it. */
    method Post(agent: Agent, message: Message, h: Half, timeoutMs: nat) returns (end: End)
      modifies this`relays
      ensures (State(), end) == HandOn(old(State()), agent, message, h, timeoutMs)
    {
      var ready := WaitReceiverReady(h.readyStart, h.ready, timeoutMs);
      end := AfterReady(ready);
      if end == GoOn {
        if !h.accepted {
          return Error;
        }
        relays := relays + [Relay(agent, message)];
      }
    }

    /** One turn: lead to reviewer, then reviewer to lead. */
    method DoTurn(t: Turn, timeoutMs: nat) returns (end: End)
      modifies this
      ensures (State(), end) == TakeTurn(old(State()), t, timeoutMs)
    {
      turn := turn + 1;
      var w, heard := WaitTurnComplete(Lead, t.lead.start, t.lead.polls, timeoutMs);
      if !heard.Got? {
        return AfterWait(heard);
      }
      lastRelayedTs := lastRelayedTs[Lead := heard.message.ts];
      if t.lead.plan {
        return PlanSeen;
      }
      end := Post(Lead, heard.message, t.lead, timeoutMs);
      if end != GoOn {
        return;
      }
      w, heard := WaitTurnComplete(Reviewer, t.reviewer.start, t.reviewer.polls, timeoutMs);
      if !heard.Got? {
        return AfterWait(heard);
      }
      lastRelayedTs := lastRelayedTs[Reviewer := heard.message.ts];
      end := Post(Reviewer, heard.message, t.reviewer, timeoutMs);
      if end == GoOn && t.reviewer.plan {
        return PlanSeen;
      }
    }

    /** The relay loop and the check behind it. */
    method RunLoop(turns: seq<Turn>, planAtEnd: bool, timeoutMs: nat) returns (end: End)
      modifies this
      ensures (State(), end) == Deliberate(old(State()), turns, planAtEnd, timeoutMs)
    {
      ghost var goal := Deliberate(State(), turns, planAtEnd, timeoutMs);
      var i := 0;
      end := GoOn;
      assert turns[0..] == turns;
      while turn < MAX_TURNS && i < |turns| && end == GoOn
        invariant i <= |turns|
        invariant Progress(goal, State(), turns[i..], end, planAtEnd, timeoutMs)
        decreases |turns| - i
      {
        ProgressNext(goal, State(), turns[i..], planAtEnd, timeoutMs);
        end := DoTurn(turns[i], timeoutMs);
        assert turns[i..][1..] == turns[i + 1..];
        i := i + 1;
      }
      ProgressEnds(goal, State(), turns[i..], end, planAtEnd, timeoutMs);
      if end == GoOn && turn < MAX_TURNS {
        return Cut;
      }
      if end == GoOn || end == PlanSeen {
        return if turn >= MAX_TURNS && !planAtEnd then Stalled(TurnCap) else Completed;
      }
    }
  }
}
