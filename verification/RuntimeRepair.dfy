/** The runtime repair step, cut at its awaits, interleaved with other steps and with an external
    writer of the same file. The planner's answer is an input; it is only known to parse, which
    is what ConfigRepair proves of it. */
module RuntimeRepair {
  import opened Prelude

  type Id = nat

  datatype Config = Config(parses: string -> bool, cooldown: nat, gate: nat)

  /** What one read returned, and when it looked at the file. */
  datatype Sample = Sample(text: Option<string>, at: nat)

  datatype Stage = First | Second | Third | Final(content: string)

  datatype Outcome =
    | InFlight | Cooldown | Missing | Healthy | HealedExternally | Churning | NotRepairable | Repaired | Threw

  /** Where a step is suspended. `seen` are the samples it has taken so far. */
  datatype Pc =
    | Reading(stage: Stage, seen: seq<Sample>)
    | Sampled(stage: Stage, seen: seq<Sample>)
    | Sleeping(stage: Stage, seen: seq<Sample>, until: nat)
    | Finished(outcome: Outcome)

  /** A repair that was applied. `replaced` is what the file held at that moment, `raced` whether
      anything was written to it after the step's last look. */
  datatype Applied = Applied(text: string, content: string, at: nat, seen: seq<Sample>,
                             replaced: Option<string>, raced: bool)

  datatype World = World(file: Option<string>, now: nat, inFlight: bool, lastRepairAt: nat,
                         steps: map<Id, Pc>, applied: seq<Applied>, raced: bool)

  datatype PlanResult = NoRepair | Planned(content: string) | LoadFails

  datatype Event =
    | Write(file: Option<string>)
    | Tick(dt: nat)
    | Call(id: Id)
    | Look(id: Id)
    | Resume(id: Id, plan: PlanResult, applyFails: bool)
    | Wake(id: Id)

  function Last(seen: seq<Sample>): Sample
    requires seen != []
  {
    seen[|seen| - 1]
  }

  predicate Stopped(pc: Pc) { pc.Finished? }

  /** Leaving by any exit releases the flag. */
  function Finish(w: World, id: Id, o: Outcome): World {
    w.(inFlight := false, steps := w.steps[id := Finished(o)])
  }

  function Goto(w: World, id: Id, pc: Pc): World {
    w.(steps := w.steps[id := pc])
  }

  function Sleep(c: Config, w: World, id: Id, stage: Stage, seen: seq<Sample>): World {
    Goto(w, id, Sleeping(stage, seen, w.now + c.gate))
  }

  function AfterPlan(w: World, id: Id, seen: seq<Sample>, plan: PlanResult): World {
    match plan
    case NoRepair => Finish(w, id, NotRepairable)
    case LoadFails => Finish(w, id, Threw)
    case Planned(content) => Goto(w, id, Reading(Final(content), seen))
  }

  function Apply(w: World, id: Id, seen: seq<Sample>, text: string, content: string): World {
    Finish(w.(file := Some(content), lastRepairAt := w.now,
              applied := w.applied + [Applied(text, content, w.now, seen, w.file, w.raced)]),
           id, Repaired)
  }

  /** The step continues with the text its latest read returned. */
  function Continue(c: Config, w: World, id: Id, stage: Stage, seen: seq<Sample>, plan: PlanResult,
      applyFails: bool): World
    requires seen != []
  {
    var text := Last(seen).text;
    if text.None? then Finish(w, id, Missing)
    else if c.parses(text.value) then Finish(w, id, if stage == First then Healthy else HealedExternally)
    else if stage == First then Sleep(c, w, id, Second, seen)
    else if |seen| < 2 then w
    else
      var same := text == seen[|seen| - 2].text;
      match stage
      case First => w
      case Second => if same then AfterPlan(w, id, seen, plan) else Sleep(c, w, id, Third, seen)
      case Third => if same then AfterPlan(w, id, seen, plan) else Finish(w, id, Churning)
      case Final(content) =>
        if !same then Finish(w, id, Churning)
        else if applyFails then Finish(w, id, Threw)
        else Apply(w, id, seen, text.value, content)
  }

  /** A text the planner would hand out: it parses. */
  predicate SoundPlan(c: Config, plan: PlanResult) {
    plan.Planned? ==> c.parses(plan.content)
  }

  /** One atomic segment, or nothing when the event does not apply. */
  function Step(c: Config, w: World, e: Event): World {
    match e
    case Write(file) => w.(file := file, raced := true)
    case Tick(dt) => w.(now := w.now + dt)
    case Call(id) =>
      if id in w.steps then w
      else if w.inFlight then Goto(w, id, Finished(InFlight))
      else if w.now - w.lastRepairAt < c.cooldown then Goto(w, id, Finished(Cooldown))
      else Goto(w, id, Reading(First, [])).(inFlight := true)
    case Look(id) =>
      if id in w.steps && w.steps[id].Reading? then
        var pc := w.steps[id];
        Goto(w, id, Sampled(pc.stage, pc.seen + [Sample(w.file, w.now)])).(raced := false)
      else w
    case Resume(id, plan, applyFails) =>
      if id in w.steps && w.steps[id].Sampled? && w.steps[id].seen != [] && SoundPlan(c, plan) then
        Continue(c, w, id, w.steps[id].stage, w.steps[id].seen, plan, applyFails)
      else w
    case Wake(id) =>
      if id in w.steps && w.steps[id].Sleeping? && w.now >= w.steps[id].until then
        Goto(w, id, Reading(w.steps[id].stage, w.steps[id].seen))
      else w
  }

  function Start(file: Option<string>, now: nat): World {
    World(file, now, false, 0, map[], [], false)
  }

  function Run(c: Config, file: Option<string>, now: nat, events: seq<Event>): World {
    if events == [] then Start(file, now)
    else Step(c, Run(c, file, now, events[..|events| - 1]), events[|events| - 1])
  }

  // ---- What every interleaving keeps ----

  predicate BadText(c: Config, s: Sample) {
    s.text.Some? && !c.parses(s.text.value)
  }

  /** The last two samples show the same invalid text, a gate interval apart. */
  predicate Stable(c: Config, seen: seq<Sample>) {
    && |seen| >= 2
    && BadText(c, Last(seen)) && seen[|seen| - 2].text == Last(seen).text
    && seen[|seen| - 2].at + c.gate <= Last(seen).at
  }

  /** What a step knows when it is about to take the read of `stage` at time `t` or later. */
  predicate Ready(c: Config, stage: Stage, seen: seq<Sample>, t: nat) {
    match stage
    case First => seen == []
    case Second => |seen| == 1 && BadText(c, seen[0]) && seen[0].at + c.gate <= t
    case Third => |seen| == 2 && BadText(c, seen[1]) && seen[1].at + c.gate <= t
    case Final(content) => Stable(c, seen) && c.parses(content)
  }

  predicate PcOk(c: Config, pc: Pc, now: nat) {
    match pc
    case Reading(stage, seen) => Ready(c, stage, seen, now)
    case Sampled(stage, seen) =>
      && seen != [] && Last(seen).at <= now
      && Ready(c, stage, seen[..|seen| - 1], Last(seen).at)
    case Sleeping(stage, seen, until) => !stage.Final? && Ready(c, stage, seen, until)
    case Finished(_) => true
  }

  /** At most one step is past the guard, and the flag says so. */
  ghost predicate Guarded(w: World) {
    && (forall id :: id in w.steps && !Stopped(w.steps[id]) ==> w.inFlight)
    && (w.inFlight ==> exists id :: id in w.steps && !Stopped(w.steps[id]))
    && (forall i, k :: i in w.steps && k in w.steps && !Stopped(w.steps[i]) && !Stopped(w.steps[k]) ==> i == k)
  }

  /** A repair was given invalid text that two reads a gate apart and the last read all returned,
      wrote something that parses, and clobbered nothing else unless it was raced. */
  predicate Sound(c: Config, a: Applied) {
    && |a.seen| >= 3
    && Last(a.seen).text == Some(a.text) && !c.parses(a.text) && c.parses(a.content)
    && Stable(c, a.seen[..|a.seen| - 1]) && a.seen[|a.seen| - 2].text == Some(a.text)
    && (!a.raced ==> a.replaced == Some(a.text))
  }

  ghost predicate Spaced(c: Config, w: World) {
    && (forall i :: 0 < i < |w.applied| ==> w.applied[i - 1].at + c.cooldown <= w.applied[i].at)
    && (w.applied != [] ==> w.lastRepairAt == w.applied[|w.applied| - 1].at)
    && (w.applied == [] ==> w.lastRepairAt == 0)
    && (w.inFlight ==> w.lastRepairAt + c.cooldown <= w.now)
  }

  /** The active step's latest sample is still what the file holds, unless it was written to. */
  predicate Fresh(w: World) {
    forall id :: id in w.steps && w.steps[id].Sampled? && w.steps[id].seen != [] && !w.raced ==>
      Last(w.steps[id].seen).text == w.file
  }

  ghost predicate Inv(c: Config, w: World) {
    && Guarded(w)
    && (forall id :: id in w.steps ==> PcOk(c, w.steps[id], w.now))
    && (forall i :: 0 <= i < |w.applied| ==> Sound(c, w.applied[i]))
    && Spaced(c, w)
    && Fresh(w)
  }

  lemma FinishKeeps(c: Config, w: World, id: Id, o: Outcome)
    requires Inv(c, w) && id in w.steps && !Stopped(w.steps[id])
    ensures Inv(c, Finish(w, id, o))
  {
  }

  lemma GotoKeeps(c: Config, w: World, id: Id, pc: Pc)
    requires Inv(c, w) && id in w.steps && !Stopped(w.steps[id])
    requires !Stopped(pc) && PcOk(c, pc, w.now) && !pc.Sampled?
    ensures Inv(c, Goto(w, id, pc))
  {
    assert id in Goto(w, id, pc).steps;
  }

  lemma GuardedAfterGoto(w: World, id: Id, pc: Pc)
    requires Guarded(w) && id in w.steps && !Stopped(w.steps[id]) && !Stopped(pc)
    ensures Guarded(Goto(w, id, pc))
    ensures forall k :: k in w.steps && k != id ==> Stopped(w.steps[k])
  {
    assert id in Goto(w, id, pc).steps;
  }

  lemma LookedIsOk(c: Config, pc: Pc, file: Option<string>, now: nat)
    requires pc.Reading? && PcOk(c, pc, now)
    ensures PcOk(c, Sampled(pc.stage, pc.seen + [Sample(file, now)]), now)
  {
    assert (pc.seen + [Sample(file, now)])[..|pc.seen|] == pc.seen;
  }

  lemma SampleKeeps(c: Config, w: World, id: Id, pc: Pc)
    requires Inv(c, w) && id in w.steps && !Stopped(w.steps[id])
    requires pc.Sampled? && PcOk(c, pc, w.now) && Last(pc.seen).text == w.file
    ensures Inv(c, Goto(w, id, pc).(raced := false))
  {
    GuardedAfterGoto(w, id, pc);
    assert Guarded(Goto(w, id, pc).(raced := false));
  }

  lemma LookKeeps(c: Config, w: World, id: Id)
    requires Inv(c, w)
    ensures Inv(c, Step(c, w, Look(id)))
  {
    if id in w.steps && w.steps[id].Reading? {
      LookedIsOk(c, w.steps[id], w.file, w.now);
      SampleKeeps(c, w, id, Sampled(w.steps[id].stage, w.steps[id].seen + [Sample(w.file, w.now)]));
    }
  }

  lemma ApplyKeeps(c: Config, w: World, id: Id, content: string)
    requires Inv(c, w) && id in w.steps && w.steps[id].Sampled? && w.steps[id].stage == Final(content)
    requires w.steps[id].seen != [] && BadText(c, Last(w.steps[id].seen))
    requires |w.steps[id].seen| >= 2 && Last(w.steps[id].seen).text == w.steps[id].seen[|w.steps[id].seen| - 2].text
    ensures Inv(c, Apply(w, id, w.steps[id].seen, Last(w.steps[id].seen).text.value, content))
  {
    var seen := w.steps[id].seen;
    var v := Apply(w, id, seen, Last(seen).text.value, content);
    assert seen[..|seen| - 1][|seen| - 2] == seen[|seen| - 2];
    assert Sound(c, v.applied[|w.applied|]);
    assert forall i :: 0 <= i < |w.applied| ==> v.applied[i] == w.applied[i];
    forall k | k in v.steps ensures Stopped(v.steps[k]) {
      assert k != id ==> v.steps[k] == w.steps[k];
    }
  }

  /** Continuing either stops the step, applies a repair it is ready for, or suspends it again with
      everything the next stage relies on. */
  lemma ContinueCases(c: Config, w: World, id: Id, stage: Stage, seen: seq<Sample>, plan: PlanResult, applyFails: bool)
    requires seen != [] && PcOk(c, Sampled(stage, seen), w.now) && SoundPlan(c, plan)
    ensures var v := Continue(c, w, id, stage, seen, plan, applyFails);
            || (id in v.steps && !Stopped(v.steps[id]) && !v.steps[id].Sampled?
                && v == Goto(w, id, v.steps[id]) && PcOk(c, v.steps[id], w.now))
            || (id in v.steps && v.steps[id].Finished? && v == Finish(w, id, v.steps[id].outcome))
            || (stage.Final? && |seen| >= 2 && BadText(c, Last(seen)) && Last(seen).text == seen[|seen| - 2].text
                && v == Apply(w, id, seen, Last(seen).text.value, stage.content))
  {
    assert |seen| >= 2 ==> seen[..|seen| - 1][|seen| - 2] == seen[|seen| - 2];
  }

  lemma ResumeKeeps(c: Config, w: World, id: Id, plan: PlanResult, applyFails: bool)
    requires Inv(c, w)
    ensures Inv(c, Step(c, w, Resume(id, plan, applyFails)))
  {
    if id in w.steps && w.steps[id].Sampled? && w.steps[id].seen != [] && SoundPlan(c, plan) {
      var stage, seen := w.steps[id].stage, w.steps[id].seen;
      var v := Continue(c, w, id, stage, seen, plan, applyFails);
      ContinueCases(c, w, id, stage, seen, plan, applyFails);
      if v.applied != w.applied {
        ApplyKeeps(c, w, id, stage.content);
      } else if v.steps[id].Finished? {
        FinishKeeps(c, w, id, v.steps[id].outcome);
      } else {
        GotoKeeps(c, w, id, v.steps[id]);
      }
    }
  }

  lemma AdmitKeeps(c: Config, w: World, id: Id)
    requires Inv(c, w) && id !in w.steps && !w.inFlight && w.lastRepairAt + c.cooldown <= w.now
    ensures Inv(c, Goto(w, id, Reading(First, [])).(inFlight := true))
  {
    var v := Goto(w, id, Reading(First, [])).(inFlight := true);
    assert id in v.steps && !Stopped(v.steps[id]);
    forall k | k in v.steps && k != id ensures Stopped(v.steps[k]) {
      assert v.steps[k] == w.steps[k];
    }
  }

  lemma RefuseKeeps(c: Config, w: World, id: Id, o: Outcome)
    requires Inv(c, w) && id !in w.steps
    ensures Inv(c, Goto(w, id, Finished(o)))
  {
    GuardedAfterRefusal(w, id, o);
    var v := Goto(w, id, Finished(o));
    assert forall k :: k in v.steps ==> k == id || (k in w.steps && v.steps[k] == w.steps[k]);
  }

  lemma GuardedAfterRefusal(w: World, id: Id, o: Outcome)
    requires Guarded(w) && id !in w.steps
    ensures Guarded(Goto(w, id, Finished(o)))
  {
    var v := Goto(w, id, Finished(o));
    if w.inFlight {
      var k :| k in w.steps && !Stopped(w.steps[k]);
      assert k in v.steps && v.steps[k] == w.steps[k];
    }
  }

  lemma CallKeeps(c: Config, w: World, id: Id)
    requires Inv(c, w)
    ensures Inv(c, Step(c, w, Call(id)))
  {
    if id !in w.steps {
      if !w.inFlight && w.lastRepairAt + c.cooldown <= w.now {
        AdmitKeeps(c, w, id);
      } else {
        RefuseKeeps(c, w, id, Step(c, w, Call(id)).steps[id].outcome);
      }
    }
  }

  lemma TickKeeps(c: Config, w: World, dt: nat)
    requires Inv(c, w)
    ensures Inv(c, w.(now := w.now + dt))
  {
  }

  lemma WriteKeeps(c: Config, w: World, file: Option<string>)
    requires Inv(c, w)
    ensures Inv(c, w.(file := file, raced := true))
  {
  }

  lemma WakeKeeps(c: Config, w: World, id: Id)
    requires Inv(c, w)
    ensures Inv(c, Step(c, w, Wake(id)))
  {
    if id in w.steps && w.steps[id].Sleeping? && w.now >= w.steps[id].until {
      GotoKeeps(c, w, id, Reading(w.steps[id].stage, w.steps[id].seen));
    }
  }

  lemma StepKeeps(c: Config, w: World, e: Event)
    requires Inv(c, w)
    ensures Inv(c, Step(c, w, e))
  {
    match e
    case Write(file) => WriteKeeps(c, w, file);
    case Tick(dt) => TickKeeps(c, w, dt);
    case Call(id) => CallKeeps(c, w, id);
    case Look(id) => LookKeeps(c, w, id);
    case Resume(id, plan, applyFails) => ResumeKeeps(c, w, id, plan, applyFails);
    case Wake(id) => WakeKeeps(c, w, id);
  }

  /** Under every interleaving: one step past the guard, only sound repairs, a cooldown apart. */
  lemma {:induction false} EveryInterleavingIsSafe(c: Config, file: Option<string>, now: nat, events: seq<Event>)
    ensures Inv(c, Run(c, file, now, events))
  {
    if events != [] {
      EveryInterleavingIsSafe(c, file, now, events[..|events| - 1]);
      StepKeeps(c, Run(c, file, now, events[..|events| - 1]), events[|events| - 1]);
    }
  }

  // ---- How a step ends ----

  /** A step is past the guard. */
  ghost predicate Busy(w: World) {
    exists k :: k in w.steps && !Stopped(w.steps[k])
  }

  /** Why a call is turned away at the guard. */
  ghost predicate TurnsAway(c: Config, w: World, o: Outcome) {
    match o
    case InFlight => Busy(w)
    case Cooldown => !Busy(w) && w.now - w.lastRepairAt < c.cooldown
    case _ => false
  }

  /** The latest text is invalid, and is what the look before it saw. */
  predicate Unchanged(c: Config, seen: seq<Sample>) {
    |seen| >= 2 && BadText(c, seen[|seen| - 1]) && seen[|seen| - 1].text == seen[|seen| - 2].text
  }

  /** Why a step ends behind a look, from all it has seen: the file is gone, or valid at the first look
      or at a later one; it changed between the second and the third gated look, or before the last one;
      or the planner or the replacement has its say on a text that stood still. */
  ghost predicate Ends(c: Config, stage: Stage, seen: seq<Sample>, plan: PlanResult, applyFails: bool, o: Outcome)
    requires seen != []
  {
    var last := seen[|seen| - 1];
    match o
    case Missing => last.text.None?
    case Healthy => last.text.Some? && c.parses(last.text.value) && |seen| == 1
    case HealedExternally => last.text.Some? && c.parses(last.text.value) && |seen| >= 2
    case Churning => BadText(c, last) && |seen| >= 3 && !Unchanged(c, seen)
    case NotRepairable => Unchanged(c, seen) && !stage.Final? && plan == NoRepair
    case Threw => Unchanged(c, seen) && if stage.Final? then applyFails else plan == LoadFails
    case Repaired => Unchanged(c, seen) && stage.Final? && !applyFails
    case _ => false
  }

  /** Why a step waits for another look: at the first invalid text, and once more if that has changed. */
  ghost predicate Waits(c: Config, seen: seq<Sample>) {
    (|seen| == 1 && BadText(c, seen[0])) || (|seen| == 2 && BadText(c, seen[1]) && !Unchanged(c, seen))
  }

  /** A call whose guard lets it in reads first; otherwise it is turned away for its cause. */
  lemma CallExactly(c: Config, w: World, id: Id)
    requires Inv(c, w) && id !in w.steps
    ensures
      var v := Step(c, w, Call(id));
      && id in v.steps
      && match v.steps[id]
         case Reading(stage, seen) => stage == First && seen == [] && !Busy(w) && w.now - w.lastRepairAt >= c.cooldown
         case Finished(o) => TurnsAway(c, w, o)
         case _ => false
  {
  }

  /** Main result. What a step does behind a look, in every reachable state: it ends for exactly one
      cause, waits a gate interval for another look, or goes on to the last look with what the planner
      made of a text that stood still. */
  lemma ResumeExactly(c: Config, w: World, id: Id, plan: PlanResult, applyFails: bool)
    requires Inv(c, w) && id in w.steps && w.steps[id].Sampled? && SoundPlan(c, plan)
    ensures
      var stage, seen := w.steps[id].stage, w.steps[id].seen;
      var v := Step(c, w, Resume(id, plan, applyFails));
      && seen != [] && id in v.steps
      && match v.steps[id]
         case Finished(o) => Ends(c, stage, seen, plan, applyFails, o)
         case Sleeping(next, kept, until) =>
           Waits(c, seen) && kept == seen && until == w.now + c.gate && next == if |seen| == 1 then Second else Third
         case Reading(next, kept) =>
           Unchanged(c, seen) && !stage.Final? && plan.Planned? && next == Final(plan.content) && kept == seen
         case Sampled(_, _) => false
  {
    var seen := w.steps[id].seen;
    assert PcOk(c, w.steps[id], w.now);
    if |seen| >= 2 {
      assert seen[..|seen| - 1][|seen| - 2] == seen[|seen| - 2];
    }
  }

  /** The event that ended a step. */
  ghost predicate EndedBy(c: Config, w: World, e: Event, id: Id, o: Outcome) {
    || (e == Call(id) && TurnsAway(c, w, o))
    || (e.Resume? && e.id == id && id in w.steps && w.steps[id].Sampled? && w.steps[id].seen != []
        && Ends(c, w.steps[id].stage, w.steps[id].seen, e.plan, e.applyFails, o))
  }

  lemma StepEnds(c: Config, w: World, e: Event, id: Id)
    requires Inv(c, w) && !(id in w.steps && w.steps[id].Finished?)
    requires id in Step(c, w, e).steps && Step(c, w, e).steps[id].Finished?
    ensures EndedBy(c, w, e, id, Step(c, w, e).steps[id].outcome)
  {
    if e.Call? {
      CallExactly(c, w, id);
    } else if e.Resume? && e.id in w.steps && w.steps[e.id].Sampled? && SoundPlan(c, e.plan) {
      ContinueCases(c, w, e.id, w.steps[e.id].stage, w.steps[e.id].seen, e.plan, e.applyFails);
      assert id == e.id;
      ResumeExactly(c, w, id, e.plan, e.applyFails);
    }
  }

  lemma EndStays(c: Config, w: World, e: Event, id: Id)
    requires Inv(c, w) && id in w.steps && w.steps[id].Finished?
    ensures id in Step(c, w, e).steps && Step(c, w, e).steps[id] == w.steps[id]
  {
    if e.Resume? && e.id in w.steps && w.steps[e.id].Sampled? && SoundPlan(c, e.plan) {
      ContinueCases(c, w, e.id, w.steps[e.id].stage, w.steps[e.id].seen, e.plan, e.applyFails);
    }
  }

  /** Over every run: each outcome of a step has its cause, in what the step had seen when it ended. */
  lemma {:induction false} EveryOutcomeHasItsCause(c: Config, file: Option<string>, now: nat, events: seq<Event>,
      id: Id)
      returns (r: nat)
    requires id in Run(c, file, now, events).steps && Run(c, file, now, events).steps[id].Finished?
    ensures r < |events|
    ensures EndedBy(c, Run(c, file, now, events[..r]), events[r], id, Run(c, file, now, events).steps[id].outcome)
  {
    var n := |events| - 1;
    var w := Run(c, file, now, events[..n]);
    EveryInterleavingIsSafe(c, file, now, events[..n]);
    if id in w.steps && w.steps[id].Finished? {
      EndStays(c, w, events[n], id);
      r := EveryOutcomeHasItsCause(c, file, now, events[..n], id);
      assert events[..n][..r] == events[..r];
    } else {
      StepEnds(c, w, events[n], id);
      r := n;
    }
  }

  // ---- The window that stays open ----

  const EXAMPLE := Config(s => s == "{}", 10, 5)

  /** One step on the way to repairing "{" to "{}": its first look, its second, and its last. */
  function FirstLook(): World {
    Step(EXAMPLE, Step(EXAMPLE, Start(Some("{"), 10), Call(0)), Look(0))
  }

  function SecondLook(): World {
    var asleep := Step(EXAMPLE, FirstLook(), Resume(0, NoRepair, false));
    Step(EXAMPLE, Step(EXAMPLE, Step(EXAMPLE, asleep, Tick(5)), Wake(0)), Look(0))
  }

  function LastLook(): World {
    Step(EXAMPLE, Step(EXAMPLE, SecondLook(), Resume(0, Planned("{}"), false)), Look(0))
  }

  lemma FirstLookIs()
    ensures FirstLook() == World(Some("{"), 10, true, 0, map[0 := Sampled(First, [Sample(Some("{"), 10)])], [], false)
  {
    assert [] + [Sample(Some("{"), 10)] == [Sample(Some("{"), 10)];
  }

  lemma SecondLookIs()
    ensures SecondLook() == World(Some("{"), 15, true, 0,
                                  map[0 := Sampled(Second, [Sample(Some("{"), 10), Sample(Some("{"), 15)])], [], false)
  {
    FirstLookIs();
    assert [Sample(Some("{"), 10)] + [Sample(Some("{"), 15)] == [Sample(Some("{"), 10), Sample(Some("{"), 15)];
  }

  lemma LastLookIs()
    ensures LastLook() == World(Some("{"), 15, true, 0,
                                map[0 := Sampled(Final("{}"), [Sample(Some("{"), 10), Sample(Some("{"), 15),
                                                               Sample(Some("{"), 15)])], [], false)
  {
    SecondLookIs();
    assert [Sample(Some("{"), 10), Sample(Some("{"), 15)] + [Sample(Some("{"), 15)]
        == [Sample(Some("{"), 10), Sample(Some("{"), 15), Sample(Some("{"), 15)];
  }

  /** The external writer wrote to the file. */
  predicate Writes(events: seq<Event>) {
    exists k :: 0 <= k < |events| && events[k].Write?
  }

  /** What the file holds after the writes, if it held `file` before them. */
  function Written(events: seq<Event>, file: Option<string>): Option<string> {
    if events == [] then file
    else if events[|events| - 1].Write? then events[|events| - 1].file
    else Written(events[..|events| - 1], file)
  }

  lemma WritesMore(events: seq<Event>, e: Event, file: Option<string>)
    ensures Writes(events + [e]) <==> Writes(events) || e.Write?
    ensures Written(events + [e], file) == if e.Write? then e.file else Written(events, file)
  {
    var all := events + [e];
    assert all[..|events|] == events && all[|events|] == e;
    if Writes(events) {
      var k :| 0 <= k < |events| && events[k].Write?;
      assert all[k].Write?;
    }
  }

  /** The look of step `id` that its text comes from is event `l` of the run: since then the file has
      changed, and is marked as changed, by the external writer's events and by nothing else. */
  ghost predicate LookedAt(c: Config, file: Option<string>, now: nat, events: seq<Event>, id: Id,
      seen: seq<Sample>, l: nat) {
    && l < |events| && events[l] == Look(id) && seen != []
    && Run(c, file, now, events[..l]).file == Last(seen).text
    && (Run(c, file, now, events).raced <==> Writes(events[l + 1..]))
    && Run(c, file, now, events).file == Written(events[l + 1..], Last(seen).text)
  }

  /** While a step holds a sample, no other step is past the guard and only the writer changes the file. */
  lemma SampledStep(c: Config, w: World, id: Id, e: Event)
    requires Inv(c, w) && id in w.steps && w.steps[id].Sampled?
    requires id in Step(c, w, e).steps && Step(c, w, e).steps[id].Sampled?
    ensures Step(c, w, e).steps[id] == w.steps[id]
    ensures Step(c, w, e).file == if e.Write? then e.file else w.file
    ensures Step(c, w, e).raced == (w.raced || e.Write?)
  {
    assert !Stopped(w.steps[id]);
    match e
    case Look(k) => assert k in w.steps && w.steps[k].Reading? ==> k == id;
    case Resume(k, plan, applyFails) =>
      if k == id && SoundPlan(c, plan) {
        ContinuedIsNotSampled(c, w, id, plan, applyFails);
      }
    case _ =>
  }

  lemma ContinuedIsNotSampled(c: Config, w: World, id: Id, plan: PlanResult, applyFails: bool)
    requires Inv(c, w) && id in w.steps && w.steps[id].Sampled? && SoundPlan(c, plan)
    ensures id in Step(c, w, Resume(id, plan, applyFails)).steps
    ensures !Step(c, w, Resume(id, plan, applyFails)).steps[id].Sampled?
  {
    ContinueCases(c, w, id, w.steps[id].stage, w.steps[id].seen, plan, applyFails);
  }

  lemma BecomesSampled(c: Config, w: World, id: Id, e: Event)
    requires !(id in w.steps && w.steps[id].Sampled?)
    requires id in Step(c, w, e).steps && Step(c, w, e).steps[id].Sampled?
    ensures e == Look(id) && id in w.steps && w.steps[id].Reading?
  {
  }

  lemma LookedAtLater(c: Config, file: Option<string>, now: nat, events: seq<Event>, id: Id, seen: seq<Sample>, l: nat)
    requires events != [] && LookedAt(c, file, now, events[..|events| - 1], id, seen, l)
    requires
      var w, e := Run(c, file, now, events[..|events| - 1]), events[|events| - 1];
      && Step(c, w, e).file == (if e.Write? then e.file else w.file)
      && Step(c, w, e).raced == (w.raced || e.Write?)
    ensures LookedAt(c, file, now, events, id, seen, l)
  {
    var front, e := events[..|events| - 1], events[|events| - 1];
    assert front[..l] == events[..l];
    assert events[l + 1..] == front[l + 1..] + [e];
    WritesMore(front[l + 1..], e, Last(seen).text);
  }

  lemma LookedAtNow(c: Config, file: Option<string>, now: nat, events: seq<Event>, id: Id)
    requires events != [] && events[|events| - 1] == Look(id)
    requires
      var w := Run(c, file, now, events[..|events| - 1]);
      id in w.steps && w.steps[id].Reading?
    ensures id in Run(c, file, now, events).steps && Run(c, file, now, events).steps[id].Sampled?
    ensures LookedAt(c, file, now, events, id, Run(c, file, now, events).steps[id].seen, |events| - 1)
  {
    assert events[|events|..] == [];
  }

  /** Every sample a step holds was taken by a look of its own in this run. */
  lemma {:induction false} SampleWasTaken(c: Config, file: Option<string>, now: nat, events: seq<Event>,
      id: Id) returns (l: nat)
    requires id in Run(c, file, now, events).steps && Run(c, file, now, events).steps[id].Sampled?
    ensures LookedAt(c, file, now, events, id, Run(c, file, now, events).steps[id].seen, l)
  {
    var front, e := events[..|events| - 1], events[|events| - 1];
    var w := Run(c, file, now, front);
    EveryInterleavingIsSafe(c, file, now, front);
    if id in w.steps && w.steps[id].Sampled? {
      l := SampleWasTaken(c, file, now, front, id);
      SampledStep(c, w, id, e);
      LookedAtLater(c, file, now, events, id, w.steps[id].seen, l);
    } else {
      BecomesSampled(c, w, id, e);
      LookedAtNow(c, file, now, events, id);
      l := |front|;
    }
  }

  lemma AppliedByResume(c: Config, w: World, e: Event)
    requires Inv(c, w) && Step(c, w, e).applied != w.applied
    ensures e.Resume? && e.id in w.steps && w.steps[e.id].Sampled? && w.steps[e.id].seen != []
    ensures
      var seen, after := w.steps[e.id].seen, Step(c, w, e);
      && |after.applied| == |w.applied| + 1 && after.applied[..|w.applied|] == w.applied
      && Last(seen).text.Some? && after.file == Some(after.applied[|w.applied|].content)
      && after.applied[|w.applied|] == Applied(Last(seen).text.value, after.applied[|w.applied|].content, w.now, seen, w.file, w.raced)
  {
  }

  /** What is known of the repair applied by event `r`, whose last look was event `l`: it was raced if
      and only if the writer wrote between the two, and what it replaced is what the writer left, or
      the text it looked at if there was no write. Its own content is what the file then holds, so a
      write is lost if and only if it falls between the last look and the replacement. */
  ghost predicate LostExactly(c: Config, file: Option<string>, now: nat, events: seq<Event>, a: Applied, l: nat,
      r: nat) {
    && l < r < |events| && events[r].Resume? && events[l] == Look(events[r].id)
    && Run(c, file, now, events[..l]).file == Some(a.text)
    && (a.raced <==> Writes(events[l + 1..r]))
    && a.replaced == Written(events[l + 1..r], Some(a.text))
    && Run(c, file, now, events[..r + 1]).file == Some(a.content)
  }

  /** Repairs are only ever added, one a step. */
  lemma RepairsGrow(c: Config, w: World, e: Event)
    requires Inv(c, w)
    ensures Step(c, w, e).applied == w.applied
      || (|Step(c, w, e).applied| == |w.applied| + 1 && Step(c, w, e).applied[..|w.applied|] == w.applied)
  {
    if Step(c, w, e).applied != w.applied {
      AppliedByResume(c, w, e);
    }
  }

  lemma EarlierRepairStays(c: Config, file: Option<string>, now: nat, events: seq<Event>, i: nat)
    requires events != [] && i < |Run(c, file, now, events[..|events| - 1]).applied|
    ensures i < |Run(c, file, now, events).applied|
    ensures Run(c, file, now, events).applied[i] == Run(c, file, now, events[..|events| - 1]).applied[i]
  {
    var w := Run(c, file, now, events[..|events| - 1]);
    EveryInterleavingIsSafe(c, file, now, events[..|events| - 1]);
    RepairsGrow(c, w, events[|events| - 1]);
    assert Run(c, file, now, events).applied[..|w.applied|] == w.applied;
  }

  /** Main result. Every repair of every run loses exactly the writes between its last look and its
      replacement. */
  lemma {:induction false} WritesAreLostExactlyBehindTheLastLook(c: Config, file: Option<string>, now: nat,
                                                                 events: seq<Event>, i: nat)
      returns (l: nat, r: nat)
    requires i < |Run(c, file, now, events).applied|
    ensures LostExactly(c, file, now, events, Run(c, file, now, events).applied[i], l, r)
    decreases |events|
  {
    NoRepairYet(c, file, now, events);
    var front := events[..|events| - 1];
    if i < |Run(c, file, now, front).applied| {
      l, r := WritesAreLostExactlyBehindTheLastLook(c, file, now, front, i);
      EarlierRepairStays(c, file, now, events, i);
      LostExactlyLater(c, file, now, events, Run(c, file, now, front).applied[i], l, r);
    } else {
      l, r := LatestRepairLoses(c, file, now, events, i);
    }
  }

  /** The repair the last event applied. */
  ghost predicate IsLatest(w: World, after: World, e: Event, a: Applied) {
    && e.Resume? && e.id in w.steps && w.steps[e.id].Sampled? && w.steps[e.id].seen != []
    && Last(w.steps[e.id].seen).text == Some(a.text) && a.raced == w.raced && a.replaced == w.file
    && after.file == Some(a.content)
  }

  lemma LatestRepairIs(c: Config, w: World, e: Event, i: nat)
    requires Inv(c, w) && |w.applied| <= i < |Step(c, w, e).applied|
    ensures IsLatest(w, Step(c, w, e), e, Step(c, w, e).applied[i])
  {
    AppliedByResume(c, w, e);
  }

  lemma LatestRepairLoses(c: Config, file: Option<string>, now: nat, events: seq<Event>, i: nat) returns (l: nat,
      r: nat)
    requires events != [] && |Run(c, file, now, events[..|events| - 1]).applied| <= i < |Run(c, file, now, events).applied|
    ensures LostExactly(c, file, now, events, Run(c, file, now, events).applied[i], l, r)
  {
    var front, e := events[..|events| - 1], events[|events| - 1];
    var w := Run(c, file, now, front);
    EveryInterleavingIsSafe(c, file, now, front);
    LatestRepairIs(c, w, e, i);
    l := SampleWasTaken(c, file, now, front, e.id);
    r := |front|;
    LostExactlyNow(c, file, now, events, w.steps[e.id].seen, Run(c, file, now, events).applied[i], l);
  }

  lemma NoRepairYet(c: Config, file: Option<string>, now: nat, events: seq<Event>)
    ensures events == [] ==> Run(c, file, now, events).applied == []
  {
  }

  lemma LostExactlyNow(c: Config, file: Option<string>, now: nat, events: seq<Event>, seen: seq<Sample>,
      a: Applied, l: nat)
    requires events != [] && events[|events| - 1].Resume?
    requires LookedAt(c, file, now, events[..|events| - 1], events[|events| - 1].id, seen, l)
    requires
      var w := Run(c, file, now, events[..|events| - 1]);
      && Last(seen).text == Some(a.text) && a.raced == w.raced && a.replaced == w.file
      && Run(c, file, now, events).file == Some(a.content)
    ensures LostExactly(c, file, now, events, a, l, |events| - 1)
  {
    var front := events[..|events| - 1];
    assert events[..l] == front[..l] && events[l + 1..|front|] == front[l + 1..];
    assert events[..|front| + 1] == events;
  }

  lemma LostExactlyLater(c: Config, file: Option<string>, now: nat, events: seq<Event>, a: Applied, l: nat, r: nat)
    requires events != [] && LostExactly(c, file, now, events[..|events| - 1], a, l, r)
    ensures LostExactly(c, file, now, events, a, l, r)
  {
    var front := events[..|events| - 1];
    assert front[..l] == events[..l] && front[..r + 1] == events[..r + 1] && front[l + 1..r] == events[l + 1..r];
  }

  /** What happens to a world from here on. */
  function Later(c: Config, w: World, events: seq<Event>): World {
    if events == [] then w else Step(c, Later(c, w, events[..|events| - 1]), events[|events| - 1])
  }

  /** Step `id` is not resumed. */
  predicate Unresumed(events: seq<Event>, id: Id) {
    forall k :: 0 <= k < |events| ==> !(events[k].Resume? && events[k].id == id)
  }

  lemma {:induction false} SampleStays(c: Config, w: World, id: Id, events: seq<Event>)
    requires Inv(c, w) && id in w.steps && w.steps[id].Sampled? && Unresumed(events, id)
    ensures
      var v := Later(c, w, events);
      && Inv(c, v) && id in v.steps && v.steps[id] == w.steps[id]
      && v.raced == (w.raced || Writes(events)) && v.file == Written(events, w.file)
  {
    if events != [] {
      var front, e := events[..|events| - 1], events[|events| - 1];
      assert events == front + [e];
      SampleStays(c, w, id, front);
      StepKeeps(c, Later(c, w, front), e);
      SampledUnlessResumed(c, Later(c, w, front), id, e);
      SampledStep(c, Later(c, w, front), id, e);
      WritesMore(front, e, w.file);
    }
  }

  lemma SampledUnlessResumed(c: Config, w: World, id: Id, e: Event)
    requires Inv(c, w) && id in w.steps && w.steps[id].Sampled? && !(e.Resume? && e.id == id)
    ensures id in Step(c, w, e).steps && Step(c, w, e).steps[id].Sampled?
  {
    assert !Stopped(w.steps[id]);
  }

  /** The last look found the text unchanged and the step holds that sample: whatever happens before it
      is resumed, it repairs. The repair is raced exactly if the writer wrote in between, and replaces
      what the writer left. */
  lemma RepairGoesAhead(c: Config, w: World, id: Id, content: string, seen: seq<Sample>, between: seq<Event>)
    requires Inv(c, w) && id in w.steps && w.steps[id] == Sampled(Final(content), seen) && !w.raced
    requires |seen| >= 2 && BadText(c, Last(seen)) && seen[|seen| - 2].text == Last(seen).text
    requires Unresumed(between, id)
    ensures
      var late := Later(c, w, between);
      var after := Step(c, late, Resume(id, NoRepair, false));
      && |after.applied| == |late.applied| + 1 && after.file == Some(content)
      && var a := after.applied[|late.applied|];
         && Some(a.text) == Last(seen).text && a.content == content
         && (a.raced <==> Writes(between)) && a.replaced == Written(between, Some(a.text))
  {
    SampleStays(c, w, id, between);
  }

  /** The compare-before-write read narrows the race but does not close it: a writer that puts the
      file right between that read and the replacement is overwritten. */
  lemma CompareBeforeWriteCanLoseAWrite()
    ensures var fixed := Step(EXAMPLE, LastLook(), Write(Some("{}")));
            var w := Step(EXAMPLE, fixed, Resume(0, NoRepair, false));
            && EXAMPLE.parses(fixed.file.value)
            && |w.applied| == 1 && w.applied[0].text == "{" && w.applied[0].replaced == fixed.file
  {
    LastLookIs();
  }

  /** The steps of one pass over a file nobody else touches. */
  function FirstRead(c: Config, w: World, id: Id): World {
    Step(c, Step(c, Step(c, w, Call(id)), Look(id)), Resume(id, NoRepair, false))
  }

  function SecondRead(c: Config, w: World, id: Id, content: string): World {
    Step(c, Step(c, Step(c, Step(c, w, Tick(c.gate)), Wake(id)), Look(id)), Resume(id, Planned(content), false))
  }

  function FinalRead(c: Config, w: World, id: Id): World {
    Step(c, Step(c, w, Look(id)), Resume(id, NoRepair, false))
  }

  lemma FirstReadSleeps(c: Config, w: World, id: Id)
    requires id !in w.steps && !w.inFlight && w.lastRepairAt + c.cooldown <= w.now
    requires w.file.Some? && !c.parses(w.file.value)
    ensures
      var seen := [Sample(w.file, w.now)];
      FirstRead(c, w, id) == w.(inFlight := true, raced := false,
                                steps := w.steps[id := Sleeping(Second, seen, w.now + c.gate)])
  {
    assert [] + [Sample(w.file, w.now)] == [Sample(w.file, w.now)];
  }

  lemma SecondReadPlans(c: Config, w: World, id: Id, s: Sample, content: string)
    requires id in w.steps && w.steps[id] == Sleeping(Second, [s], w.now + c.gate)
    requires s.text == w.file && w.file.Some? && !c.parses(w.file.value) && c.parses(content)
    ensures
      var seen := [s] + [Sample(w.file, w.now + c.gate)];
      SecondRead(c, w, id, content) == w.(now := w.now + c.gate, raced := false,
                                          steps := w.steps[id := Reading(Final(content), seen)])
  {
    var seen := [s] + [Sample(w.file, w.now + c.gate)];
    assert Last(seen) == Sample(w.file, w.now + c.gate) && seen[|seen| - 2] == s;
  }

  lemma FinalReadRepairs(c: Config, w: World, id: Id, seen: seq<Sample>, content: string)
    requires id in w.steps && w.steps[id] == Reading(Final(content), seen)
    requires seen != [] && Last(seen).text == w.file && w.file.Some? && !c.parses(w.file.value)
    ensures
      var after := FinalRead(c, w, id);
      && after.file == Some(content) && after.steps[id] == Finished(Repaired) && !after.inFlight
      && |after.applied| == |w.applied| + 1 && after.lastRepairAt == w.now
  {
    var all := seen + [Sample(w.file, w.now)];
    assert Last(all) == Sample(w.file, w.now) && all[|all| - 2] == Last(seen);
  }

  /** A corrupt file that nobody touches is repaired by one pass, if the planner has a repair. */
  lemma StableFileIsRepaired(c: Config, w: World, id: Id, content: string)
    requires id !in w.steps && !w.inFlight && w.lastRepairAt + c.cooldown <= w.now
    requires w.file.Some? && !c.parses(w.file.value) && c.parses(content)
    ensures
      var after := FinalRead(c, SecondRead(c, FirstRead(c, w, id), id, content), id);
      && after.file == Some(content) && id in after.steps && after.steps[id] == Finished(Repaired)
      && !after.inFlight && after.lastRepairAt == w.now + c.gate
  {
    FirstReadSleeps(c, w, id);
    var first := FirstRead(c, w, id);
    SecondReadPlans(c, first, id, Sample(w.file, w.now), content);
    var second := SecondRead(c, first, id, content);
    FinalReadRepairs(c, second, id, second.steps[id].seen, content);
  }

  // ---- The step as code ----

  /** The watcher's state, with the file, the clock and the suspended steps it runs among. */
  class Watcher {
    const config: Config
    var inFlight: bool
    var lastRepairAt: nat
    var steps: map<Id, Pc>
    ghost var applied: seq<Applied>
    var file: Option<string>
    var now: nat
    ghost var raced: bool

    ghost function State(): World
      reads this
    {
      World(file, now, inFlight, lastRepairAt, steps, applied, raced)
    }

    ghost predicate Valid()
      reads this
    {
      Inv(config, State())
    }

    constructor (config: Config, file: Option<string>, now: nat)
      ensures Valid() && this.config == config && State() == Start(file, now)
    {
      this.config, this.file, this.now := config, file, now;
      inFlight, lastRepairAt, steps, applied, raced := false, 0, map[], [], false;
    }

    /** A poll or a watch event: the guard, then the first await. */
    method Begin(id: Id)
      requires Valid()
      modifies this
      ensures Valid() && State() == Step(config, old(State()), Call(id))
    {
      CallKeeps(config, State(), id);
      if id in steps { return; }
      if inFlight { steps := steps[id := Finished(InFlight)]; return; }
      if now - lastRepairAt < config.cooldown { steps := steps[id := Finished(Cooldown)]; return; }
      inFlight := true;
      steps := steps[id := Reading(First, [])];
    }

    /** The file system answers a read. */
    method Observe(id: Id)
      requires Valid()
      modifies this
      ensures Valid() && State() == Step(config, old(State()), Look(id))
    {
      LookKeeps(config, State(), id);
      ghost var next := Step(config, State(), Look(id));
      if id in steps && steps[id].Reading? {
        steps := steps[id := Sampled(steps[id].stage, steps[id].seen + [Sample(file, now)])];
        raced := false;
      }
      assert State() == next;
    }

    method Release(id: Id, o: Outcome)
      modifies this`inFlight, this`steps
      ensures State() == Finish(old(State()), id, o)
    {
      inFlight := false;
      steps := steps[id := Finished(o)];
    }

    /** The code between a read and the next await, for every stage. */
    method Proceed(id: Id, stage: Stage, seen: seq<Sample>, plan: PlanResult, applyFails: bool)
      requires seen != [] && id in steps
      modifies this`inFlight, this`steps, this`file, this`lastRepairAt, this`applied
      ensures State() == Continue(config, old(State()), id, stage, seen, plan, applyFails)
    {
      var text := seen[|seen| - 1].text;
      if text.None? { Release(id, Missing); return; }
      if config.parses(text.value) {
        Release(id, if stage == First then Healthy else HealedExternally);
        return;
      }
      if stage == First {
        steps := steps[id := Sleeping(Second, seen, now + config.gate)];
        return;
      }
      if |seen| < 2 { return; }
      var same := text == seen[|seen| - 2].text;
      if stage == Second && !same {
        steps := steps[id := Sleeping(Third, seen, now + config.gate)];
      } else if !same {
        Release(id, Churning);
      } else if !stage.Final? {
        match plan {
          case NoRepair => Release(id, NotRepairable);
          case LoadFails => Release(id, Threw);
          case Planned(content) => steps := steps[id := Reading(Final(content), seen)];
        }
      } else if applyFails {
        Release(id, Threw);
      } else {
        applied := applied + [Applied(text.value, stage.content, now, seen, file, raced)];
        file := Some(stage.content);
        lastRepairAt := now;
        Release(id, Repaired);
      }
    }

    /** A suspended read returns to the step. */
    method Return(id: Id, plan: PlanResult, applyFails: bool)
      requires Valid() && SoundPlan(config, plan)
      requires id in steps && steps[id].Sampled? && steps[id].seen != []
      modifies this
      ensures Valid() && State() == Step(config, old(State()), Resume(id, plan, applyFails))
    {
      ResumeKeeps(config, State(), id, plan, applyFails);
      Proceed(id, steps[id].stage, steps[id].seen, plan, applyFails);
    }
  }
}
