/** The shared kernel manager: asynchronous initialisation guarded by a generation counter, against
    disposal at any moment. Starting the server, the manager becoming ready and the clean-up of an
    initialisation are separate steps, so every interleaving of them with calls is a run. */
module KernelClient {
  import opened Prelude

  /** How far one initialisation has come: waiting for the server, waiting for the manager it
      created, finished but not yet cleaned up, over. */
  datatype Phase = AwaitServer | AwaitReady(manager: nat) | Settled | Over

  datatype Init = Init(generation: nat, phase: Phase)

  /** The module's three variables, the initialisations begun so far, which of them created each
      manager, and how often each manager has been disposed. */
  datatype Client = Client(
    generation: nat,
    manager: Option<nat>,
    initPromise: Option<nat>,
    inits: seq<Init>,
    makers: seq<nat>,
    disposed: multiset<nat>)

  datatype Outcome = Success | Failure

  datatype Event =
    | Ensure
    | ServerAnswers(init: nat, outcome: Outcome)
    | ManagerReady(init: nat, outcome: Outcome)
    | CleanUp(init: nat)
    | Dispose

  const FRESH := Client(0, None, None, [], [], multiset{})

  // ---- One step ----

  function WithPhase(c: Client, i: nat, phase: Phase): Client
    requires i < |c.inits|
  {
    c.(inits := c.inits[i := c.inits[i].(phase := phase)])
  }

  function Disposed(c: Client, m: nat): Client {
    c.(disposed := c.disposed + multiset{m})
  }

  function Step(c: Client, e: Event): Client {
    match e
    case Ensure =>
      if c.manager.Some? || c.initPromise.Some? then c
      else c.(inits := c.inits + [Init(c.generation, AwaitServer)], initPromise := Some(|c.inits|))
    case ServerAnswers(i, outcome) =>
      if i >= |c.inits| || c.inits[i].phase != AwaitServer then c
      else if outcome == Failure then WithPhase(c, i, Settled)
      else WithPhase(c, i, AwaitReady(|c.makers|)).(makers := c.makers + [i])
    case ManagerReady(i, outcome) =>
      if i >= |c.inits| || !c.inits[i].phase.AwaitReady? then c
      else
        var m := c.inits[i].phase.manager;
        var settled := WithPhase(c, i, Settled);
        if outcome == Failure || c.inits[i].generation != c.generation then Disposed(settled, m)
        else settled.(manager := Some(m))
    case CleanUp(i) =>
      if i >= |c.inits| || c.inits[i].phase != Settled then c
      else
        var over := WithPhase(c, i, Over);
        if c.initPromise == Some(i) then over.(initPromise := None) else over
    case Dispose =>
      var next := c.(generation := c.generation + 1, initPromise := None, manager := None);
      if c.manager.Some? then Disposed(next, c.manager.value) else next
  }

  function Run(c: Client, events: seq<Event>): Client
    decreases |events|
  {
    if events == [] then c else Run(Step(c, events[0]), events[1..])
  }

  // ---- What every step keeps ----

  predicate Running(c: Client, i: nat)
    requires i < |c.inits|
  {
    c.inits[i].phase.AwaitServer? || c.inits[i].phase.AwaitReady?
  }

  predicate RunningNow(c: Client, i: nat) {
    i < |c.inits| && c.inits[i].generation == c.generation && Running(c, i)
  }

  /** A running initialisation of the current generation is the one the module waits for, and no
      manager is installed meanwhile. */
  ghost predicate OneRunning(c: Client) {
    forall i :: 0 <= i < |c.inits| ==>
      && c.inits[i].generation <= c.generation
      && (c.inits[i].generation == c.generation && Running(c, i) ==> c.initPromise == Some(i) && c.manager.None?)
  }

  predicate PromiseIsCurrent(c: Client) {
    c.initPromise.Some? ==>
      && c.initPromise.value < |c.inits|
      && c.inits[c.initPromise.value].generation == c.generation
      && c.inits[c.initPromise.value].phase != Over
  }

  /** The installed manager was created by an initialisation of the current generation. */
  predicate ManagerIsCurrent(c: Client) {
    c.manager.Some? ==>
      && c.manager.value < |c.makers|
      && c.makers[c.manager.value] < |c.inits|
      && c.inits[c.makers[c.manager.value]].generation == c.generation
  }

  predicate Initialising(c: Client, m: nat)
    requires m < |c.makers|
  {
    c.makers[m] < |c.inits| && c.inits[c.makers[m]].phase == AwaitReady(m)
  }

  /** In how many places a manager is: being initialised, installed, or disposed. */
  function Places(c: Client, m: nat): nat
    requires m < |c.makers|
  {
    (if Initialising(c, m) then 1 else 0) + (if c.manager == Some(m) then 1 else 0) + c.disposed[m]
  }

  /** Every manager ever created is in exactly one place, and a manager being waited for was created
      by the initialisation that waits. */
  ghost predicate EachInOnePlace(c: Client) {
    && (forall m :: 0 <= m < |c.makers| ==> c.makers[m] < |c.inits| && Places(c, m) == 1)
    && (forall m :: m in c.disposed ==> m < |c.makers|)
    && (forall i :: 0 <= i < |c.inits| && c.inits[i].phase.AwaitReady? ==>
        c.inits[i].phase.manager < |c.makers| && c.makers[c.inits[i].phase.manager] == i)
  }

  ghost predicate Inv(c: Client) {
    OneRunning(c) && PromiseIsCurrent(c) && ManagerIsCurrent(c) && EachInOnePlace(c)
  }

  lemma EnsureKeeps(c: Client)
    requires Inv(c)
    ensures Inv(Step(c, Ensure))
  {
    var next := Step(c, Ensure);
    if next != c {
      forall m | 0 <= m < |next.makers|
        ensures next.makers[m] < |next.inits| && Places(next, m) == 1
      {
        assert Places(c, m) == 1;
      }
    }
  }

  lemma ServerAnswersKeeps(c: Client, i: nat, outcome: Outcome)
    requires Inv(c)
    ensures Inv(Step(c, ServerAnswers(i, outcome)))
  {
    var next := Step(c, ServerAnswers(i, outcome));
    if next != c {
      assert Running(c, i);
      forall m | 0 <= m < |next.makers|
        ensures next.makers[m] < |next.inits| && Places(next, m) == 1
      {
        if m < |c.makers| {
          assert Places(c, m) == 1;
        } else {
          assert c.disposed[m] == 0;
        }
      }
    }
  }

  lemma ManagerReadyKeeps(c: Client, i: nat, outcome: Outcome)
    requires Inv(c)
    ensures Inv(Step(c, ManagerReady(i, outcome)))
  {
    var next := Step(c, ManagerReady(i, outcome));
    if next != c {
      assert Running(c, i);
      forall m | 0 <= m < |next.makers|
        ensures next.makers[m] < |next.inits| && Places(next, m) == 1
      {
        assert Places(c, m) == 1;
      }
    }
  }

  lemma CleanUpKeeps(c: Client, i: nat)
    requires Inv(c)
    ensures Inv(Step(c, CleanUp(i)))
  {
    var next := Step(c, CleanUp(i));
    if next != c {
      forall m | 0 <= m < |next.makers|
        ensures next.makers[m] < |next.inits| && Places(next, m) == 1
      {
        assert Places(c, m) == 1;
      }
    }
  }

  lemma DisposeKeeps(c: Client)
    requires Inv(c)
    ensures Inv(Step(c, Dispose))
  {
    var next := Step(c, Dispose);
    forall m | 0 <= m < |next.makers|
      ensures next.makers[m] < |next.inits| && Places(next, m) == 1
    {
      assert Places(c, m) == 1;
    }
  }

  lemma StepKeeps(c: Client, e: Event)
    requires Inv(c)
    ensures Inv(Step(c, e))
  {
    match e
    case Ensure => EnsureKeeps(c);
    case ServerAnswers(i, outcome) => ServerAnswersKeeps(c, i, outcome);
    case ManagerReady(i, outcome) => ManagerReadyKeeps(c, i, outcome);
    case CleanUp(i) => CleanUpKeeps(c, i);
    case Dispose => DisposeKeeps(c);
  }

  // ---- Every run ----

  lemma {:induction false} RunKeeps(c: Client, events: seq<Event>)
    requires Inv(c)
    ensures Inv(Run(c, events))
    decreases |events|
  {
    if events != [] {
      StepKeeps(c, events[0]);
      RunKeeps(Step(c, events[0]), events[1..]);
    }
  }

  /** Main result. Whatever the interleaving: two running initialisations of the current generation
      are the same one, the installed manager is of the current generation, and every manager ever
      created is being initialised, installed, or has been disposed exactly once - only one of these. */
  lemma EveryInterleaving(events: seq<Event>)
    ensures
      var c := Run(FRESH, events);
      && (forall i, j :: RunningNow(c, i) && RunningNow(c, j) ==> i == j)
      && ManagerIsCurrent(c)
      && (forall m :: 0 <= m < |c.makers| ==> Places(c, m) == 1)
  {
    RunKeeps(FRESH, events);
  }

  /** Initialisations and managers are never forgotten, and keep their generation and their maker. */
  ghost predicate Extends(c: Client, d: Client) {
    && c.generation <= d.generation
    && |c.inits| <= |d.inits| && |c.makers| <= |d.makers|
    && (forall i :: 0 <= i < |c.inits| ==> d.inits[i].generation == c.inits[i].generation)
    && (forall m :: 0 <= m < |c.makers| ==> d.makers[m] == c.makers[m])
  }

  lemma {:induction false} RunExtends(c: Client, events: seq<Event>)
    ensures Extends(c, Run(c, events))
    decreases |events|
  {
    if events != [] {
      RunExtends(Step(c, events[0]), events[1..]);
    }
  }

  /** A manager whose initialisation began before a disposal is never installed after it. */
  lemma StaleManagerIsNeverInstalled(c: Client, i: nat, events: seq<Event>)
    requires Inv(c) && i < |c.inits| && c.inits[i].generation < c.generation
    ensures
      var d := Run(c, events);
      d.manager.Some? ==> d.manager.value < |d.makers| && d.makers[d.manager.value] != i
  {
    RunKeeps(c, events);
    RunExtends(c, events);
  }

  /** Once no initialisation is running, a disposal leaves every manager ever created disposed
      exactly once: nothing leaks and nothing is disposed twice. */
  lemma NothingLeaks(events: seq<Event>)
    ensures
      var c := Step(Run(FRESH, events), Dispose);
      (forall i :: 0 <= i < |c.inits| ==> !Running(c, i)) ==>
      (forall m :: 0 <= m < |c.makers| ==> c.disposed[m] == 1)
  {
    RunKeeps(FRESH, events);
    StepKeeps(Run(FRESH, events), Dispose);
    var c := Step(Run(FRESH, events), Dispose);
    forall m | 0 <= m < |c.makers| && forall i :: 0 <= i < |c.inits| ==> !Running(c, i)
      ensures c.disposed[m] == 1
    {
      assert Places(c, m) == 1;
      assert !Running(c, c.makers[m]);
    }
  }

  lemma InstalledStepStays(c: Client, e: Event)
    requires Inv(c) && c.manager.Some? && e != Dispose
    ensures Step(c, e).manager == c.manager && Step(c, e).generation == c.generation
    ensures |Step(c, e).inits| == |c.inits|
  {
    if e.ManagerReady? && e.init < |c.inits| && c.inits[e.init].phase.AwaitReady? {
      assert Running(c, e.init);
    }
  }

  /** Within one generation an installed manager is there to stay, and no initialisation begins. */
  lemma {:induction false} InstalledStays(c: Client, events: seq<Event>)
    requires Inv(c) && c.manager.Some? && Run(c, events).generation == c.generation
    ensures Run(c, events).manager == c.manager
    ensures |Run(c, events).inits| == |c.inits|
    decreases |events|
  {
    if events != [] {
      var next := Step(c, events[0]);
      RunExtends(next, events[1..]);
      if events[0] == Dispose {
        assert false;
      } else {
        InstalledStepStays(c, events[0]);
        StepKeeps(c, events[0]);
        InstalledStays(next, events[1..]);
      }
    }
  }

  /** Nothing in the way of initialisation `i`: no disposal, and none of its steps fails. */
  predicate Undisturbed(events: seq<Event>, i: nat) {
    Dispose !in events && ServerAnswers(i, Failure) !in events && ManagerReady(i, Failure) !in events
  }

  lemma UndisturbedStep(c: Client, i: nat, e: Event)
    requires Inv(c) && RunningNow(c, i) && Undisturbed([e], i)
    ensures
      var d := Step(c, e);
      || RunningNow(d, i)
      || (d.manager.Some? && d.manager.value < |d.makers| && d.makers[d.manager.value] == i)
  {
    assert e in [e];
  }

  /** An undisturbed initialisation of the current generation succeeds: once it is no longer running,
      the installed manager is the one it created. */
  lemma {:induction false} UndisturbedInstalls(c: Client, i: nat, events: seq<Event>)
    requires Inv(c) && RunningNow(c, i) && Undisturbed(events, i)
    ensures
      var d := Run(c, events);
      RunningNow(d, i) || (d.manager.Some? && d.manager.value < |d.makers| && d.makers[d.manager.value] == i)
    decreases |events|
  {
    if events != [] {
      var next, rest := Step(c, events[0]), events[1..];
      assert events == [events[0]] + rest;
      UndisturbedStep(c, i, events[0]);
      StepKeeps(c, events[0]);
      if RunningNow(next, i) {
        UndisturbedInstalls(next, i, rest);
      } else {
        SameGeneration(next, rest);
        InstalledStays(next, rest);
        RunExtends(next, rest);
      }
    }
  }

  lemma {:induction false} SameGeneration(c: Client, events: seq<Event>)
    requires Dispose !in events
    ensures Run(c, events).generation == c.generation
    decreases |events|
  {
    if events != [] {
      assert events[0] in events;
      SameGeneration(Step(c, events[0]), events[1..]);
    }
  }

  // ---- The end of an initialisation ----

  /** Clearing up behind a settled initialisation leaves nobody waiting for it, and touches nothing
      else: not a promise that a later call has put in its place. */
  lemma CleanUpExactly(c: Client, i: nat)
    requires i < |c.inits| && c.inits[i].phase == Settled
    ensures
      var d := Step(c, CleanUp(i));
      && d.initPromise != Some(i)
      && (c.initPromise != Some(i) ==> d.initPromise == c.initPromise)
      && (c.initPromise == Some(i) ==> d.initPromise == None)
      && d.inits == c.inits[i := Init(c.inits[i].generation, Over)]
      && d == c.(initPromise := d.initPromise, inits := d.inits)
  {
  }

  /** A failure settles the initialisation it happens to, installs nothing, and disposes the manager
      that was being waited for. */
  lemma FailureSettles(c: Client, i: nat, e: Event)
    requires Inv(c) && i < |c.inits|
    requires || (e == ServerAnswers(i, Failure) && c.inits[i].phase.AwaitServer?)
             || (e == ManagerReady(i, Failure) && c.inits[i].phase.AwaitReady?)
    ensures
      var d := Step(c, e);
      && d.inits[i].phase == Settled && d.manager == c.manager && d.makers == c.makers
      && (c.inits[i].phase.AwaitReady? ==>
          c.disposed[c.inits[i].phase.manager] == 0 && d.disposed[c.inits[i].phase.manager] == 1)
  {
    StepKeeps(c, e);
    if c.inits[i].phase.AwaitReady? {
      var m := c.inits[i].phase.manager;
      assert Places(c, m) == 1 && Initialising(c, m);
    }
  }

  /** How many of its steps an initialisation has behind it. */
  function Progress(c: Client, i: nat): nat
    requires i < |c.inits|
  {
    match c.inits[i].phase
    case AwaitServer => 0
    case AwaitReady(_) => 1
    case Settled => 2
    case Over => 3
  }

  lemma {:induction false} ProgressKeeps(c: Client, i: nat, events: seq<Event>)
    requires i < |c.inits|
    ensures i < |Run(c, events).inits| && Progress(Run(c, events), i) >= Progress(c, i)
    decreases |events|
  {
    if events != [] {
      ProgressKeeps(Step(c, events[0]), i, events[1..]);
    }
  }

  lemma {:induction false} RunOfBoth(c: Client, xs: seq<Event>, ys: seq<Event>)
    ensures Run(c, xs + ys) == Run(Run(c, xs), ys)
    decreases |xs|
  {
    if xs == [] {
      assert xs + ys == ys;
    } else {
      assert (xs + ys)[1..] == xs[1..] + ys;
      RunOfBoth(Step(c, xs[0]), xs[1..], ys);
    }
  }

  /** The server answers initialisation `i`, and later its manager is ready. */
  ghost predicate BothAnswer(events: seq<Event>, i: nat) {
    exists j, k :: 0 <= j < k < |events| && events[j] == ServerAnswers(i, Success) && events[k] == ManagerReady(i, Success)
  }

  lemma AnsweredProgress(c: Client, i: nat, events: seq<Event>, k: nat)
    requires i < |c.inits| && k < |events|
    ensures i < |Run(c, events).inits|
    ensures events[k] == ServerAnswers(i, Success) ==> Progress(Run(c, events), i) >= 1
    ensures events[k] == ManagerReady(i, Success) && Progress(c, i) >= 1 ==> Progress(Run(c, events), i) >= 2
  {
    var at := Run(c, events[..k]);
    assert events == events[..k] + [events[k]] + events[k + 1..];
    RunOfBoth(c, events[..k] + [events[k]], events[k + 1..]);
    RunOfBoth(c, events[..k], [events[k]]);
    ProgressKeeps(c, i, events[..k]);
    assert Run(at, [events[k]]) == Step(at, events[k]);
    ProgressKeeps(Step(at, events[k]), i, events[k + 1..]);
  }

  lemma BothAnswersSettle(c: Client, i: nat, events: seq<Event>)
    requires i < |c.inits| && BothAnswer(events, i)
    ensures i < |Run(c, events).inits| && Progress(Run(c, events), i) >= 2
  {
    var j, k :| 0 <= j < k < |events| && events[j] == ServerAnswers(i, Success) && events[k] == ManagerReady(i, Success);
    var first, rest := events[..j + 1], events[j + 1..];
    assert events == first + rest && rest[k - j - 1] == events[k];
    RunOfBoth(c, first, rest);
    AnsweredProgress(c, i, first, j);
    AnsweredProgress(Run(c, first), i, rest, k - j - 1);
  }

  /** An undisturbed initialisation of the current generation whose server and manager both answer
      installs the manager it created. */
  lemma AnsweredInstalls(c: Client, i: nat, events: seq<Event>)
    requires Inv(c) && RunningNow(c, i) && Undisturbed(events, i) && BothAnswer(events, i)
    ensures
      var d := Run(c, events);
      d.manager.Some? && d.manager.value < |d.makers| && d.makers[d.manager.value] == i
  {
    UndisturbedInstalls(c, i, events);
    BothAnswersSettle(c, i, events);
  }

  /** Main result. After any run: once every initialisation of the current generation is over and no
      manager is installed, the next call begins a new one, whatever became of those before it, and
      undisturbed the new one installs its manager. */
  lemma FailedIsTriedAgain(events: seq<Event>, more: seq<Event>)
    requires
      var c := Run(FRESH, events);
      c.manager.None? && forall i :: 0 <= i < |c.inits| && c.inits[i].generation == c.generation ==> c.inits[i].phase == Over
    ensures
      var c := Run(FRESH, events);
      var i, d := |c.inits|, Step(c, Ensure);
      && d.initPromise == Some(i) && d.inits == c.inits + [Init(c.generation, AwaitServer)] && RunningNow(d, i)
      && (Undisturbed(more, i) && BothAnswer(more, i) ==>
          var e := Run(d, more);
          e.manager.Some? && e.manager.value < |e.makers| && e.makers[e.manager.value] == i)
  {
    RunKeeps(FRESH, events);
    var c := Run(FRESH, events);
    EnsureKeeps(c);
    if Undisturbed(more, |c.inits|) && BothAnswer(more, |c.inits|) {
      AnsweredInstalls(Step(c, Ensure), |c.inits|, more);
    }
  }

  /** The initialisation of this manager reported it ready, and no disposal has come since. */
  ghost predicate WasReady(events: seq<Event>, i: nat) {
    exists k :: 0 <= k < |events| && events[k] == ManagerReady(i, Success) && Dispose !in events[k + 1..]
  }

  lemma WasReadyStays(events: seq<Event>, i: nat, e: Event)
    requires WasReady(events, i) && e != Dispose
    ensures WasReady(events + [e], i)
  {
    var k :| 0 <= k < |events| && events[k] == ManagerReady(i, Success) && Dispose !in events[k + 1..];
    assert (events + [e])[k] == events[k] && (events + [e])[k + 1..] == events[k + 1..] + [e];
  }

  lemma JustReady(events: seq<Event>, i: nat)
    ensures WasReady(events + [ManagerReady(i, Success)], i)
  {
    assert (events + [ManagerReady(i, Success)])[|events| + 1..] == [];
    assert (events + [ManagerReady(i, Success)])[|events|] == ManagerReady(i, Success);
  }

  lemma InstalledStep(c: Client, e: Event)
    requires Inv(c) && Step(c, e).manager.Some?
    ensures
      var d := Step(c, e);
      && d.manager.value < |d.makers|
      && ((d.manager == c.manager && e != Dispose && c.manager.value < |c.makers|
           && c.makers[c.manager.value] == d.makers[d.manager.value])
          || e == ManagerReady(d.makers[d.manager.value], Success))
  {
    StepKeeps(c, e);
  }

  /** An installed manager was reported ready by its own initialisation after the last disposal:
      one that failed, or that is still being waited for, is never handed out. */
  lemma {:induction false} InstalledWasReady(events: seq<Event>)
    ensures
      var c := Run(FRESH, events);
      c.manager.Some? ==> c.manager.value < |c.makers| && WasReady(events, c.makers[c.manager.value])
  {
    if events != [] {
      var n := |events| - 1;
      var before, e := events[..n], events[n];
      var c := Run(FRESH, before);
      assert events == before + [e];
      RunOfBoth(FRESH, before, [e]);
      assert Run(c, [e]) == Step(c, e);
      InstalledWasReady(before);
      RunKeeps(FRESH, before);
      var d := Step(c, e);
      if d.manager.Some? {
        InstalledStep(c, e);
        if e == ManagerReady(d.makers[d.manager.value], Success) {
          JustReady(before, d.makers[d.manager.value]);
        } else {
          WasReadyStays(before, d.makers[d.manager.value], e);
        }
      }
    }
  }

  // ---- The module ----

  /** What a caller gets: the installed manager, or an initialisation to wait for. */
  datatype Answer = Have(manager: nat) | WaitFor(init: nat)

  /** The module state. The suspended bodies of `ensureManager` are the entries of `inits`. */
  class Module {
    var generation: nat
    var manager: Option<nat>
    var initPromise: Option<nat>
    var inits: seq<Init>
    var makers: seq<nat>
    var disposed: multiset<nat>

    ghost function State(): Client
      reads this
    {
      Client(generation, manager, initPromise, inits, makers, disposed)
    }

    ghost predicate Valid()
      reads this
    {
      Inv(State())
    }

    constructor ()
      ensures Valid() && State() == FRESH
    {
      generation, manager, initPromise := 0, None, None;
      inits, makers, disposed := [], [], multiset{};
    }

    /** The synchronous part of a call. The answer is of the current generation. */
    method EnsureManager() returns (answer: Answer)
      requires Valid()
      modifies this
      ensures Valid() && State() == Step(old(State()), Ensure)
      ensures answer.Have? ==> manager == Some(answer.manager)
      ensures answer.WaitFor? ==> initPromise == Some(answer.init) && manager.None?
      ensures answer.WaitFor? ==> answer.init < |inits| && inits[answer.init].generation == generation
    {
      EnsureKeeps(State());
      if manager.Some? {
        return Have(manager.value);
      }
      if initPromise.Some? {
        return WaitFor(initPromise.value);
      }
      var thisInit := |inits|;
      inits := inits + [Init(generation, AwaitServer)];
      initPromise := Some(thisInit);
      return WaitFor(thisInit);
    }

    method SetPhase(i: nat, phase: Phase)
      requires i < |inits|
      modifies this`inits
      ensures State() == WithPhase(old(State()), i, phase)
    {
      inits := inits[i := inits[i].(phase := phase)];
    }

    method DisposeManager(m: nat)
      modifies this`disposed
      ensures State() == Disposed(old(State()), m)
    {
      disposed := disposed + multiset{m};
    }

    /** The server is up, or failed to start, or the manager could not be created. */
    method OnServer(i: nat, outcome: Outcome)
      requires Valid() && i < |inits| && inits[i].phase == AwaitServer
      modifies this
      ensures Valid() && State() == Step(old(State()), ServerAnswers(i, outcome))
    {
      ServerAnswersKeeps(State(), i, outcome);
      if outcome == Failure {
        SetPhase(i, Settled);
      } else {
        var m := |makers|;
        makers := makers + [i];
        SetPhase(i, AwaitReady(m));
      }
    }

    /** `m.ready` settled. */
    method OnReady(i: nat, outcome: Outcome)
      requires Valid() && i < |inits| && inits[i].phase.AwaitReady?
      modifies this
      ensures Valid() && State() == Step(old(State()), ManagerReady(i, outcome))
    {
      ManagerReadyKeeps(State(), i, outcome);
      var m := inits[i].phase.manager;
      var begunIn := inits[i].generation;
      SetPhase(i, Settled);
      if outcome == Failure {
        DisposeManager(m);
      } else if begunIn != generation {
        DisposeManager(m);
      } else {
        manager := Some(m);
      }
    }

    method Finally(i: nat)
      requires Valid() && i < |inits| && inits[i].phase == Settled
      modifies this
      ensures Valid() && State() == Step(old(State()), CleanUp(i))
    {
      CleanUpKeeps(State(), i);
      SetPhase(i, Over);
      if initPromise == Some(i) {
        initPromise := None;
      }
    }

    method DisposeKernelClient()
      requires Valid()
      modifies this
      ensures Valid() && State() == Step(old(State()), Dispose)
    {
      DisposeKeeps(State());
      generation := generation + 1;
      initPromise := None;
      var current := manager;
      manager := None;
      if current.Some? {
        DisposeManager(current.value);
      }
    }
  }
}
