/** The continuation handoff: attempts, notes, deferrals and relaunches of supervisor agents.

    Every route is one step after its request body has arrived. A relaunch is three: the agent row
    is read before the body, the gates are checked after it, and the relaunch itself commits later,
    in the order of the agent's lifecycle lock. */
module Continuation {
  import opened Prelude

  type AgentId = nat
  type AttemptId = nat

  const MAX_DEFERRALS: nat := 3
  const ESCAPE_MAX_ATTEMPTS: nat := 3
  const ESCAPE_MAX_ALIVE_MS: nat := 1_800_000

  datatype Status = Open | Committed | Deferred | Aborted | Relaunched

  datatype Attempt = Attempt(agent: AgentId, generation: nat, startedAt: nat, status: Status)

  /** A note written through the route; its source is always the tool. */
  datatype Brick = Brick(agent: AgentId, attempt: AttemptId, writtenAt: nat)

  datatype Deferral = Deferral(agent: AgentId, attempt: AttemptId, generation: nat, at: nat)

  /** A relaunch that passed the gates: for which attempt, by which authorization, from which
      reading of the agent's generation, and as which event. */
  datatype Ticket = Ticket(agent: AgentId, attempt: AttemptId, escape: bool, readGeneration: nat, admitted: nat)

  datatype Done = Done(ticket: Ticket, committed: nat)

  datatype Db = Db(
    generations: map<AgentId, nat>,
    attempts: map<AttemptId, Attempt>,
    bricks: seq<Brick>,
    deferrals: seq<Deferral>,
    queues: map<AgentId, seq<Ticket>>,
    relaunches: seq<Done>,
    now: nat,
    events: nat)

  /** `id` is the new row's id, or the row that the route's lookup returned. `clear` stands for the
      gates that look outside the tables (busy agent, delivery in flight, awaiting a human, running
      orchestration). */
  datatype Event =
    | Tick(dt: nat)
    | OpenAttempt(agent: AgentId, id: AttemptId)
    | WriteNote(agent: AgentId, id: AttemptId, acceptable: bool)
    | Defer(agent: AgentId, id: AttemptId, acceptable: bool)
    | AbortAttempt(id: AttemptId)
    | Relaunch(agent: AgentId, id: AttemptId, escape: bool, readGeneration: nat, clear: bool)
    | RunTicket(agent: AgentId, fails: bool)

  // ---- Reading the tables ----

  predicate OpenFor(db: Db, a: AgentId, id: AttemptId) {
    id in db.attempts && db.attempts[id].agent == a && db.attempts[id].status == Open
  }

  predicate HasOpen(db: Db, a: AgentId) {
    exists id :: id in db.attempts && OpenFor(db, a, id)
  }

  function Deferrals(ds: seq<Deferral>, a: AgentId, g: nat): nat {
    if ds == [] then 0
    else Deferrals(ds[..|ds| - 1], a, g)
         + (if ds[|ds| - 1].agent == a && ds[|ds| - 1].generation == g then 1 else 0)
  }

  /** The agent has an open attempt whose generation has deferrals left. */
  predicate CanDefer(db: Db, a: AgentId) {
    exists id :: id in db.attempts && OpenFor(db, a, id)
      && Deferrals(db.deferrals, a, db.attempts[id].generation) < MAX_DEFERRALS
  }

  /** A note for this attempt, strictly later than its start. */
  predicate HasLaterNote(db: Db, a: AgentId, id: AttemptId)
    requires id in db.attempts
  {
    exists i :: 0 <= i < |db.bricks| && db.bricks[i].agent == a && db.bricks[i].attempt == id
                && db.bricks[i].writtenAt > db.attempts[id].startedAt
  }

  lemma {:induction false} HasLatest(s: set<nat>)
    requires s != {}
    ensures exists m: nat :: m in s && forall x :: x in s ==> x <= m
  {
    var one :| one in s;
    var rest := s - {one};
    assert forall x :: x in s <==> x == one || x in rest;
    if rest != {} {
      HasLatest(rest);
      var m: nat :| m in rest && forall x :: x in rest ==> x <= m;
      var high := Max(one, m);
      assert high in s && forall x :: x in s ==> x <= high;
    } else {
      assert one in s && forall x :: x in s ==> x <= one;
    }
  }

  lemma {:induction false} HasEarliest(s: set<nat>)
    requires s != {}
    ensures exists m: nat :: m in s && forall x :: x in s ==> m <= x
  {
    var one :| one in s;
    var rest := s - {one};
    assert forall x :: x in s <==> x == one || x in rest;
    if rest != {} {
      HasEarliest(rest);
      var m: nat :| m in rest && forall x :: x in rest ==> m <= x;
      var low := Min(one, m);
      assert low in s && forall x :: x in s ==> low <= x;
    } else {
      assert one in s && forall x :: x in s ==> one <= x;
    }
  }

  function Latest(s: set<nat>, otherwise: int): (m: int)
    ensures if s == {} then m == otherwise else m in s && forall x :: x in s ==> x <= m
  {
    if s == {} then otherwise
    else
      HasLatest(s);
      var m: nat :| m in s && forall x :: x in s ==> x <= m;
      m
  }

  function Earliest(s: set<nat>): (m: Option<nat>)
    ensures if s == {} then m.None? else m.Some? && m.value in s && forall x :: x in s ==> m.value <= x
  {
    if s == {} then None
    else
      HasEarliest(s);
      var m: nat :| m in s && forall x :: x in s ==> m <= x;
      Some(m)
  }

  /** The start of the agent's latest relaunched attempt; earlier than any time if there is none. */
  function Since(db: Db, a: AgentId): int {
    Latest(set id | id in db.attempts && db.attempts[id].agent == a && db.attempts[id].status == Relaunched
             :: db.attempts[id].startedAt, -1)
  }

  /** The effort of this cycle: attempts of the generation that were aborted. */
  function AbortedSince(db: Db, a: AgentId, g: nat): set<AttemptId> {
    set id | id in db.attempts && db.attempts[id].agent == a && db.attempts[id].generation == g
             && db.attempts[id].startedAt > Since(db, a) && db.attempts[id].status == Aborted
  }

  /** The latest deferral of the cycle, or its beginning. */
  function AliveSince(db: Db, a: AgentId, g: nat): int {
    Latest(set i | 0 <= i < |db.deferrals| && db.deferrals[i].agent == a && db.deferrals[i].generation == g
                   && db.deferrals[i].at > Since(db, a)
             :: db.deferrals[i].at, Since(db, a))
  }

  /** When the clock began to run. */
  function FirstStart(db: Db, a: AgentId, g: nat): Option<nat> {
    Earliest(set id | id in db.attempts && db.attempts[id].agent == a && db.attempts[id].generation == g
                      && db.attempts[id].startedAt > AliveSince(db, a, g)
               :: db.attempts[id].startedAt)
  }

  predicate BudgetExhausted(db: Db, a: AgentId, g: nat) {
    || |AbortedSince(db, a, g)| >= ESCAPE_MAX_ATTEMPTS
    || (FirstStart(db, a, g).Some? && db.now - FirstStart(db, a, g).value >= ESCAPE_MAX_ALIVE_MS)
  }

  /** The two authorizations of a relaunch. */
  predicate ByNote(db: Db, a: AgentId, id: AttemptId, g: nat) {
    && id in db.attempts && db.attempts[id].agent == a
    && db.attempts[id].status == Committed && db.attempts[id].generation == g
    && HasLaterNote(db, a, id)
  }

  predicate ByBudget(db: Db, a: AgentId, id: AttemptId, g: nat) {
    && id in db.attempts && db.attempts[id].agent == a
    && db.attempts[id].status == Open && db.attempts[id].generation == g
    && !HasLaterNote(db, a, id)
    && BudgetExhausted(db, a, g)
  }

  function QueueOf(db: Db, a: AgentId): seq<Ticket> {
    if a in db.queues then db.queues[a] else []
  }

  function Close(db: Db, id: AttemptId, status: Status): Db
    requires id in db.attempts
  {
    db.(attempts := db.attempts[id := db.attempts[id].(status := status)])
  }

  // ---- The steps ----

  function Act(db: Db, e: Event): Db {
    match e
    case Tick(dt) => db.(now := db.now + dt)
    case OpenAttempt(a, id) =>
      if a !in db.generations || HasOpen(db, a) || id in db.attempts then db
      else db.(attempts := db.attempts[id := Attempt(a, db.generations[a] + 1, db.now, Open)])
    case WriteNote(a, id, acceptable) =>
      if !acceptable || !OpenFor(db, a, id) then db
      else Close(db, id, Committed).(bricks := db.bricks + [Brick(a, id, db.now)])
    case Defer(a, id, acceptable) =>
      if !acceptable || !OpenFor(db, a, id) then db
      else
        var g := db.attempts[id].generation;
        if Deferrals(db.deferrals, a, g) >= MAX_DEFERRALS then db
        else Close(db, id, Deferred).(deferrals := db.deferrals + [Deferral(a, id, g, db.now)])
    case AbortAttempt(id) =>
      if id !in db.attempts then db else Close(db, id, Aborted)
    case Relaunch(a, id, escape, readGeneration, clear) =>
      if a in db.generations && clear && Authorized(db, a, id, escape, readGeneration + 1) then
        db.(queues := db.queues[a := QueueOf(db, a) + [Ticket(a, id, escape, readGeneration, db.events)]])
      else db
    case RunTicket(a, fails) =>
      var q := QueueOf(db, a);
      if q == [] then db
      else
        var rest := db.(queues := db.queues[a := q[1..]]);
        if fails || q[0].attempt !in db.attempts then rest
        else Close(rest, q[0].attempt, Relaunched)
             .(generations := db.generations[a := db.attempts[q[0].attempt].generation],
               relaunches := db.relaunches + [Done(q[0], db.events)])
  }

  predicate Authorized(db: Db, a: AgentId, id: AttemptId, escape: bool, g: nat) {
    if escape then ByBudget(db, a, id, g) else ByNote(db, a, id, g)
  }

  function Step(db: Db, e: Event): Db {
    Act(db, e).(events := db.events + 1)
  }

  function Start(generations: map<AgentId, nat>, now: nat): Db {
    Db(generations, map[], [], [], map[], [], now, 0)
  }

  function Run(generations: map<AgentId, nat>, now: nat, events: seq<Event>): Db {
    if events == [] then Start(generations, now)
    else Step(Run(generations, now, events[..|events| - 1]), events[|events| - 1])
  }

  // ---- What every run keeps ----

  ghost predicate OneOpen(db: Db) {
    forall i, k :: i in db.attempts && k in db.attempts
      && db.attempts[i].status == db.attempts[k].status == Open && db.attempts[i].agent == db.attempts[k].agent
      ==> i == k
  }

  /** An open attempt has no note. */
  ghost predicate OpenWithoutNote(db: Db) {
    forall i :: 0 <= i < |db.bricks| ==>
      db.bricks[i].attempt in db.attempts && db.attempts[db.bricks[i].attempt].status != Open
  }

  ghost predicate DeferralsBounded(db: Db) {
    forall a, g :: Deferrals(db.deferrals, a, g) <= MAX_DEFERRALS
  }

  predicate TicketOk(db: Db, a: AgentId, t: Ticket) {
    && t.agent == a && a in db.generations && t.admitted < db.events
    && t.attempt in db.attempts && db.attempts[t.attempt].agent == a
    && db.attempts[t.attempt].generation == t.readGeneration + 1
  }

  ghost predicate TicketsOk(db: Db) {
    forall a, i :: a in db.queues && 0 <= i < |db.queues[a]| ==> TicketOk(db, a, db.queues[a][i])
  }

  /** A relaunched attempt never becomes open or committed again. */
  ghost predicate RelaunchedIsFinal(db: Db) {
    forall i :: 0 <= i < |db.relaunches| ==>
      var d := db.relaunches[i];
      && d.committed < db.events && d.ticket.attempt in db.attempts
      && db.attempts[d.ticket.attempt].status in {Relaunched, Aborted}
  }

  /** A second relaunch of an attempt was admitted before the first one committed. */
  ghost predicate OnlyOverlaps(db: Db) {
    && (forall a, i, k :: a in db.queues && 0 <= i < |db.queues[a]| && 0 <= k < |db.relaunches|
                          && db.queues[a][i].attempt == db.relaunches[k].ticket.attempt ==>
          db.queues[a][i].admitted < db.relaunches[k].committed)
    && (forall i, k :: 0 <= i < k < |db.relaunches|
                       && db.relaunches[i].ticket.attempt == db.relaunches[k].ticket.attempt ==>
          db.relaunches[k].ticket.admitted < db.relaunches[i].committed)
  }

  ghost predicate Inv(db: Db) {
    OneOpen(db) && OpenWithoutNote(db) && DeferralsBounded(db) && TicketsOk(db) && RelaunchedIsFinal(db) && OnlyOverlaps(db)
  }

  lemma OpenKeeps(db: Db, a: AgentId, id: AttemptId)
    requires Inv(db)
    ensures Inv(Step(db, OpenAttempt(a, id)))
  {
    var after := Step(db, OpenAttempt(a, id));
    assert forall i :: i in db.attempts ==> i in after.attempts && after.attempts[i] == db.attempts[i];
    if after.attempts != db.attempts {
      forall i | i in db.attempts && db.attempts[i].status == Open ensures db.attempts[i].agent != a {
        assert !OpenFor(db, a, i);
      }
    }
  }

  /** Closing an attempt, in any way, keeps everything. */
  lemma CloseKeeps(db: Db, id: AttemptId, status: Status)
    requires Inv(db) && id in db.attempts && status != Open
    requires status in {Relaunched, Aborted} || db.attempts[id].status == Open
    ensures Inv(Close(db, id, status))
  {
    var after := Close(db, id, status);
    assert forall i :: i in db.attempts ==> i in after.attempts && after.attempts[i].agent == db.attempts[i].agent
                                            && after.attempts[i].generation == db.attempts[i].generation;
    assert forall i :: i in after.attempts && after.attempts[i].status == Open ==> db.attempts[i].status == Open;
  }

  lemma NoteKeeps(db: Db, a: AgentId, id: AttemptId, acceptable: bool)
    requires Inv(db)
    ensures Inv(Step(db, WriteNote(a, id, acceptable)))
  {
    if acceptable && OpenFor(db, a, id) {
      CloseKeeps(db, id, Committed);
    }
  }

  lemma DeferKeeps(db: Db, a: AgentId, id: AttemptId, acceptable: bool)
    requires Inv(db)
    ensures Inv(Step(db, Defer(a, id, acceptable)))
  {
    if acceptable && OpenFor(db, a, id) {
      CloseKeeps(db, id, Deferred);
      var after := Step(db, Defer(a, id, acceptable));
      forall x, g ensures Deferrals(after.deferrals, x, g) <= MAX_DEFERRALS {
        assert Deferrals(db.deferrals, x, g) <= MAX_DEFERRALS;
        if after.deferrals != db.deferrals {
          assert after.deferrals[..|db.deferrals|] == db.deferrals;
        }
      }
    }
  }

  lemma AdmitKeeps(db: Db, a: AgentId, id: AttemptId, escape: bool, readGeneration: nat, clear: bool)
    requires Inv(db)
    ensures Inv(Step(db, Relaunch(a, id, escape, readGeneration, clear)))
  {
    var after := Step(db, Relaunch(a, id, escape, readGeneration, clear));
    forall x, i | x in after.queues && 0 <= i < |after.queues[x]| ensures TicketOk(after, x, after.queues[x][i]) {
      if x != a || i < |QueueOf(db, a)| {
        assert TicketOk(db, x, db.queues[x][i]);
      }
    }
    forall x, i, k | x in after.queues && 0 <= i < |after.queues[x]| && 0 <= k < |after.relaunches|
                     && after.queues[x][i].attempt == after.relaunches[k].ticket.attempt
      ensures after.queues[x][i].admitted < after.relaunches[k].committed
    {
      if x == a && i == |QueueOf(db, a)| {
        assert db.attempts[id].status in {Open, Committed};
      }
    }
  }

  lemma PopKeeps(db: Db, a: AgentId)
    requires Inv(db) && QueueOf(db, a) != []
    ensures Inv(db.(queues := db.queues[a := QueueOf(db, a)[1..]], events := db.events + 1))
  {
    var after := db.(queues := db.queues[a := QueueOf(db, a)[1..]], events := db.events + 1);
    assert forall i :: 0 <= i < |after.queues[a]| ==> after.queues[a][i] == db.queues[a][i + 1];
    forall x, i | x in after.queues && 0 <= i < |after.queues[x]| ensures TicketOk(after, x, after.queues[x][i]) {
      assert TicketOk(db, x, db.queues[x][if x == a then i + 1 else i]);
    }
  }

  lemma CommitKeeps(db: Db, a: AgentId)
    requires Inv(db) && QueueOf(db, a) != []
    ensures Inv(Step(db, RunTicket(a, false)))
  {
    var t := QueueOf(db, a)[0];
    assert TicketOk(db, a, t);
    var popped := db.(queues := db.queues[a := QueueOf(db, a)[1..]], events := db.events + 1);
    PopKeeps(db, a);
    CloseKeeps(popped, t.attempt, Relaunched);
    var closed := Close(popped, t.attempt, Relaunched);
    var after := Step(db, RunTicket(a, false));
    assert after == closed.(generations := after.generations, relaunches := db.relaunches + [Done(t, db.events)]);
    LoggedKeeps(closed, db, a, t, after);
  }

  /** Logging the relaunch of the ticket at the head of the queue. */
  lemma LoggedKeeps(closed: Db, db: Db, a: AgentId, t: Ticket, after: Db)
    requires Inv(closed) && Inv(db) && QueueOf(db, a) != [] && t == QueueOf(db, a)[0]
    requires closed.events == db.events + 1 && closed.relaunches == db.relaunches && a in closed.generations
    requires t.attempt in closed.attempts && closed.attempts[t.attempt].status == Relaunched
    requires forall x, i :: x in closed.queues && 0 <= i < |closed.queues[x]| ==> closed.queues[x][i].admitted < db.events
    requires after == closed.(generations := closed.generations[a := closed.attempts[t.attempt].generation],
                              relaunches := db.relaunches + [Done(t, db.events)])
    ensures Inv(after)
  {
    forall i, k | 0 <= i < k < |after.relaunches|
                  && after.relaunches[i].ticket.attempt == after.relaunches[k].ticket.attempt
      ensures after.relaunches[k].ticket.admitted < after.relaunches[i].committed
    {
      if k == |db.relaunches| {
        assert db.queues[a][0] == t;
      }
    }
    forall x, i | x in after.queues && 0 <= i < |after.queues[x]| ensures TicketOk(after, x, after.queues[x][i]) {
      assert TicketOk(closed, x, closed.queues[x][i]);
    }
  }

  lemma StepKeeps(db: Db, e: Event)
    requires Inv(db)
    ensures Inv(Step(db, e))
  {
    match e
    case Tick(_) =>
    case OpenAttempt(a, id) => OpenKeeps(db, a, id);
    case WriteNote(a, id, acceptable) => NoteKeeps(db, a, id, acceptable);
    case Defer(a, id, acceptable) => DeferKeeps(db, a, id, acceptable);
    case AbortAttempt(id) => if id in db.attempts { CloseKeeps(db, id, Aborted); }
    case Relaunch(a, id, escape, readGeneration, clear) => AdmitKeeps(db, a, id, escape, readGeneration, clear);
    case RunTicket(a, fails) =>
      if QueueOf(db, a) != [] {
        if fails { PopKeeps(db, a); } else { CommitKeeps(db, a); }
      }
  }

  /** In every run: at most one open attempt per agent and no note for it, at most three deferrals
      per generation, and no second relaunch of an attempt except one that overlapped the first. */
  lemma {:induction false} EveryRunKeeps(generations: map<AgentId, nat>, now: nat, events: seq<Event>)
    ensures Inv(Run(generations, now, events))
  {
    if events != [] {
      EveryRunKeeps(generations, now, events[..|events| - 1]);
      StepKeeps(Run(generations, now, events[..|events| - 1]), events[|events| - 1]);
    }
  }

  // ---- When a step is accepted ----

  /** The rows that record a deferral of this generation. */
  function DeferralRows(ds: seq<Deferral>, a: AgentId, g: nat): set<nat> {
    set i: nat | i < |ds| && ds[i].agent == a && ds[i].generation == g
  }

  lemma {:induction false} DeferralsAreRows(ds: seq<Deferral>, a: AgentId, g: nat)
    ensures Deferrals(ds, a, g) == |DeferralRows(ds, a, g)|
  {
    if ds != [] {
      var n := |ds| - 1;
      var front := DeferralRows(ds[..n], a, g);
      DeferralsAreRows(ds[..n], a, g);
      if ds[n].agent == a && ds[n].generation == g {
        assert DeferralRows(ds, a, g) == front + {n};
      } else {
        assert DeferralRows(ds, a, g) == front;
      }
    }
  }

  /** Of the tables only this attempt has changed: its status. */
  ghost predicate OnlyCloses(db: Db, after: Db, id: AttemptId, status: Status) {
    && after.attempts.Keys == db.attempts.Keys
    && (forall k :: k in db.attempts && k != id ==> after.attempts[k] == db.attempts[k])
    && (id in db.attempts ==> after.attempts[id] == db.attempts[id].(status := status))
    && after.generations == db.generations && after.queues == db.queues && after.relaunches == db.relaunches
    && after.now == db.now
  }

  predicate IsOpenOf(db: Db, a: AgentId, id: AttemptId) {
    id in db.attempts && db.attempts[id].agent == a && db.attempts[id].status == Open
  }

  /** A deferral is accepted if and only if it is of the agent's open attempt and its generation has
      been deferred less than three times; it closes the attempt and leaves one row with the time. */
  lemma DeferredExactly(db: Db, a: AgentId, id: AttemptId, acceptable: bool)
    ensures
      var after := Step(db, Defer(a, id, acceptable));
      if acceptable && IsOpenOf(db, a, id) && |DeferralRows(db.deferrals, a, db.attempts[id].generation)| < 3
      then OnlyCloses(db, after, id, Deferred) && after.bricks == db.bricks
           && after.deferrals == db.deferrals + [Deferral(a, id, db.attempts[id].generation, db.now)]
      else after == db.(events := db.events + 1)
  {
    if id in db.attempts {
      DeferralsAreRows(db.deferrals, a, db.attempts[id].generation);
    }
  }

  /** A note is accepted if and only if it is of the agent's open attempt; it closes the attempt. */
  lemma NotedExactly(db: Db, a: AgentId, id: AttemptId, acceptable: bool)
    ensures
      var after := Step(db, WriteNote(a, id, acceptable));
      if acceptable && IsOpenOf(db, a, id)
      then OnlyCloses(db, after, id, Committed) && after.deferrals == db.deferrals
           && after.bricks == db.bricks + [Brick(a, id, db.now)]
      else after == db.(events := db.events + 1)
  {
  }

  /** Any attempt can be aborted, whatever has become of it. */
  lemma AbortedExactly(db: Db, id: AttemptId)
    ensures
      var after := Step(db, AbortAttempt(id));
      if id in db.attempts
      then OnlyCloses(db, after, id, Aborted) && after.bricks == db.bricks && after.deferrals == db.deferrals
      else after == db.(events := db.events + 1)
  {
  }

  /** An attempt is minted if and only if the agent exists and has none open; it is of the generation
      that follows the agent's. */
  lemma OpenedExactly(db: Db, a: AgentId, id: AttemptId)
    requires id !in db.attempts
    ensures
      var after := Step(db, OpenAttempt(a, id));
      if a in db.generations && forall k :: !IsOpenOf(db, a, k)
      then after == db.(attempts := db.attempts[id := Attempt(a, db.generations[a] + 1, db.now, Open)], events := db.events + 1)
      else after == db.(events := db.events + 1)
  {
    if k :| IsOpenOf(db, a, k) {
      assert OpenFor(db, a, k);
    }
    assert HasOpen(db, a) <==> exists k :: IsOpenOf(db, a, k) by {
      if HasOpen(db, a) {
        var k :| k in db.attempts && OpenFor(db, a, k);
        assert IsOpenOf(db, a, k);
      }
    }
  }

  // ---- Authorization ----

  lemma {:induction false} EventsCounted(generations: map<AgentId, nat>, now: nat, events: seq<Event>)
    ensures Run(generations, now, events).events == |events|
  {
    if events != [] { EventsCounted(generations, now, events[..|events| - 1]); }
  }

  /** The tables at the moment the ticket was admitted authorized it, in exactly one way. */
  ghost predicate WasAuthorized(generations: map<AgentId, nat>, now: nat, events: seq<Event>, t: Ticket) {
    && t.admitted < |events|
    && var db := Run(generations, now, events[..t.admitted]);
       && Authorized(db, t.agent, t.attempt, t.escape, t.readGeneration + 1)
       && !Authorized(db, t.agent, t.attempt, !t.escape, t.readGeneration + 1)
  }

  ghost predicate AllAuthorized(generations: map<AgentId, nat>, now: nat, events: seq<Event>, db: Db) {
    && (forall a, i :: a in db.queues && 0 <= i < |db.queues[a]| ==>
          WasAuthorized(generations, now, events, db.queues[a][i]))
    && (forall i :: 0 <= i < |db.relaunches| ==> WasAuthorized(generations, now, events, db.relaunches[i].ticket))
  }

  lemma StaysAuthorized(generations: map<AgentId, nat>, now: nat, events: seq<Event>, n: nat, t: Ticket)
    requires n <= |events| && WasAuthorized(generations, now, events[..n], t)
    ensures WasAuthorized(generations, now, events, t)
  {
    assert events[..n][..t.admitted] == events[..t.admitted];
  }

  lemma NewTicketWasAuthorized(generations: map<AgentId, nat>, now: nat, events: seq<Event>, n: nat, a: AgentId, i: nat)
    requires n < |events|
    requires var db := Run(generations, now, events[..n]);
             && AllAuthorized(generations, now, events[..n], db)
             && a in Step(db, events[n]).queues && i < |Step(db, events[n]).queues[a]|
    ensures WasAuthorized(generations, now, events, Step(Run(generations, now, events[..n]), events[n]).queues[a][i])
  {
    var db := Run(generations, now, events[..n]);
    var t := Step(db, events[n]).queues[a][i];
    NewTickets(db, events[n], a, i);
    if a in db.queues && exists k :: 0 <= k < |db.queues[a]| && db.queues[a][k] == t {
      StaysAuthorized(generations, now, events, n, t);
    } else {
      JustAdmitted(generations, now, events, n, t);
    }
  }

  lemma JustAdmitted(generations: map<AgentId, nat>, now: nat, events: seq<Event>, n: nat, t: Ticket)
    requires n < |events|
    requires var db := Run(generations, now, events[..n]);
             t.admitted == db.events && Authorized(db, t.agent, t.attempt, t.escape, t.readGeneration + 1)
    ensures WasAuthorized(generations, now, events, t)
  {
    EventsCounted(generations, now, events[..n]);
  }

  lemma LoggedWasAuthorized(generations: map<AgentId, nat>, now: nat, events: seq<Event>, n: nat, i: nat)
    requires n < |events|
    requires var db := Run(generations, now, events[..n]);
             && AllAuthorized(generations, now, events[..n], db)
             && i < |Step(db, events[n]).relaunches|
    ensures WasAuthorized(generations, now, events, Step(Run(generations, now, events[..n]), events[n]).relaunches[i].ticket)
  {
    var db := Run(generations, now, events[..n]);
    var t := Step(db, events[n]).relaunches[i].ticket;
    if i < |db.relaunches| {
      assert db.relaunches[i].ticket == t;
    } else {
      assert db.queues[events[n].agent][0] == t;
    }
    StaysAuthorized(generations, now, events, n, t);
  }

  lemma {:induction false} EveryTicketWasAuthorized(generations: map<AgentId, nat>, now: nat, events: seq<Event>)
    ensures AllAuthorized(generations, now, events, Run(generations, now, events))
  {
    if events != [] {
      var n := |events| - 1;
      var db := Run(generations, now, events);
      EveryTicketWasAuthorized(generations, now, events[..n]);
      forall a, i | a in db.queues && 0 <= i < |db.queues[a]|
        ensures WasAuthorized(generations, now, events, db.queues[a][i])
      {
        NewTicketWasAuthorized(generations, now, events, n, a, i);
      }
      forall i | 0 <= i < |db.relaunches| ensures WasAuthorized(generations, now, events, db.relaunches[i].ticket) {
        LoggedWasAuthorized(generations, now, events, n, i);
      }
    }
  }

  /** Every ticket in a queue after a step was in that queue before it, or was admitted by it. */
  lemma NewTickets(db: Db, e: Event, a: AgentId, i: nat)
    requires a in Step(db, e).queues && i < |Step(db, e).queues[a]|
    ensures var t := Step(db, e).queues[a][i];
            || (a in db.queues && exists k :: 0 <= k < |db.queues[a]| && db.queues[a][k] == t)
            || (e.Relaunch? && t == Ticket(e.agent, e.id, e.escape, e.readGeneration, db.events)
                && Authorized(db, e.agent, e.id, e.escape, e.readGeneration + 1))
  {
    var t := Step(db, e).queues[a][i];
    if e.RunTicket? && e.agent == a && QueueOf(db, a) != [] {
      assert db.queues[a][i + 1] == t;
    } else if a in db.queues && i < |db.queues[a]| {
      assert db.queues[a][i] == t;
    }
  }

  /** Each relaunch that commits had exactly one of the two authorizations: a committed attempt of
      the next generation with a later note, or an open one without a note and no budget left. */
  lemma EveryRelaunchWasAuthorized(generations: map<AgentId, nat>, now: nat, events: seq<Event>, i: nat)
    requires i < |Run(generations, now, events).relaunches|
    ensures WasAuthorized(generations, now, events, Run(generations, now, events).relaunches[i].ticket)
  {
    EveryTicketWasAuthorized(generations, now, events);
  }

  // ---- The effort budget ----

  /** Of this generation, and begun after every relaunched attempt of the agent. */
  predicate InCycle(db: Db, a: AgentId, g: nat, id: AttemptId) {
    && id in db.attempts && db.attempts[id].agent == a && db.attempts[id].generation == g
    && forall r :: r in db.attempts && db.attempts[r].agent == a && db.attempts[r].status == Relaunched ==>
         db.attempts[id].startedAt > db.attempts[r].startedAt
  }

  /** At least three attempts of the cycle were aborted. */
  predicate ThreeAborted(db: Db, a: AgentId, g: nat) {
    |set id | id in db.attempts && InCycle(db, a, g, id) && db.attempts[id].status == Aborted| >= 3
  }

  /** An attempt of the cycle, begun after every deferral of the generation, that is half an hour old. */
  predicate HalfAnHourOld(db: Db, a: AgentId, g: nat, id: AttemptId) {
    && InCycle(db, a, g, id)
    && (forall i :: 0 <= i < |db.deferrals| && db.deferrals[i].agent == a && db.deferrals[i].generation == g ==>
          db.attempts[id].startedAt > db.deferrals[i].at)
    && db.now - db.attempts[id].startedAt >= 1_800_000
  }

  predicate LaterNote(db: Db, a: AgentId, id: AttemptId, i: int)
    requires id in db.attempts
  {
    0 <= i < |db.bricks| && db.bricks[i].agent == a && db.bricks[i].attempt == id
    && db.attempts[id].startedAt < db.bricks[i].writtenAt
  }

  lemma InCycleIsSince(db: Db, a: AgentId, g: nat, id: AttemptId)
    requires id in db.attempts && db.attempts[id].agent == a && db.attempts[id].generation == g
    ensures InCycle(db, a, g, id) <==> db.attempts[id].startedAt > Since(db, a)
  {
    var starts := set r | r in db.attempts && db.attempts[r].agent == a && db.attempts[r].status == Relaunched
                    :: db.attempts[r].startedAt;
    assert Since(db, a) == Latest(starts, -1);
    forall r | r in db.attempts && db.attempts[r].agent == a && db.attempts[r].status == Relaunched
      ensures db.attempts[r].startedAt in starts
    {
    }
  }

  lemma AbortedAreInCycle(db: Db, a: AgentId, g: nat)
    ensures ThreeAborted(db, a, g) <==> |AbortedSince(db, a, g)| >= ESCAPE_MAX_ATTEMPTS
  {
    var aborted := set id | id in db.attempts && InCycle(db, a, g, id) && db.attempts[id].status == Aborted;
    forall id | id in db.attempts && db.attempts[id].agent == a && db.attempts[id].generation == g
      ensures InCycle(db, a, g, id) <==> db.attempts[id].startedAt > Since(db, a)
    {
      InCycleIsSince(db, a, g, id);
    }
    assert aborted == AbortedSince(db, a, g);
  }

  /** Begun when the clock could run: after every relaunched attempt and every deferral. */
  lemma OnClockIsAliveSince(db: Db, a: AgentId, g: nat, id: AttemptId)
    requires id in db.attempts && db.attempts[id].agent == a && db.attempts[id].generation == g
    ensures db.attempts[id].startedAt > AliveSince(db, a, g) <==>
      InCycle(db, a, g, id)
      && forall i :: 0 <= i < |db.deferrals| && db.deferrals[i].agent == a && db.deferrals[i].generation == g ==>
           db.attempts[id].startedAt > db.deferrals[i].at
  {
    InCycleIsSince(db, a, g, id);
    var since := Since(db, a);
    var ats := set i | 0 <= i < |db.deferrals| && db.deferrals[i].agent == a && db.deferrals[i].generation == g
                       && db.deferrals[i].at > since
                 :: db.deferrals[i].at;
    assert AliveSince(db, a, g) == Latest(ats, since);
    forall i | 0 <= i < |db.deferrals| && db.deferrals[i].agent == a && db.deferrals[i].generation == g
      ensures db.deferrals[i].at <= since || db.deferrals[i].at in ats
    {
    }
  }

  lemma OldIsFirstStart(db: Db, a: AgentId, g: nat)
    ensures (exists id :: id in db.attempts && HalfAnHourOld(db, a, g, id))
      <==> FirstStart(db, a, g).Some? && db.now - FirstStart(db, a, g).value >= ESCAPE_MAX_ALIVE_MS
  {
    var starts := set id | id in db.attempts && db.attempts[id].agent == a && db.attempts[id].generation == g
                           && db.attempts[id].startedAt > AliveSince(db, a, g)
                    :: db.attempts[id].startedAt;
    assert FirstStart(db, a, g) == Earliest(starts);
    if id :| id in db.attempts && HalfAnHourOld(db, a, g, id) {
      OnClockIsAliveSince(db, a, g, id);
      assert db.attempts[id].startedAt in starts;
    }
    if starts != {} && db.now - FirstStart(db, a, g).value >= ESCAPE_MAX_ALIVE_MS {
      var id :| id in db.attempts && db.attempts[id].agent == a && db.attempts[id].generation == g
                && db.attempts[id].startedAt > AliveSince(db, a, g)
                && db.attempts[id].startedAt == FirstStart(db, a, g).value;
      OnClockIsAliveSince(db, a, g, id);
      assert HalfAnHourOld(db, a, g, id);
    }
  }

  /** The attempt is of the agent, and of the generation that follows the reading. */
  predicate Successor(db: Db, a: AgentId, id: AttemptId, readGeneration: nat) {
    id in db.attempts && db.attempts[id].agent == a && db.attempts[id].generation == readGeneration + 1
  }

  /** Main result, from the tables alone. A relaunch that nothing else holds up gets its place in the
      queue if and only if its attempt is the agent's and of the next generation, and either it is
      committed and has a later note, or it is open, has none, and the effort is spent: three aborted
      attempts, or one that has been on the clock for half an hour. */
  lemma AdmittedExactly(db: Db, a: AgentId, id: AttemptId, escape: bool, readGeneration: nat, clear: bool)
    ensures
      var after, g := Step(db, Relaunch(a, id, escape, readGeneration, clear)), readGeneration + 1;
      var queue := if a in db.queues then db.queues[a] else [];
      var pass :=
        && a in db.generations && clear && Successor(db, a, id, readGeneration)
        && if !escape then db.attempts[id].status == Committed && exists i :: LaterNote(db, a, id, i)
           else db.attempts[id].status == Open && (forall i :: !LaterNote(db, a, id, i))
                && (ThreeAborted(db, a, g) || exists k :: k in db.attempts && HalfAnHourOld(db, a, g, k));
      && (pass ==> after == db.(queues := db.queues[a := queue + [Ticket(a, id, escape, readGeneration, db.events)]],
                                events := db.events + 1))
      && (!pass ==> after == db.(events := db.events + 1))
  {
    AuthorizedExactly(db, a, id, escape, readGeneration);
  }

  lemma AuthorizedExactly(db: Db, a: AgentId, id: AttemptId, escape: bool, readGeneration: nat)
    ensures Authorized(db, a, id, escape, readGeneration + 1) <==>
      && Successor(db, a, id, readGeneration)
      && if !escape then db.attempts[id].status == Committed && exists i :: LaterNote(db, a, id, i)
         else db.attempts[id].status == Open && (forall i :: !LaterNote(db, a, id, i))
              && (ThreeAborted(db, a, readGeneration + 1)
                  || exists k :: k in db.attempts && HalfAnHourOld(db, a, readGeneration + 1, k))
  {
    BudgetExactly(db, a, readGeneration + 1);
    if id in db.attempts {
      NotesAreLater(db, a, id);
    }
  }

  lemma BudgetExactly(db: Db, a: AgentId, g: nat)
    ensures BudgetExhausted(db, a, g) <==> ThreeAborted(db, a, g) || exists k :: k in db.attempts && HalfAnHourOld(db, a, g, k)
  {
    AbortedAreInCycle(db, a, g);
    OldIsFirstStart(db, a, g);
  }

  lemma NotesAreLater(db: Db, a: AgentId, id: AttemptId)
    requires id in db.attempts
    ensures HasLaterNote(db, a, id) <==> exists i :: LaterNote(db, a, id, i)
  {
    if i :| LaterNote(db, a, id, i) {
      assert db.bricks[i].agent == a;
    }
    if HasLaterNote(db, a, id) {
      var i :| 0 <= i < |db.bricks| && db.bricks[i].agent == a && db.bricks[i].attempt == id
               && db.bricks[i].writtenAt > db.attempts[id].startedAt;
      assert LaterNote(db, a, id, i);
    }
  }

  /** Later tables keep the deferrals and what an attempt was begun as; every attempt was begun by now. */
  ghost predicate Continues(db: Db, after: Db) {
    && db.deferrals <= after.deferrals
    && db.now <= after.now
    && (forall id :: id in after.attempts ==>
          after.attempts[id].startedAt <= after.now && (id !in db.attempts ==> db.now <= after.attempts[id].startedAt))
    && (forall id :: id in db.attempts ==>
          id in after.attempts && after.attempts[id].startedAt == db.attempts[id].startedAt)
  }

  lemma ContinuesStep(before: Db, db: Db, e: Event)
    requires Continues(before, db)
    ensures Continues(before, Step(db, e))
  {
    var after := Step(db, e);
    assert db.deferrals <= after.deferrals && db.now <= after.now;
    if e.OpenAttempt? {
      assert forall id :: id in after.attempts && id !in db.attempts ==> after.attempts[id].startedAt == db.now;
    } else {
      SameStarts(db, e);
    }
  }

  lemma SameStarts(db: Db, e: Event)
    requires !e.OpenAttempt?
    ensures Step(db, e).attempts.Keys == db.attempts.Keys
    ensures forall id :: id in db.attempts ==> Step(db, e).attempts[id].startedAt == db.attempts[id].startedAt
  {
  }

  lemma {:induction false} BegunByNow(generations: map<AgentId, nat>, now: nat, events: seq<Event>)
    ensures Continues(Run(generations, now, events), Run(generations, now, events))
  {
    if events != [] {
      var db := Run(generations, now, events[..|events| - 1]);
      BegunByNow(generations, now, events[..|events| - 1]);
      ContinuesStep(db, db, events[|events| - 1]);
      ContinuesItself(db, Step(db, events[|events| - 1]));
    }
  }

  lemma ContinuesItself(before: Db, db: Db)
    requires Continues(before, db)
    ensures Continues(db, db)
  {
  }

  lemma {:induction false} ContinuesRun(generations: map<AgentId, nat>, now: nat, events: seq<Event>, k: nat)
    requires k <= |events|
    ensures Continues(Run(generations, now, events[..k]), Run(generations, now, events))
  {
    if k == |events| {
      assert events[..k] == events;
      BegunByNow(generations, now, events);
    } else {
      var n := |events| - 1;
      assert events[..n][..k] == events[..k];
      ContinuesRun(generations, now, events[..n], k);
      ContinuesStep(Run(generations, now, events[..k]), Run(generations, now, events[..n]), events[n]);
    }
  }

  /** The k-th event was a deferral that was accepted: of this agent, for this generation, at this time. */
  ghost predicate DeferredAt(generations: map<AgentId, nat>, now: nat, events: seq<Event>, k: nat, d: Deferral) {
    k < |events| && Run(generations, now, events[..k + 1]).deferrals == Run(generations, now, events[..k]).deferrals + [d]
  }

  /** Main result. After an accepted deferral an escape that has not three aborts behind it is admitted
      only if an attempt of that generation was begun after the deferral and is half an hour old. */
  lemma DeferralRestartsClock(generations: map<AgentId, nat>, now: nat, events: seq<Event>, k: nat, d: Deferral,
      e: Event)
    returns (id: AttemptId)
    requires DeferredAt(generations, now, events, k, d)
    requires e.Relaunch? && e.escape && e.agent == d.agent && e.readGeneration + 1 == d.generation
    requires Step(Run(generations, now, events), e).queues != Run(generations, now, events).queues
    requires !ThreeAborted(Run(generations, now, events), d.agent, d.generation)
    ensures
      var before, db := Run(generations, now, events[..k]), Run(generations, now, events);
      && d.at == before.now && id !in before.attempts
      && id in db.attempts && db.attempts[id].agent == d.agent && db.attempts[id].generation == d.generation
      && d.at < db.attempts[id].startedAt && db.attempts[id].startedAt + 1_800_000 <= db.now
  {
    var before, next, db := Run(generations, now, events[..k]), Run(generations, now, events[..k + 1]), Run(generations, now, events);
    assert next == Step(before, events[k]) by {
      assert events[..k + 1][..k] == events[..k];
    }
    ContinuesRun(generations, now, events, k + 1);
    ContinuesRun(generations, now, events, k);
    BegunByNow(generations, now, events[..k]);
    id := Clocked(db, e);
    DeferredBefore(before, next, db, events[k], d, id);
  }

  lemma Clocked(db: Db, e: Event) returns (id: AttemptId)
    requires e.Relaunch? && e.escape && Step(db, e).queues != db.queues
    requires !ThreeAborted(db, e.agent, e.readGeneration + 1)
    ensures id in db.attempts && HalfAnHourOld(db, e.agent, e.readGeneration + 1, id)
  {
    AdmittedExactly(db, e.agent, e.id, e.escape, e.readGeneration, e.clear);
    id :| id in db.attempts && HalfAnHourOld(db, e.agent, e.readGeneration + 1, id);
  }

  lemma DeferredBefore(before: Db, next: Db, db: Db, e: Event, d: Deferral, id: AttemptId)
    requires next == Step(before, e) && next.deferrals == before.deferrals + [d]
    requires Continues(before, before) && Continues(before, db) && Continues(next, db)
    requires id in db.attempts && HalfAnHourOld(db, d.agent, d.generation, id)
    ensures d.at == before.now && d.at < db.attempts[id].startedAt && id !in before.attempts
  {
    OnlyNewDeferral(before, e, d);
    assert db.deferrals[|before.deferrals|] == next.deferrals[|before.deferrals|] == d;
    NotYetBegun(before, db, id);
  }

  lemma OnlyNewDeferral(db: Db, e: Event, d: Deferral)
    requires Step(db, e).deferrals == db.deferrals + [d]
    ensures d.at == db.now
  {
    assert Step(db, e).deferrals[|db.deferrals|] == d;
  }

  lemma NotYetBegun(before: Db, db: Db, id: AttemptId)
    requires Continues(before, before) && Continues(before, db)
    requires id in db.attempts && before.now < db.attempts[id].startedAt
    ensures id !in before.attempts
  {
  }

  // ---- One relaunch per attempt ----

  /** The request asks for an attempt whose earlier relaunch is still queued. */
  predicate Overlapping(db: Db, e: Event) {
    e.Relaunch? && exists i :: 0 <= i < |QueueOf(db, e.agent)| && QueueOf(db, e.agent)[i].attempt == e.id
  }

  ghost predicate NoOverlaps(generations: map<AgentId, nat>, now: nat, events: seq<Event>) {
    forall k :: 0 <= k < |events| ==> !Overlapping(Run(generations, now, events[..k]), events[k])
  }

  ghost predicate NoRepeats(db: Db) {
    && (forall a, i, k :: a in db.queues && 0 <= i < k < |db.queues[a]| ==>
          db.queues[a][i].attempt != db.queues[a][k].attempt)
    && (forall a, i, k :: a in db.queues && 0 <= i < |db.queues[a]| && 0 <= k < |db.relaunches| ==>
          db.queues[a][i].attempt != db.relaunches[k].ticket.attempt)
    && (forall i, k :: 0 <= i < k < |db.relaunches| ==>
          db.relaunches[i].ticket.attempt != db.relaunches[k].ticket.attempt)
  }

  lemma NoRepeatsStep(db: Db, e: Event)
    requires Inv(db) && NoRepeats(db) && !Overlapping(db, e)
    ensures NoRepeats(Step(db, e))
  {
    match e
    case Relaunch(a, id, escape, readGeneration, clear) => AdmittedHasNoRepeats(db, e);
    case RunTicket(a, fails) =>
      if QueueOf(db, a) != [] {
        PoppedHasNoRepeats(db, a);
        LoggedHasNoRepeats(db, a);
      }
    case _ =>
  }

  lemma AdmittedHasNoRepeats(db: Db, e: Event)
    requires Inv(db) && NoRepeats(db) && !Overlapping(db, e) && e.Relaunch?
    ensures NoRepeats(Step(db, e))
  {
    if Step(db, e).queues != db.queues {
      assert forall k :: 0 <= k < |db.relaunches| ==> db.relaunches[k].ticket.attempt != e.id;
      assert forall i :: 0 <= i < |QueueOf(db, e.agent)| ==> QueueOf(db, e.agent)[i].attempt != e.id;
    }
  }

  lemma PoppedHasNoRepeats(db: Db, a: AgentId)
    requires NoRepeats(db) && QueueOf(db, a) != []
    ensures NoRepeats(db.(queues := db.queues[a := QueueOf(db, a)[1..]]))
  {
    var q := db.queues[a];
    assert forall i :: 0 <= i < |q[1..]| ==> q[1..][i] == q[i + 1];
  }

  lemma LoggedHasNoRepeats(db: Db, a: AgentId)
    requires Inv(db) && NoRepeats(db) && QueueOf(db, a) != []
    ensures NoRepeats(db.(queues := db.queues[a := QueueOf(db, a)[1..]],
                          relaunches := db.relaunches + [Done(QueueOf(db, a)[0], db.events)]))
  {
    PoppedHasNoRepeats(db, a);
    var q := db.queues[a];
    var after := db.(queues := db.queues[a := q[1..]], relaunches := db.relaunches + [Done(q[0], db.events)]);
    forall x, i | x in after.queues && 0 <= i < |after.queues[x]| ensures after.queues[x][i].attempt != q[0].attempt {
      if x == a {
        assert after.queues[a][i] == q[i + 1];
      } else {
        assert TicketOk(db, x, db.queues[x][i]) && TicketOk(db, a, q[0]);
      }
    }
    assert forall k :: 0 <= k < |db.relaunches| ==> db.relaunches[k].ticket.attempt != q[0].attempt;
  }

  /** Requests for one attempt that never overlap relaunch it at most once. */
  lemma {:induction false} WithoutOverlapsOneRelaunchEach(generations: map<AgentId, nat>, now: nat, events: seq<Event>)
    requires NoOverlaps(generations, now, events)
    ensures NoRepeats(Run(generations, now, events))
  {
    if events != [] {
      var n := |events| - 1;
      assert forall k :: 0 <= k < n ==> events[..n][..k] == events[..k] && events[..n][k] == events[k];
      WithoutOverlapsOneRelaunchEach(generations, now, events[..n]);
      EveryRunKeeps(generations, now, events[..n]);
      NoRepeatsStep(Run(generations, now, events[..n]), events[n]);
    }
  }

  /** Requests that do overlap both go through: two tickets for one attempt at the head of a queue
      are two relaunches, and the second one stops the session the first one started. */
  lemma OverlapRelaunchesTwice(db: Db, a: AgentId)
    requires Inv(db) && |QueueOf(db, a)| >= 2 && QueueOf(db, a)[0].attempt == QueueOf(db, a)[1].attempt
    ensures var after := Step(Step(db, RunTicket(a, false)), RunTicket(a, false));
            var n := |db.relaunches|;
            && |after.relaunches| == n + 2
            && after.relaunches[n].ticket.attempt == after.relaunches[n + 1].ticket.attempt
  {
    assert TicketOk(db, a, db.queues[a][0]);
    var one := Step(db, RunTicket(a, false));
    assert QueueOf(one, a) == QueueOf(db, a)[1..];
  }

  /** The lifecycle lock runs the first `n` tickets of the agent's queue, and none fails. */
  function Drained(db: Db, a: AgentId, n: nat): Db
    decreases n
  {
    if n == 0 then db else Drained(Step(db, RunTicket(a, false)), a, n - 1)
  }

  /** The log `after` is the log `before` with the tickets of `q` behind it, in order. */
  ghost predicate Logged(before: seq<Done>, q: seq<Ticket>, after: seq<Done>) {
    && |after| == |before| + |q|
    && (forall i :: 0 <= i < |before| ==> after[i] == before[i])
    && (forall i :: 0 <= i < |q| ==> after[|before| + i].ticket == q[i])
  }

  lemma LoggedNext(before: seq<Done>, q: seq<Ticket>, d: Done, after: seq<Done>)
    requires q != [] && d.ticket == q[0] && Logged(before + [d], q[1..], after)
    ensures Logged(before, q, after)
  {
    var m := |before|;
    forall i | 0 <= i < |q| ensures after[m + i].ticket == q[i] {
      if i > 0 {
        assert after[|before + [d]| + (i - 1)].ticket == q[1..][i - 1];
      }
    }
  }

  /** The tickets are logged in order. */
  lemma {:induction false} DrainLogs(db: Db, a: AgentId, n: nat)
    requires Inv(db) && n <= |QueueOf(db, a)|
    ensures Logged(db.relaunches, QueueOf(db, a)[..n], Drained(db, a, n).relaunches)
    decreases n
  {
    if n > 0 {
      var q := QueueOf(db, a);
      var next := Step(db, RunTicket(a, false));
      RunsHeadFirst(db, a);
      StepKeeps(db, RunTicket(a, false));
      DrainLogs(next, a, n - 1);
      assert q[..n][1..] == q[1..][..n - 1];
      LoggedNext(db.relaunches, q[..n], Done(q[0], db.events), Drained(next, a, n - 1).relaunches);
    }
  }

  lemma {:induction false} DrainHasNoRepeats(db: Db, a: AgentId, n: nat)
    requires Inv(db) && NoRepeats(db)
    ensures NoRepeats(Drained(db, a, n))
    decreases n
  {
    if n > 0 {
      NoRepeatsStep(db, RunTicket(a, false));
      StepKeeps(db, RunTicket(a, false));
      DrainHasNoRepeats(Step(db, RunTicket(a, false)), a, n - 1);
    }
  }

  /** Some attempt was relaunched twice. */
  ghost predicate RelaunchedTwice(db: Db) {
    exists i, k :: 0 <= i < k < |db.relaunches| && db.relaunches[i].ticket.attempt == db.relaunches[k].ticket.attempt
  }

  /** The request passes its gates and gets a place in the queue. */
  predicate Admitted(db: Db, e: Event) {
    e.Relaunch? && e.agent in db.generations && e.clear && Authorized(db, e.agent, e.id, e.escape, e.readGeneration + 1)
  }

  /** Two tickets for one attempt in a queue are two relaunches of it. */
  lemma DrainRepeats(db: Db, a: AgentId, i: nat, k: nat)
    requires Inv(db) && i < k < |QueueOf(db, a)| && QueueOf(db, a)[i].attempt == QueueOf(db, a)[k].attempt
    ensures RelaunchedTwice(Drained(db, a, |QueueOf(db, a)|))
  {
    var q := QueueOf(db, a);
    DrainLogs(db, a, |q|);
    assert q[..|q|] == q;
    LoggedTwice(db.relaunches, q, Drained(db, a, |q|), i, k);
  }

  lemma LoggedTwice(before: seq<Done>, q: seq<Ticket>, after: Db, i: nat, k: nat)
    requires Logged(before, q, after.relaunches) && i < k < |q| && q[i].attempt == q[k].attempt
    ensures RelaunchedTwice(after)
  {
    assert after.relaunches[|before| + i].ticket == q[i] && after.relaunches[|before| + k].ticket == q[k];
  }

  lemma AdmittedIsLast(db: Db, e: Event)
    requires Admitted(db, e)
    ensures QueueOf(Step(db, e), e.agent)
         == QueueOf(db, e.agent) + [Ticket(e.agent, e.id, e.escape, e.readGeneration, db.events)]
  {
  }

  lemma OverlappingRepeats(db: Db, e: Event)
    requires Inv(db) && Admitted(db, e) && Overlapping(db, e)
    ensures RelaunchedTwice(Drained(Step(db, e), e.agent, |QueueOf(Step(db, e), e.agent)|))
  {
    var n := |QueueOf(db, e.agent)|;
    var i :| 0 <= i < n && QueueOf(db, e.agent)[i].attempt == e.id;
    AdmittedIsLast(db, e);
    StepKeeps(db, e);
    DrainRepeats(Step(db, e), e.agent, i, n);
  }

  /** Main result. From every run state in which no attempt is queued or relaunched twice, admit one
      more request and let the lock run the agent's queue without a failure: some attempt is relaunched
      twice if and only if the request overlapped one for the same attempt that was still queued. */
  lemma TwiceExactlyWhenOverlapping(generations: map<AgentId, nat>, now: nat, events: seq<Event>, e: Event)
    requires NoRepeats(Run(generations, now, events)) && Admitted(Run(generations, now, events), e)
    ensures
      var db := Run(generations, now, events);
      var admitted := Step(db, e);
      RelaunchedTwice(Drained(admitted, e.agent, |QueueOf(admitted, e.agent)|)) <==> Overlapping(db, e)
  {
    var db := Run(generations, now, events);
    EveryRunKeeps(generations, now, events);
    if Overlapping(db, e) {
      OverlappingRepeats(db, e);
    } else {
      NoRepeatsStep(db, e);
      StepKeeps(db, e);
      DrainHasNoRepeats(Step(db, e), e.agent, |QueueOf(Step(db, e), e.agent)|);
    }
  }

  // ---- Generations ----

  /** The agent row was still current when the gates were checked. */
  ghost predicate FreshReads(generations: map<AgentId, nat>, now: nat, events: seq<Event>) {
    forall k :: 0 <= k < |events| && events[k].Relaunch? && events[k].agent in generations ==>
      var db := Run(generations, now, events[..k]);
      events[k].agent in db.generations && events[k].readGeneration == db.generations[events[k].agent]
  }

  /** Queued relaunches ascend, and none is behind generation `g` or more than one ahead of it. */
  ghost predicate InOrder(q: seq<Ticket>, g: nat) {
    && (forall i :: 0 <= i < |q| ==> g <= q[i].readGeneration + 1 <= g + 1)
    && (forall i, k :: 0 <= i <= k < |q| ==> q[i].readGeneration <= q[k].readGeneration)
  }

  ghost predicate QueuesInOrder(db: Db) {
    forall a :: a in db.queues ==> a in db.generations && InOrder(db.queues[a], db.generations[a])
  }

  /** No attempt is more than one generation ahead of its agent. */
  ghost predicate AttemptsInOrder(db: Db) {
    forall id :: id in db.attempts ==>
      db.attempts[id].agent in db.generations
      && db.attempts[id].generation <= db.generations[db.attempts[id].agent] + 1
  }

  predicate NotLower(before: map<AgentId, nat>, after: map<AgentId, nat>) {
    before.Keys == after.Keys && forall a :: a in before ==> before[a] <= after[a]
  }

  lemma TailInOrder(q: seq<Ticket>, g: nat)
    requires q != [] && InOrder(q, g)
    ensures InOrder(q[1..], g) && InOrder(q[1..], q[0].readGeneration + 1) && g <= q[0].readGeneration + 1
  {
    forall i | 0 <= i < |q[1..]| ensures q[1..][i] == q[i + 1] && q[0].readGeneration <= q[i + 1].readGeneration {
    }
  }

  lemma PoppedAscends(db: Db, a: AgentId)
    requires QueuesInOrder(db) && AttemptsInOrder(db) && QueueOf(db, a) != []
    ensures Ascends(db, db.(queues := db.queues[a := QueueOf(db, a)[1..]]))
  {
    TailInOrder(QueueOf(db, a), db.generations[a]);
  }

  /** Raising the generation of one agent to what its queue still expects. */
  lemma RaisedAscends(db: Db, a: AgentId, g: nat)
    requires QueuesInOrder(db) && AttemptsInOrder(db) && a in db.generations && db.generations[a] <= g
    requires a in db.queues ==> InOrder(db.queues[a], g)
    ensures Ascends(db, db.(generations := db.generations[a := g]))
  {
  }

  lemma ClosedInOrder(db: Db, id: AttemptId, status: Status)
    requires QueuesInOrder(db) && AttemptsInOrder(db) && id in db.attempts
    ensures Ascends(db, Close(db, id, status))
  {
  }

  lemma CommitAscends(db: Db, a: AgentId)
    requires Inv(db) && QueuesInOrder(db) && AttemptsInOrder(db) && QueueOf(db, a) != []
    ensures Ascends(db, Step(db, RunTicket(a, false)))
  {
    var q := QueueOf(db, a);
    assert TicketOk(db, a, q[0]);
    TailInOrder(q, db.generations[a]);
    var popped := db.(queues := db.queues[a := q[1..]]);
    PoppedAscends(db, a);
    var g := q[0].readGeneration + 1;
    var raised := popped.(generations := db.generations[a := g]);
    RaisedAscends(popped, a, g);
    ClosedInOrder(raised, q[0].attempt, Relaunched);
    LoggedInOrder(db, Close(raised, q[0].attempt, Relaunched), Step(db, RunTicket(a, false)));
  }

  lemma LoggedInOrder(db: Db, closed: Db, after: Db)
    requires Ascends(db, closed) && after == closed.(relaunches := after.relaunches, events := after.events)
    ensures Ascends(db, after)
  {
  }

  lemma RunTicketAscends(db: Db, a: AgentId, fails: bool)
    requires Inv(db) && QueuesInOrder(db) && AttemptsInOrder(db)
    ensures Ascends(db, Step(db, RunTicket(a, fails)))
  {
    if QueueOf(db, a) != [] && !fails {
      CommitAscends(db, a);
    } else {
      NothingCommitted(db, a, fails);
    }
  }

  lemma NothingCommitted(db: Db, a: AgentId, fails: bool)
    requires QueuesInOrder(db) && AttemptsInOrder(db) && (QueueOf(db, a) == [] || fails)
    ensures Ascends(db, Step(db, RunTicket(a, fails)))
  {
    var after := Step(db, RunTicket(a, fails));
    if QueueOf(db, a) == [] {
      assert after == db.(events := db.events + 1) && Ascends(db, db);
      LoggedInOrder(db, db, after);
    } else {
      PoppedAscends(db, a);
      LoggedInOrder(db, db.(queues := db.queues[a := QueueOf(db, a)[1..]]), after);
    }
  }

  /** Everything in order after the step, and no generation lowered. */
  ghost predicate Ascends(db: Db, after: Db) {
    QueuesInOrder(after) && AttemptsInOrder(after) && NotLower(db.generations, after.generations)
  }

  lemma AdmitAscends(db: Db, e: Event)
    requires QueuesInOrder(db) && AttemptsInOrder(db) && e.Relaunch?
    requires e.agent in db.generations ==> e.readGeneration == db.generations[e.agent]
    ensures Ascends(db, Step(db, e))
  {
    if e.agent in db.generations {
      var q, t := QueueOf(db, e.agent), Ticket(e.agent, e.id, e.escape, e.readGeneration, db.events);
      assert InOrder(q + [t], db.generations[e.agent]);
    }
  }

  lemma OtherStepAscends(db: Db, e: Event)
    requires QueuesInOrder(db) && AttemptsInOrder(db) && !e.RunTicket? && !e.Relaunch?
    ensures Ascends(db, Step(db, e))
  {
    var after := Step(db, e);
    assert after.queues == db.queues && after.generations == db.generations;
  }

  lemma StepAscends(db: Db, e: Event)
    requires Inv(db) && QueuesInOrder(db) && AttemptsInOrder(db)
    requires e.Relaunch? && e.agent in db.generations ==> e.readGeneration == db.generations[e.agent]
    ensures Ascends(db, Step(db, e))
  {
    if e.RunTicket? {
      RunTicketAscends(db, e.agent, e.fails);
    } else if e.Relaunch? {
      AdmitAscends(db, e);
    } else {
      OtherStepAscends(db, e);
    }
  }

  /** With fresh reads the generation of an agent never drops, over any run. */
  lemma {:induction false} FreshReadsNeverDrop(generations: map<AgentId, nat>, now: nat, events: seq<Event>)
    requires FreshReads(generations, now, events)
    ensures var db := Run(generations, now, events);
            QueuesInOrder(db) && AttemptsInOrder(db) && NotLower(generations, db.generations)
    ensures events != [] ==> NotLower(Run(generations, now, events[..|events| - 1]).generations,
                                      Run(generations, now, events).generations)
  {
    if events != [] {
      var n := |events| - 1;
      assert forall k :: 0 <= k < n ==> events[..n][..k] == events[..k] && events[..n][k] == events[k];
      FreshReadsNeverDrop(generations, now, events[..n]);
      EveryRunKeeps(generations, now, events[..n]);
      StepAscends(Run(generations, now, events[..n]), events[n]);
    }
  }

  /** When exactly a relaunch lowers the generation: its reading of the agent is two or more
      generations old by the time it commits. */
  lemma DropsExactlyWhenStale(db: Db, a: AgentId)
    requires Inv(db) && QueueOf(db, a) != []
    ensures var t := QueueOf(db, a)[0];
            a in db.generations
            && (Step(db, RunTicket(a, false)).generations[a] < db.generations[a]
                <==> db.generations[a] >= t.readGeneration + 2)
  {
    assert TicketOk(db, a, QueueOf(db, a)[0]);
  }

  /** A relaunch that raises the generation starts a new effort budget: nothing of the old cycle
      counts towards the escape of the next one. */
  lemma NewGenerationHasFullBudget(db: Db, a: AgentId)
    requires Inv(db) && AttemptsInOrder(db) && QueueOf(db, a) != []
    requires a in db.generations && QueueOf(db, a)[0].readGeneration == db.generations[a]
    ensures var after := Step(db, RunTicket(a, false));
            && after.generations[a] == db.generations[a] + 1
            && !BudgetExhausted(after, a, after.generations[a] + 1)
  {
    assert TicketOk(db, a, QueueOf(db, a)[0]);
    var after := Step(db, RunTicket(a, false));
    var g := after.generations[a] + 1;
    assert forall id :: id in after.attempts && after.attempts[id].agent == a ==> after.attempts[id].generation < g;
    assert AbortedSince(after, a, g) == {};
  }

  // ---- Two runs that go wrong ----

  /** A supervisor has written the note of its first attempt. */
  function Noted(): Db {
    var begun := Step(Start(map[0 := 0], 0), OpenAttempt(0, 7));
    Step(Step(begun, Tick(1)), WriteNote(0, 7, true))
  }

  lemma NotedIs()
    ensures Noted() == Db(map[0 := 0], map[7 := Attempt(0, 1, 0, Committed)], [Brick(0, 7, 1)], [], map[], [], 1, 3)
    ensures ByNote(Noted(), 0, 7, 1)
  {
    var begun := Step(Start(map[0 := 0], 0), OpenAttempt(0, 7));
    assert begun == Db(map[0 := 0], map[7 := Attempt(0, 1, 0, Open)], [], [], map[], [], 0, 1);
    assert Noted().bricks[0] == Brick(0, 7, 1);
  }

  lemma AdmitOnNote(db: Db, a: AgentId, id: AttemptId, readGeneration: nat)
    requires a in db.generations && ByNote(db, a, id, readGeneration + 1)
    ensures var after := Step(db, Relaunch(a, id, false, readGeneration, true));
            && after == db.(queues := db.queues[a := QueueOf(db, a) + [Ticket(a, id, false, readGeneration, db.events)]],
                            events := db.events + 1)
            && ByNote(after, a, id, readGeneration + 1)
  {
    var after := Step(db, Relaunch(a, id, false, readGeneration, true));
    var i :| 0 <= i < |db.bricks| && db.bricks[i].agent == a && db.bricks[i].attempt == id
             && db.bricks[i].writtenAt > db.attempts[id].startedAt;
    assert after.bricks[i] == db.bricks[i];
  }

  /** Posting the relaunch of a committed attempt twice before the first post has committed
      relaunches the agent twice: the gates of the second post still see the attempt committed. */
  lemma DoublePostRelaunchesTwice(db: Db, a: AgentId, id: AttemptId)
    requires Inv(db) && a in db.generations && QueueOf(db, a) == [] && ByNote(db, a, id, db.generations[a] + 1)
    ensures var post := Relaunch(a, id, false, db.generations[a], true);
            var after := Step(Step(Step(Step(db, post), post), RunTicket(a, false)), RunTicket(a, false));
            var n := |db.relaunches|;
            && |after.relaunches| == n + 2
            && after.relaunches[n].ticket.attempt == after.relaunches[n + 1].ticket.attempt == id
  {
    var post := Relaunch(a, id, false, db.generations[a], true);
    AdmitOnNote(db, a, id, db.generations[a]);
    AdmitOnNote(Step(db, post), a, id, db.generations[a]);
    StepKeeps(db, post);
    StepKeeps(Step(db, post), post);
    OverlapRelaunchesTwice(Step(Step(db, post), post), a);
    RunsHeadFirst(Step(Step(db, post), post), a);
  }

  lemma RunsHeadFirst(db: Db, a: AgentId)
    requires Inv(db) && QueueOf(db, a) != []
    ensures var after := Step(db, RunTicket(a, false));
            && after.relaunches == db.relaunches + [Done(QueueOf(db, a)[0], db.events)]
            && QueueOf(after, a) == QueueOf(db, a)[1..]
            && a in after.generations && after.generations[a] == QueueOf(db, a)[0].readGeneration + 1
  {
    assert TicketOk(db, a, QueueOf(db, a)[0]);
  }

  /** One complete hand-over, without any interference. */
  function HandOver(db: Db, a: AgentId, id: AttemptId): Db {
    var noted := Step(Step(Step(db, OpenAttempt(a, id)), Tick(1)), WriteNote(a, id, true));
    var g := if a in db.generations then db.generations[a] else 0;
    Step(Step(noted, Relaunch(a, id, false, g, true)), RunTicket(a, false))
  }

  /** The note of a new attempt: what the first three steps of a hand-over leave. */
  lemma NewNote(db: Db, a: AgentId, id: AttemptId)
    requires a in db.generations && id !in db.attempts && !HasOpen(db, a)
    ensures var g := db.generations[a] + 1;
            var noted := Step(Step(Step(db, OpenAttempt(a, id)), Tick(1)), WriteNote(a, id, true));
            && noted == db.(attempts := db.attempts[id := Attempt(a, g, db.now, Committed)],
                            bricks := db.bricks + [Brick(a, id, db.now + 1)], now := db.now + 1, events := db.events + 3)
            && ByNote(noted, a, id, g)
  {
    var g := db.generations[a] + 1;
    var begun := Step(Step(db, OpenAttempt(a, id)), Tick(1));
    assert begun == db.(attempts := db.attempts[id := Attempt(a, g, db.now, Open)], now := db.now + 1, events := db.events + 2);
    assert OpenFor(begun, a, id);
    var noted := Step(begun, WriteNote(a, id, true));
    assert noted.attempts == db.attempts[id := Attempt(a, g, db.now, Committed)];
    assert noted.bricks[|db.bricks|] == Brick(a, id, db.now + 1);
  }

  /** Committing the only ticket of an agent. */
  lemma OnlyTicket(db: Db, a: AgentId, t: Ticket)
    requires QueueOf(db, a) == [t] && t.attempt in db.attempts
    ensures var after := Step(db, RunTicket(a, false));
            && after.generations == db.generations[a := db.attempts[t.attempt].generation]
            && after.attempts == Close(db, t.attempt, Relaunched).attempts
            && after.bricks == db.bricks && QueueOf(after, a) == []
  {
  }

  lemma HandOverRaises(db: Db, a: AgentId, id: AttemptId)
    requires a in db.generations && id !in db.attempts && !HasOpen(db, a) && QueueOf(db, a) == []
    ensures var after := HandOver(db, a, id);
            && after.generations == db.generations[a := db.generations[a] + 1]
            && after.attempts == db.attempts[id := Attempt(a, db.generations[a] + 1, db.now, Relaunched)]
            && after.bricks == db.bricks + [Brick(a, id, db.now + 1)]
            && QueueOf(after, a) == [] && !HasOpen(after, a)
  {
    var noted := Step(Step(Step(db, OpenAttempt(a, id)), Tick(1)), WriteNote(a, id, true));
    NewNote(db, a, id);
    AdmitOnNote(noted, a, id, db.generations[a]);
    var admitted := Step(noted, Relaunch(a, id, false, db.generations[a], true));
    OnlyTicket(admitted, a, QueueOf(admitted, a)[0]);
    StillNoneOpen(db, HandOver(db, a, id), a, id);
  }

  lemma StillNoneOpen(db: Db, after: Db, a: AgentId, id: AttemptId)
    requires !HasOpen(db, a) && id in after.attempts && after.attempts[id].status != Open
    requires forall k :: k in after.attempts && k != id ==> k in db.attempts && after.attempts[k] == db.attempts[k]
    ensures !HasOpen(after, a)
  {
    forall k | k in after.attempts ensures !OpenFor(after, a, k) {
      assert k != id ==> !OpenFor(db, a, k);
    }
  }

  lemma HandOverKeepsOldNote(db: Db, a: AgentId, id: AttemptId, past: AttemptId, g: nat)
    requires a in db.generations && id !in db.attempts && !HasOpen(db, a) && QueueOf(db, a) == []
    requires ByNote(db, a, past, g)
    ensures ByNote(HandOver(db, a, id), a, past, g)
  {
    HandOverRaises(db, a, id);
    var i :| 0 <= i < |db.bricks| && db.bricks[i].agent == a && db.bricks[i].attempt == past
             && db.bricks[i].writtenAt > db.attempts[past].startedAt;
    assert HandOver(db, a, id).bricks[i] == db.bricks[i];
  }

  function HandedOverOnce(): Db { HandOver(Noted(), 0, 8) }

  lemma FirstHandOver(db: Db)
    requires db.generations == map[0 := 0] && db.attempts.Keys == {7} && !HasOpen(db, 0) && QueueOf(db, 0) == []
    requires ByNote(db, 0, 7, 1)
    ensures var after := HandOver(db, 0, 8);
            && after.generations == map[0 := 1] && 9 !in after.attempts && !HasOpen(after, 0)
            && QueueOf(after, 0) == [] && ByNote(after, 0, 7, 1)
  {
    HandOverRaises(db, 0, 8);
    HandOverKeepsOldNote(db, 0, 8, 7, 1);
  }

  lemma HandedOverOnceIs()
    ensures var db := HandedOverOnce();
            && db.generations == map[0 := 1] && 9 !in db.attempts && !HasOpen(db, 0) && QueueOf(db, 0) == []
            && ByNote(db, 0, 7, 1)
  {
    NotedIs();
    assert !HasOpen(Noted(), 0);
    FirstHandOver(Noted());
  }

  /** A relaunch request that read the agent before its body and is checked after two more
      hand-overs passes the gates on an old committed attempt, and sets the generation back. */
  lemma StaleReadLowersGeneration()
    ensures var late := HandOver(HandedOverOnce(), 0, 9);
            var after := Step(Step(late, Relaunch(0, 7, false, 0, true)), RunTicket(0, false));
            && late.generations == map[0 := 2] && after.generations == map[0 := 1]
  {
    HandedOverOnceIs();
    SecondHandOver(HandedOverOnce());
  }

  lemma SecondHandOver(db: Db)
    requires db.generations == map[0 := 1] && 9 !in db.attempts && !HasOpen(db, 0) && QueueOf(db, 0) == []
    requires ByNote(db, 0, 7, 1)
    ensures var late := HandOver(db, 0, 9);
            var after := Step(Step(late, Relaunch(0, 7, false, 0, true)), RunTicket(0, false));
            && late.generations == map[0 := 2] && after.generations == map[0 := 1]
  {
    HandOverRaises(db, 0, 9);
    HandOverKeepsOldNote(db, 0, 9, 7, 1);
    var late := HandOver(db, 0, 9);
    AdmitOnNote(late, 0, 7, 0);
    var admitted := Step(late, Relaunch(0, 7, false, 0, true));
    OnlyTicket(admitted, 0, QueueOf(admitted, 0)[0]);
  }

  lemma OneOpenAttempt(db: Db, a: AgentId, id: AttemptId)
    requires OneOpen(db) && OpenFor(db, a, id)
    ensures forall k :: k in db.attempts && OpenFor(db, a, k) ==> k == id
  {
  }

  // ---- The routes ----

  class Routes {
    var generations: map<AgentId, nat>
    var attempts: map<AttemptId, Attempt>
    var bricks: seq<Brick>
    var deferrals: seq<Deferral>
    var queues: map<AgentId, seq<Ticket>>
    var relaunches: seq<Done>
    var now: nat
    var events: nat

    function State(): Db
      reads this
    {
      Db(generations, attempts, bricks, deferrals, queues, relaunches, now, events)
    }

    ghost predicate Valid()
      reads this
    {
      Inv(State())
    }

    constructor (generations: map<AgentId, nat>, now: nat)
      ensures Valid() && State() == Start(generations, now)
    {
      this.generations, this.now, events := generations, now, 0;
      attempts, bricks, deferrals, queues, relaunches := map[], [], [], map[], [];
    }

    method CloseAttempt(id: AttemptId, status: Status)
      requires id in attempts
      modifies this`attempts
      ensures attempts == old(attempts)[id := old(attempts)[id].(status := status)]
    {
      attempts := attempts[id := attempts[id].(status := status)];
    }

    /** The open attempt of an agent. */
    method FindOpen(a: AgentId) returns (found: Option<AttemptId>)
      ensures found.Some? <==> HasOpen(State(), a)
      ensures found.Some? ==> OpenFor(State(), a, found.value)
    {
      if exists k :: k in attempts && OpenFor(State(), a, k) {
        var k :| k in attempts && OpenFor(State(), a, k);
        return Some(k);
      }
      return None;
    }

    /** POST continuation-attempt: mints the successor generation unless an attempt is open. */
    method PostAttempt(a: AgentId, id: AttemptId) returns (generation: Option<nat>)
      requires Valid() && id !in attempts
      modifies this
      ensures Valid() && State() == Step(old(State()), OpenAttempt(a, id))
      ensures generation.Some? <==> a in old(generations) && !HasOpen(old(State()), a)
      ensures generation.Some? ==> id in attempts && generation == Some(attempts[id].generation)
    {
      OpenKeeps(State(), a, id);
      ghost var next := Step(State(), OpenAttempt(a, id));
      var found := FindOpen(a);
      generation := None;
      if a in generations && found.None? {
        attempts := attempts[id := Attempt(a, generations[a] + 1, now, Open)];
        generation := Some(generations[a] + 1);
      }
      events := events + 1;
      assert State() == next;
    }

    /** POST continuation-brick: the author's open attempt gets the note and is committed. */
    method PostBrick(a: AgentId, acceptable: bool) returns (id: Option<AttemptId>)
      requires Valid()
      modifies this
      ensures Valid() && (id.Some? <==> acceptable && HasOpen(old(State()), a))
      ensures id.Some? ==> State() == Step(old(State()), WriteNote(a, id.value, acceptable))
                           && OpenFor(old(State()), a, id.value)
      ensures id.None? ==> State() == old(State())
    {
      id := FindOpen(a);
      if !acceptable || id.None? { return None; }
      NoteKeeps(State(), a, id.value, acceptable);
      ghost var next := Step(State(), WriteNote(a, id.value, acceptable));
      bricks := bricks + [Brick(a, id.value, now)];
      CloseAttempt(id.value, Committed);
      events := events + 1;
      assert State() == next;
    }

    /** POST continuation-deferral: closes the open attempt unless the generation's deferrals are
        spent. */
    method PostDeferral(a: AgentId, acceptable: bool) returns (id: Option<AttemptId>)
      requires Valid()
      modifies this
      ensures Valid()
      ensures id.Some? ==> OpenFor(old(State()), a, id.value) && acceptable
                           && State() == Step(old(State()), Defer(a, id.value, acceptable))
                           && |deferrals| == |old(deferrals)| + 1
      ensures id.None? ==> State() == old(State())
      ensures id.Some? <==> acceptable && CanDefer(old(State()), a)
    {
      id := FindOpen(a);
      if id.Some? {
        OneOpenAttempt(State(), a, id.value);
      }
      if !acceptable || id.None? { return None; }
      var g := attempts[id.value].generation;
      if Deferrals(deferrals, a, g) >= MAX_DEFERRALS { return None; }
      DeferKeeps(State(), a, id.value, acceptable);
      ghost var next := Step(State(), Defer(a, id.value, acceptable));
      deferrals := deferrals + [Deferral(a, id.value, g, now)];
      CloseAttempt(id.value, Deferred);
      events := events + 1;
      assert State() == next;
    }

    /** The tail of POST continuation-relaunch: all gates again, then a place in the lock's queue. */
    method PostRelaunch(a: AgentId, id: AttemptId, escape: bool, readGeneration: nat,
        clear: bool) returns (admitted: bool)
      requires Valid()
      modifies this
      ensures Valid() && State() == Step(old(State()), Relaunch(a, id, escape, readGeneration, clear))
      ensures admitted <==> a in old(generations) && clear && Authorized(old(State()), a, id, escape, readGeneration + 1)
    {
      AdmitKeeps(State(), a, id, escape, readGeneration, clear);
      ghost var next := Step(State(), Relaunch(a, id, escape, readGeneration, clear));
      admitted := a in generations && clear && Authorized(State(), a, id, escape, readGeneration + 1);
      if admitted {
        queues := queues[a := QueueOf(State(), a) + [Ticket(a, id, escape, readGeneration, events)]];
      }
      events := events + 1;
      assert State() == next;
    }

    /** The lifecycle lock runs the next relaunch of the agent; it may fail before it commits. */
    method RunNext(a: AgentId, fails: bool)
      requires Valid()
      modifies this
      ensures Valid() && State() == Step(old(State()), RunTicket(a, fails))
    {
      StepKeeps(State(), RunTicket(a, fails));
      ghost var next := Step(State(), RunTicket(a, fails));
      var q := QueueOf(State(), a);
      if q != [] {
        assert TicketOk(State(), a, q[0]);
        queues := queues[a := q[1..]];
        if !fails {
          generations := generations[a := attempts[q[0].attempt].generation];
          CloseAttempt(q[0].attempt, Relaunched);
          relaunches := relaunches + [Done(q[0], events)];
        }
      }
      events := events + 1;
      assert State() == next;
    }
  }
}
