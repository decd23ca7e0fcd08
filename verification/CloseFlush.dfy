/** The close-flush dialog loop: flush every window, then retry, force, discard or cancel until no
    failure is left. Renderers, window lifetimes and the user's choices are arbitrary inputs. */
module CloseFlush {
  import opened Prelude
  import opened FlushReplies

  type TargetId = string
  type TabTable = map<string, TabOutcome>
  type Latest = map<TargetId, TabTable>

  const WINDOW_PREFIX := "window:"

  /** The fabricated tab id of a window that never replied. */
  function WindowRow(t: TargetId): string { WINDOW_PREFIX + t }

  predicate Synthetic(tab: string) { WINDOW_PREFIX <= tab }

  predicate IsFailure(o: TabOutcome) { o in {Conflict, Error, Timeout} }

  /** The rows a settled request contributes. */
  function Rows(t: TargetId, how: Settlement): seq<FlushResult> {
    match how
    case Replied(results) => results
    case TimedOut => [FlushResult(WindowRow(t), Timeout)]
    case SendFailed => [FlushResult(WindowRow(t), Error)]
  }

  // ---- Merging a round ----

  predicate HasReal(rows: seq<FlushResult>) {
    exists i :: 0 <= i < |rows| && !Synthetic(rows[i].tabId)
  }

  function SetRows(per: TabTable, rows: seq<FlushResult>): TabTable
    decreases rows
  {
    if rows == [] then per else SetRows(per[rows[0].tabId := rows[0].outcome], rows[1..])
  }

  /** A real row supersedes the fabricated one, then every row overwrites its tab. */
  function Merge(t: TargetId, per: TabTable, rows: seq<FlushResult>): TabTable {
    SetRows(if HasReal(rows) then per - {WindowRow(t)} else per, rows)
  }

  function PerTarget(latest: Latest, t: TargetId): TabTable {
    if t in latest then latest[t] else map[]
  }

  // ---- Planning a round ----

  datatype Action = Flush | Retry | Force

  /** A request to one window; no tabs means the whole window. */
  datatype Request = Request(action: Action, tabs: Option<set<string>>)

  type Requests = map<TargetId, Request>

  datatype Label = KeepWaiting | OverwriteAnyway | Discard | Cancel

  /** What the environment supplies for one dialog: the button pressed, the windows still alive
      when the next round is planned, and how each request of that round settles. */
  datatype Answer = Answer(button: int, alive: set<TargetId>, settled: map<TargetId, Settlement>)

  predicate Failing(per: TabTable, tab: string) { tab in per && IsFailure(per[tab]) }

  predicate AnyFailure(latest: Latest) {
    exists t, tab :: t in latest && tab in latest[t] && IsFailure(latest[t][tab])
  }

  predicate AnyConflict(latest: Latest) {
    exists t, tab :: t in latest && tab in latest[t] && latest[t][tab] == Conflict
  }

  /** The buttons depend on whether there is a conflict; anything else pressed is Cancel. */
  function Chosen(conflicts: bool, button: int): Label {
    if button == 0 then KeepWaiting
    else if conflicts && button == 1 then OverwriteAnyway
    else if button == (if conflicts then 2 else 1) then Discard
    else Cancel
  }

  function Wanted(per: TabTable, action: Action): set<string> {
    set tab | tab in per && (if action == Force then per[tab] == Conflict else per[tab] in {Error, Timeout})
  }

  /** One request per living window that has wanted tabs. A fabricated tab among them widens the
      request to the whole window. */
  function Plan(latest: Latest, action: Action, alive: set<TargetId>): Requests {
    map t | t in latest && Wanted(latest[t], action) != {} && t in alive ::
      var tabs := Wanted(latest[t], action);
      Request(action, if exists tab :: tab in tabs && Synthetic(tab) then None else Some(tabs))
  }

  /** Windows with wanted tabs that are gone; planning drops their rows. */
  function Gone(latest: Latest, action: Action, alive: set<TargetId>): set<TargetId> {
    set t | t in latest && Wanted(latest[t], action) != {} && t !in alive
  }

  function SettledAs(settled: map<TargetId, Settlement>, t: TargetId): Settlement {
    if t in settled then settled[t] else TimedOut
  }

  function RunRound(latest: Latest, asked: set<TargetId>, settled: map<TargetId, Settlement>): Latest {
    map t | t in latest.Keys + asked ::
      if t in asked then Merge(t, PerTarget(latest, t), Rows(t, SettledAs(settled, t))) else latest[t]
  }

  // ---- The loop, with the history of every window ----

  datatype Event = Report(tab: string, outcome: TabOutcome) | WindowGone

  datatype Verdict = Asking | Clean | Discarded | Cancelled

  /** The table, everything each window reported, and the requests of every round so far. */
  datatype Flow = Flow(latest: Latest, history: map<TargetId, seq<Event>>, sent: seq<Requests>, verdict: Verdict)

  function HistoryOf(f: Flow, t: TargetId): seq<Event> {
    if t in f.history then f.history[t] else []
  }

  function Reports(rows: seq<FlushResult>): seq<Event> {
    seq(|rows|, i requires 0 <= i < |rows| => Report(rows[i].tabId, rows[i].outcome))
  }

  /** Runs a round and looks whether a failure is left. */
  function AfterRound(f: Flow, plan: Requests, settled: map<TargetId, Settlement>): Flow {
    var asked := plan.Keys;
    var latest := RunRound(f.latest, asked, settled);
    Flow(latest,
         map t | t in f.history.Keys + asked ::
           if t in asked then HistoryOf(f, t) + Reports(Rows(t, SettledAs(settled, t))) else f.history[t],
         f.sent + [plan],
         if AnyFailure(latest) then Asking else Clean)
  }

  function WithoutGone(f: Flow, gone: set<TargetId>): Flow {
    f.(latest := f.latest - gone,
       history := map t | t in f.history.Keys + gone ::
         if t in gone then HistoryOf(f, t) + [WindowGone] else f.history[t])
  }

  function ActionOf(pressed: Label): Action {
    if pressed == OverwriteAnyway then Force else Retry
  }

  function Step(f: Flow, a: Answer): Flow {
    if f.verdict != Asking then f
    else
      match Chosen(AnyConflict(f.latest), a.button)
      case Cancel => f.(verdict := Cancelled)
      case Discard => f.(verdict := Discarded)
      case pressed =>
        var action := ActionOf(pressed);
        AfterRound(WithoutGone(f, Gone(f.latest, action, a.alive)), Plan(f.latest, action, a.alive), a.settled)
  }

  /** The first round asks every living window for everything. */
  function FirstPlan(alive: set<TargetId>): Requests {
    map t | t in alive :: Request(Flush, None)
  }

  const NOTHING_YET := Flow(map[], map[], [], Asking)

  /** The first round, then one dialog per answer. */
  function Run(alive: set<TargetId>, settled: map<TargetId, Settlement>, answers: seq<Answer>): Flow {
    if answers == [] then AfterRound(NOTHING_YET, FirstPlan(alive), settled)
    else Step(Run(alive, settled, answers[..|answers| - 1]), answers[|answers| - 1])
  }

  // ---- No silent close ----

  /** The failure reported at `i` was answered later: the same tab was reported saved or pristine,
      the window was gone, or a fabricated row was superseded by a real report. */
  predicate ResolvedLater(t: TargetId, h: seq<Event>, i: nat)
    requires i < |h| && h[i].Report?
  {
    exists j :: i < j < |h| && Answers(t, h[i].tab, h[j])
  }

  predicate Answers(t: TargetId, tab: string, e: Event) {
    || e.WindowGone?
    || (e.tab == tab && (e.outcome.Saved? || e.outcome.Pristine?))
    || (tab == WindowRow(t) && !Synthetic(e.tab))
  }

  predicate FailureAt(h: seq<Event>, i: int) {
    0 <= i < |h| && h[i].Report? && !h[i].outcome.Saved? && !h[i].outcome.Pristine?
  }

  /** Every failure in the history is answered later, still on the table, or (while a reply is
      being merged) a fabricated row that a real row further on supersedes. */
  ghost predicate Accounted(t: TargetId, h: seq<Event>, per: TabTable, realAhead: bool) {
    forall i :: FailureAt(h, i) ==>
      ResolvedLater(t, h, i) || Failing(per, h[i].tab) || (realAhead && h[i].tab == WindowRow(t))
  }

  lemma ResolvedStays(t: TargetId, h: seq<Event>, i: nat, more: seq<Event>)
    requires i < |h| && h[i].Report? && ResolvedLater(t, h, i)
    ensures ResolvedLater(t, h + more, i)
  {
    var j :| i < j < |h| && Answers(t, h[i].tab, h[j]);
    assert (h + more)[j] == h[j];
  }

  lemma FailuresAre(o: TabOutcome)
    ensures IsFailure(o) <==> !o.Saved? && !o.Pristine?
  {
    match o {
      case Saved =>
      case Pristine =>
      case Conflict =>
      case Error =>
      case Timeout =>
    }
  }

  lemma RowKeepsAccounted(t: TargetId, h: seq<Event>, per: TabTable, row: FlushResult, before: bool, after: bool)
    requires Accounted(t, h, per, before)
    requires before ==> after || !Synthetic(row.tabId)
    ensures Accounted(t, h + [Report(row.tabId, row.outcome)], per[row.tabId := row.outcome], after)
  {
    var e := Report(row.tabId, row.outcome);
    var h' := h + [e];
    FailuresAre(row.outcome);
    forall i | FailureAt(h', i)
      ensures ResolvedLater(t, h', i) || Failing(per[row.tabId := row.outcome], h'[i].tab)
           || (after && h'[i].tab == WindowRow(t))
    {
      if i < |h| {
        assert FailureAt(h, i);
        if ResolvedLater(t, h, i) {
          ResolvedStays(t, h, i, [e]);
        } else if Answers(t, h[i].tab, e) {
          assert h'[|h|] == e;
        }
      }
    }
  }

  lemma {:induction false} SetRowsKeepsAccounted(t: TargetId, h: seq<Event>, per: TabTable, rows: seq<FlushResult>)
    requires Accounted(t, h, per, HasReal(rows))
    ensures Accounted(t, h + Reports(rows), SetRows(per, rows), false)
    decreases rows
  {
    if rows == [] {
      assert h + Reports(rows) == h;
    } else {
      var row := rows[0];
      assert HasReal(rows) ==> HasReal(rows[1..]) || !Synthetic(row.tabId) by {
        if HasReal(rows) && Synthetic(row.tabId) {
          var i :| 0 <= i < |rows| && !Synthetic(rows[i].tabId);
          assert rows[1..][i - 1] == rows[i];
        }
      }
      RowKeepsAccounted(t, h, per, row, HasReal(rows), HasReal(rows[1..]));
      SetRowsKeepsAccounted(t, h + [Report(row.tabId, row.outcome)], per[row.tabId := row.outcome], rows[1..]);
      assert h + [Report(row.tabId, row.outcome)] + Reports(rows[1..]) == h + Reports(rows);
    }
  }

  lemma MergeKeepsAccounted(t: TargetId, h: seq<Event>, per: TabTable, rows: seq<FlushResult>)
    requires Accounted(t, h, per, false)
    ensures Accounted(t, h + Reports(rows), Merge(t, per, rows), false)
  {
    var cleared := if HasReal(rows) then per - {WindowRow(t)} else per;
    assert forall tab :: Failing(per, tab) ==> Failing(cleared, tab) || (HasReal(rows) && tab == WindowRow(t));
    SetRowsKeepsAccounted(t, h, cleared, rows);
  }

  ghost predicate AllAccounted(f: Flow) {
    forall t :: t in f.history ==> Accounted(t, f.history[t], PerTarget(f.latest, t), false)
  }

  lemma AfterRoundKeepsAccounted(f: Flow, plan: Requests, settled: map<TargetId, Settlement>)
    requires AllAccounted(f)
    ensures AllAccounted(AfterRound(f, plan, settled))
  {
    var g := AfterRound(f, plan, settled);
    forall t | t in g.history ensures Accounted(t, g.history[t], PerTarget(g.latest, t), false) {
      if t in plan {
        MergeKeepsAccounted(t, HistoryOf(f, t), PerTarget(f.latest, t), Rows(t, SettledAs(settled, t)));
      } else {
        assert PerTarget(g.latest, t) == PerTarget(f.latest, t);
      }
    }
  }

  lemma GoneKeepsAccounted(f: Flow, gone: set<TargetId>)
    requires AllAccounted(f)
    ensures AllAccounted(WithoutGone(f, gone))
  {
    var g := WithoutGone(f, gone);
    forall t | t in g.history ensures Accounted(t, g.history[t], PerTarget(g.latest, t), false) {
      if t in gone {
        var h := g.history[t];
        forall i | FailureAt(h, i) ensures ResolvedLater(t, h, i) {
          assert Answers(t, h[i].tab, h[|h| - 1]);
        }
      } else {
        assert PerTarget(g.latest, t) == PerTarget(f.latest, t);
      }
    }
  }

  lemma {:induction false} RunIsAccounted(alive: set<TargetId>, settled: map<TargetId, Settlement>,
      answers: seq<Answer>)
    ensures AllAccounted(Run(alive, settled, answers))
  {
    if answers == [] {
      AfterRoundKeepsAccounted(NOTHING_YET, FirstPlan(alive), settled);
    } else {
      var f, a := Run(alive, settled, answers[..|answers| - 1]), answers[|answers| - 1];
      RunIsAccounted(alive, settled, answers[..|answers| - 1]);
      var action := ActionOf(Chosen(AnyConflict(f.latest), a.button));
      GoneKeepsAccounted(f, Gone(f.latest, action, a.alive));
      AfterRoundKeepsAccounted(WithoutGone(f, Gone(f.latest, action, a.alive)),
                               Plan(f.latest, action, a.alive), a.settled);
    }
  }

  // ---- What each button does ----

  ghost predicate OnTable(latest: Latest, outcomes: set<TabOutcome>) {
    exists t, tab :: t in latest && tab in latest[t] && latest[t][tab] in outcomes
  }

  /** The window has a tab, real or fabricated, whose latest outcome is one of these. */
  predicate Has(latest: Latest, t: TargetId, outcomes: set<TabOutcome>) {
    t in latest && exists tab :: tab in latest[t] && latest[t][tab] in outcomes
  }

  /** The requests go to the living windows that have such a tab, and name exactly these tabs; to a
      window that has a fabricated one among them, the request names none. */
  ghost predicate Asks(plan: Requests, latest: Latest, alive: set<TargetId>, action: Action,
      outcomes: set<TabOutcome>) {
    && (forall t :: t in plan <==> t in alive && Has(latest, t, outcomes))
    && (forall t :: t in plan ==> plan[t].action == action && Names(plan[t], latest[t], outcomes))
  }

  ghost predicate Names(r: Request, per: TabTable, outcomes: set<TabOutcome>) {
    && (r.tabs.None? <==> exists tab :: tab in per && per[tab] in outcomes && "window:" <= tab)
    && (r.tabs.Some? ==> forall tab :: tab in r.tabs.value <==> tab in per && per[tab] in outcomes)
  }

  predicate ReportedIn(rows: seq<FlushResult>, tab: string) {
    exists i :: 0 <= i < |rows| && rows[i].tabId == tab
  }

  predicate LastOfItsTab(rows: seq<FlushResult>, i: int) {
    0 <= i < |rows| && forall j :: i < j < |rows| ==> rows[j].tabId != rows[i].tabId
  }

  /** What a settled request makes of the table of its window. A silent or unreachable window gets
      a row of its own. A reply sets the tabs it names to what it says last of them, and takes that row
      away if it names any real tab. */
  ghost predicate Absorbs(t: TargetId, before: TabTable, how: Settlement, after: TabTable) {
    match how
    case TimedOut => after == before["window:" + t := Timeout]
    case SendFailed => after == before["window:" + t := Error]
    case Replied(rows) =>
      && (forall i :: LastOfItsTab(rows, i) ==> rows[i].tabId in after && after[rows[i].tabId] == rows[i].outcome)
      && (forall tab :: !ReportedIn(rows, tab) ==> KeptAs(before, after, tab, tab == "window:" + t && NamesReal(rows)))
  }

  ghost predicate KeptAs(before: TabTable, after: TabTable, tab: string, dropped: bool) {
    && (tab in after <==> tab in before && !dropped)
    && (tab in after ==> after[tab] == before[tab])
  }

  predicate NamesReal(rows: seq<FlushResult>) {
    exists i :: 0 <= i < |rows| && !("window:" <= rows[i].tabId)
  }

  /** A round after a dialog: its requests are the last ones sent, the windows asked absorb what came
      of it, windows that were wanted but are gone are forgotten, and the others stay as they were. */
  ghost predicate AsksAgain(f: Flow, a: Answer, action: Action, outcomes: set<TabOutcome>, g: Flow) {
    && |g.sent| == |f.sent| + 1 && g.sent[..|f.sent|] == f.sent
    && Asks(g.sent[|f.sent|], f.latest, a.alive, action, outcomes)
    && (forall t :: Settles(f.latest, a, outcomes, g.latest, t))
    && (forall t :: Remembers(f, a, outcomes, g, t))
    && g.verdict == if OnTable(g.latest, {Conflict, Error, Timeout}) then Asking else Clean
  }

  ghost predicate Settles(latest: Latest, a: Answer, outcomes: set<TabOutcome>, after: Latest, t: TargetId) {
    if !Has(latest, t, outcomes) then (t in after <==> t in latest) && (t in latest ==> after[t] == latest[t])
    else if t !in a.alive then t !in after
    else t in after && Absorbs(t, latest[t], if t in a.settled then a.settled[t] else TimedOut, after[t])
  }

  /** What a settled request adds to the history of its window: every row of its reply, in order, or the
      row that stands for its silence. */
  ghost predicate Tells(t: TargetId, how: Settlement, more: seq<Event>) {
    match how
    case TimedOut => more == [Report("window:" + t, Timeout)]
    case SendFailed => more == [Report("window:" + t, Error)]
    case Replied(rows) => |more| == |rows| && forall i :: 0 <= i < |rows| ==> more[i] == Report(rows[i].tabId, rows[i].outcome)
  }

  ghost predicate Remembers(f: Flow, a: Answer, outcomes: set<TabOutcome>, g: Flow, t: TargetId) {
    var before := if t in f.history then f.history[t] else [];
    var after := if t in g.history then g.history[t] else [];
    if !Has(f.latest, t, outcomes) then after == before
    else if t !in a.alive then after == before + [WindowGone]
    else before <= after && Tells(t, if t in a.settled then a.settled[t] else TimedOut, after[|before|..])
  }

  lemma ReportsTell(t: TargetId, before: seq<Event>, how: Settlement)
    ensures Tells(t, how, (before + Reports(Rows(t, how)))[|before|..])
  {
    assert (before + Reports(Rows(t, how)))[|before|..] == Reports(Rows(t, how));
  }

  lemma {:induction false} SetRowsExactly(per: TabTable, rows: seq<FlushResult>, tab: string)
    ensures !ReportedIn(rows, tab) ==> KeptAs(per, SetRows(per, rows), tab, false)
    ensures forall i :: LastOfItsTab(rows, i) && rows[i].tabId == tab ==>
              tab in SetRows(per, rows) && SetRows(per, rows)[tab] == rows[i].outcome
    decreases rows
  {
    if rows != [] {
      var next, rest := per[rows[0].tabId := rows[0].outcome], rows[1..];
      SetRowsExactly(next, rest, tab);
      assert ReportedIn(rest, tab) ==> ReportedIn(rows, tab) by {
        if i :| 0 <= i < |rest| && rest[i].tabId == tab { assert rows[i + 1].tabId == tab; }
      }
      forall i | LastOfItsTab(rows, i) && rows[i].tabId == tab
        ensures tab in SetRows(per, rows) && SetRows(per, rows)[tab] == rows[i].outcome
      {
        if i > 0 {
          assert LastOfItsTab(rest, i - 1);
        } else {
          assert !ReportedIn(rest, tab);
        }
      }
    }
  }

  lemma MergeAbsorbs(t: TargetId, per: TabTable, how: Settlement)
    ensures Absorbs(t, per, how, Merge(t, per, Rows(t, how)))
  {
    var rows := Rows(t, how);
    var cleared := if HasReal(rows) then per - {WindowRow(t)} else per;
    if how.Replied? {
      forall tab
        ensures !ReportedIn(rows, tab) ==> KeptAs(cleared, SetRows(cleared, rows), tab, false)
        ensures forall i :: LastOfItsTab(rows, i) && rows[i].tabId == tab ==>
                  tab in SetRows(cleared, rows) && SetRows(cleared, rows)[tab] == rows[i].outcome
      {
        SetRowsExactly(cleared, rows, tab);
      }
    } else {
      OneFabricatedRow(t, per, rows[0].outcome);
      assert rows == [FlushResult(WindowRow(t), rows[0].outcome)];
    }
  }

  lemma OneFabricatedRow(t: TargetId, per: TabTable, outcome: TabOutcome)
    ensures Merge(t, per, [FlushResult(WindowRow(t), outcome)]) == per["window:" + t := outcome]
  {
    var rows := [FlushResult(WindowRow(t), outcome)];
    assert Synthetic(rows[0].tabId) && !HasReal(rows);
    assert rows[1..] == [] && SetRows(per[rows[0].tabId := rows[0].outcome], rows[1..]) == per[rows[0].tabId := rows[0].outcome];
  }

  lemma PlanAsks(latest: Latest, action: Action, alive: set<TargetId>)
    requires action != Flush
    ensures Asks(Plan(latest, action, alive), latest, alive, action, if action == Force then {Conflict} else {Error, Timeout})
  {
    var outcomes := if action == Force then {Conflict} else {Error, Timeout};
    var plan := Plan(latest, action, alive);
    forall t
      ensures t in plan <==> t in alive && Has(latest, t, outcomes)
      ensures t in plan ==> plan[t].action == action && Names(plan[t], latest[t], outcomes)
    {
      WantedExactly(latest, action, outcomes, t);
      if t in plan {
        NamesWanted(latest, action, alive, outcomes, t);
      }
    }
  }

  lemma NamesWanted(latest: Latest, action: Action, alive: set<TargetId>, outcomes: set<TabOutcome>, t: TargetId)
    requires action != Flush && outcomes == if action == Force then {Conflict} else {Error, Timeout}
    requires t in Plan(latest, action, alive)
    ensures Names(Plan(latest, action, alive)[t], latest[t], outcomes)
  {
    WholeWindowExactly(latest, action, alive, t);
    assert forall tab :: tab in Wanted(latest[t], action) <==> tab in latest[t] && latest[t][tab] in outcomes;
    assert forall tab :: Synthetic(tab) <==> "window:" <= tab;
  }

  /** Main result. In every state that asks, the number of the button decides: with a conflict on the
      table 0 retries the errors and timeouts, 1 forces the conflicts, 2 discards; without one 0
      retries and 1 discards. Every other number cancels. */
  lemma ButtonsExactly(f: Flow, a: Answer)
    requires f.verdict == Asking
    ensures
      var conflict, g := OnTable(f.latest, {Conflict}), Step(f, a);
      && (g.verdict == Discarded <==> a.button == if conflict then 2 else 1)
      && (g.verdict == Cancelled <==> a.button !in if conflict then {0, 1, 2} else {0, 1})
      && (g.verdict in {Discarded, Cancelled} ==> g.latest == f.latest && g.sent == f.sent)
      && (a.button == 0 ==> AsksAgain(f, a, Retry, {Error, Timeout}, g))
      && (a.button == 1 && conflict ==> AsksAgain(f, a, Force, {Conflict}, g))
  {
    assert AnyConflict(f.latest) <==> OnTable(f.latest, {Conflict});
    var pressed := Chosen(AnyConflict(f.latest), a.button);
    if pressed == KeepWaiting || pressed == OverwriteAnyway {
      RoundExactly(f, a, ActionOf(pressed));
    }
  }

  lemma RoundExactly(f: Flow, a: Answer, action: Action)
    requires action != Flush
    ensures AsksAgain(f, a, action, if action == Force then {Conflict} else {Error, Timeout},
                      AfterRound(WithoutGone(f, Gone(f.latest, action, a.alive)), Plan(f.latest, action, a.alive), a.settled))
  {
    var outcomes := if action == Force then {Conflict} else {Error, Timeout};
    var gone, plan := Gone(f.latest, action, a.alive), Plan(f.latest, action, a.alive);
    var g := AfterRound(WithoutGone(f, gone), plan, a.settled);
    PlanAsks(f.latest, action, a.alive);
    forall t
      ensures Settles(f.latest, a, outcomes, g.latest, t)
      ensures Remembers(f, a, outcomes, g, t)
    {
      RoundSettles(f, a, action, outcomes, t);
      RoundRemembers(f, a, action, outcomes, t);
    }
    assert AnyFailure(g.latest) <==> OnTable(g.latest, {Conflict, Error, Timeout});
  }

  lemma RoundSettles(f: Flow, a: Answer, action: Action, outcomes: set<TabOutcome>, t: TargetId)
    requires action != Flush && outcomes == if action == Force then {Conflict} else {Error, Timeout}
    ensures Settles(f.latest, a, outcomes,
                    AfterRound(WithoutGone(f, Gone(f.latest, action, a.alive)), Plan(f.latest, action, a.alive), a.settled).latest, t)
  {
    WantedExactly(f.latest, action, outcomes, t);
    if Has(f.latest, t, outcomes) {
      MergeAbsorbs(t, f.latest[t], SettledAs(a.settled, t));
    }
  }

  lemma RoundRemembers(f: Flow, a: Answer, action: Action, outcomes: set<TabOutcome>, t: TargetId)
    requires action != Flush && outcomes == if action == Force then {Conflict} else {Error, Timeout}
    ensures Remembers(f, a, outcomes,
                      AfterRound(WithoutGone(f, Gone(f.latest, action, a.alive)), Plan(f.latest, action, a.alive), a.settled), t)
  {
    WantedExactly(f.latest, action, outcomes, t);
    ReportsTell(t, HistoryOf(f, t), SettledAs(a.settled, t));
  }

  lemma WantedExactly(latest: Latest, action: Action, outcomes: set<TabOutcome>, t: TargetId)
    requires action != Flush && outcomes == if action == Force then {Conflict} else {Error, Timeout}
    ensures Has(latest, t, outcomes) <==> t in latest && Wanted(latest[t], action) != {}
  {
    if Has(latest, t, outcomes) {
      var tab :| tab in latest[t] && latest[t][tab] in outcomes;
      assert tab in Wanted(latest[t], action);
    }
  }

  /** The first round asks every living window, and no other, for everything, and each absorbs what
      came of it. */
  lemma FirstRound(alive: set<TargetId>, settled: map<TargetId, Settlement>)
    ensures
      var f := Run(alive, settled, []);
      && |f.sent| == 1
      && (forall t :: t in f.sent[0] <==> t in alive)
      && (forall t :: t in f.sent[0] ==> f.sent[0][t] == Request(Flush, None))
      && (forall t :: t in f.latest <==> t in alive)
      && (forall t :: t in f.latest ==> Absorbs(t, map[], if t in settled then settled[t] else TimedOut, f.latest[t]))
      && f.history.Keys == alive
      && (forall t :: t in alive ==> Tells(t, if t in settled then settled[t] else TimedOut, f.history[t]))
  {
    var f := Run(alive, settled, []);
    forall t | t in alive
      ensures Absorbs(t, map[], if t in settled then settled[t] else TimedOut, f.latest[t])
      ensures Tells(t, if t in settled then settled[t] else TimedOut, f.history[t])
    {
      MergeAbsorbs(t, map[], SettledAs(settled, t));
      ReportsTell(t, [], SettledAs(settled, t));
    }
  }

  // ---- The verdict over whole runs ----

  /** The k-th dialog was answered with the button that discards. */
  ghost predicate DiscardPressed(alive: set<TargetId>, settled: map<TargetId, Settlement>, answers: seq<Answer>,
      k: int) {
    0 <= k < |answers| &&
      var f := Run(alive, settled, answers[..k]);
      f.verdict == Asking && answers[k].button == if OnTable(f.latest, {Conflict}) then 2 else 1
  }

  /** The k-th dialog was answered with a number that stands for none of the other buttons. */
  ghost predicate CancelPressed(alive: set<TargetId>, settled: map<TargetId, Settlement>, answers: seq<Answer>,
      k: int) {
    0 <= k < |answers| &&
      var f := Run(alive, settled, answers[..k]);
      f.verdict == Asking && answers[k].button !in if OnTable(f.latest, {Conflict}) then {0, 1, 2} else {0, 1}
  }

  ghost predicate VerdictIs(alive: set<TargetId>, settled: map<TargetId, Settlement>, answers: seq<Answer>) {
    var f := Run(alive, settled, answers);
    && (f.verdict == Clean <==> !OnTable(f.latest, {Conflict, Error, Timeout}))
    && (f.verdict == Discarded <==> exists k :: DiscardPressed(alive, settled, answers, k))
    && (f.verdict == Cancelled <==> exists k :: CancelPressed(alive, settled, answers, k))
  }

  lemma PressedEarlier(alive: set<TargetId>, settled: map<TargetId, Settlement>, answers: seq<Answer>, k: int)
    requires 0 <= k < |answers| - 1
    ensures DiscardPressed(alive, settled, answers, k) == DiscardPressed(alive, settled, answers[..|answers| - 1], k)
    ensures CancelPressed(alive, settled, answers, k) == CancelPressed(alive, settled, answers[..|answers| - 1], k)
  {
    assert answers[..|answers| - 1][..k] == answers[..k];
  }

  /** Main result. A run discards exactly if one of its dialogs was answered with the discarding button,
      cancels exactly if one was answered with a number that means nothing else, and is clean exactly
      when no conflict, error or timeout is left on the table. */
  lemma {:induction false} VerdictExactly(alive: set<TargetId>, settled: map<TargetId, Settlement>,
      answers: seq<Answer>)
    ensures VerdictIs(alive, settled, answers)
  {
    if answers == [] {
      var f := Run(alive, settled, answers);
      assert AnyFailure(f.latest) <==> OnTable(f.latest, {Conflict, Error, Timeout});
    } else {
      var n := |answers| - 1;
      var before := answers[..n];
      VerdictExactly(alive, settled, before);
      LastAnswerDecides(alive, settled, answers);
    }
  }

  lemma OneMoreAnswer(alive: set<TargetId>, settled: map<TargetId, Settlement>, answers: seq<Answer>)
    requires answers != []
    ensures
      var n, before := |answers| - 1, answers[..|answers| - 1];
      && ((exists k :: DiscardPressed(alive, settled, answers, k))
          <==> (exists k :: DiscardPressed(alive, settled, before, k)) || DiscardPressed(alive, settled, answers, n))
      && ((exists k :: CancelPressed(alive, settled, answers, k))
          <==> (exists k :: CancelPressed(alive, settled, before, k)) || CancelPressed(alive, settled, answers, n))
  {
    var n, before := |answers| - 1, answers[..|answers| - 1];
    if k :| DiscardPressed(alive, settled, before, k) {
      PressedEarlier(alive, settled, answers, k);
      assert DiscardPressed(alive, settled, answers, k);
    }
    if k :| CancelPressed(alive, settled, before, k) {
      PressedEarlier(alive, settled, answers, k);
      assert CancelPressed(alive, settled, answers, k);
    }
    if k :| DiscardPressed(alive, settled, answers, k) && k != n {
      PressedEarlier(alive, settled, answers, k);
    }
    if k :| CancelPressed(alive, settled, answers, k) && k != n {
      PressedEarlier(alive, settled, answers, k);
    }
  }

  lemma LastAnswerDecides(alive: set<TargetId>, settled: map<TargetId, Settlement>, answers: seq<Answer>)
    requires answers != [] && VerdictIs(alive, settled, answers[..|answers| - 1])
    ensures VerdictIs(alive, settled, answers)
  {
    var n := |answers| - 1;
    var f := Run(alive, settled, answers[..n]);
    OneMoreAnswer(alive, settled, answers);
    if f.verdict == Asking {
      LastButton(f, answers[n]);
    }
  }

  /** What `ButtonsExactly` says of the verdict alone. */
  lemma LastButton(f: Flow, a: Answer)
    requires f.verdict == Asking && OnTable(f.latest, {Conflict, Error, Timeout})
    ensures
      var conflict, g := OnTable(f.latest, {Conflict}), Step(f, a);
      && (g.verdict == Discarded <==> a.button == if conflict then 2 else 1)
      && (g.verdict == Cancelled <==> a.button !in if conflict then {0, 1, 2} else {0, 1})
      && (g.verdict == Clean <==> !OnTable(g.latest, {Conflict, Error, Timeout}))
  {
    ButtonsExactly(f, a);
  }

  /** Never a silent close: for every sequence of replies, timeouts and dialog answers, a close
      that proceeds without Discard leaves no failure report unanswered. */
  lemma NoSilentClose(alive: set<TargetId>, settled: map<TargetId, Settlement>, answers: seq<Answer>, t: TargetId,
      i: nat)
    requires var f := Run(alive, settled, answers);
             f.verdict == Clean && FailureAt(HistoryOf(f, t), i)
    ensures ResolvedLater(t, HistoryOf(Run(alive, settled, answers), t), i)
  {
    var f := Run(alive, settled, answers);
    RunIsAccounted(alive, settled, answers);
    VerdictExactly(alive, settled, answers);
    assert !Failing(PerTarget(f.latest, t), f.history[t][i].tab);
  }

  // ---- Force is targeted ----

  /** Exactly when a planned request goes to a whole window. */
  lemma WholeWindowExactly(latest: Latest, action: Action, alive: set<TargetId>, t: TargetId)
    requires t in Plan(latest, action, alive)
    ensures var r := Plan(latest, action, alive)[t];
            && r.action == action
            && (r.tabs.None? <==> exists tab :: tab in Wanted(latest[t], action) && Synthetic(tab))
            && (r.tabs.Some? ==> r.tabs.value == Wanted(latest[t], action) && r.tabs.value != {})
  {
  }

  /** The renderers only ever report ids that are not fabricated ones. */
  predicate RealIds(settled: map<TargetId, Settlement>) {
    forall t :: t in settled && settled[t].Replied? ==>
      forall i :: 0 <= i < |settled[t].results| ==> !Synthetic(settled[t].results[i].tabId)
  }

  predicate NoFabricatedConflict(per: TabTable) {
    forall tab :: tab in per && Synthetic(tab) ==> per[tab] != Conflict
  }

  lemma {:induction false} SetRowsNoFabricatedConflict(per: TabTable, rows: seq<FlushResult>)
    requires NoFabricatedConflict(per)
    requires forall i :: 0 <= i < |rows| ==> !Synthetic(rows[i].tabId) || rows[i].outcome != Conflict
    ensures NoFabricatedConflict(SetRows(per, rows))
    decreases rows
  {
    if rows != [] {
      SetRowsNoFabricatedConflict(per[rows[0].tabId := rows[0].outcome], rows[1..]);
    }
  }

  lemma RoundNoFabricatedConflict(latest: Latest, asked: set<TargetId>, settled: map<TargetId, Settlement>)
    requires RealIds(settled) && CleanTables(latest)
    ensures CleanTables(RunRound(latest, asked, settled))
  {
    var after := RunRound(latest, asked, settled);
    forall t | t in after ensures NoFabricatedConflict(after[t]) {
      if t in asked {
        var rows := Rows(t, SettledAs(settled, t));
        var per := PerTarget(latest, t);
        SetRowsNoFabricatedConflict(if HasReal(rows) then per - {WindowRow(t)} else per, rows);
      }
    }
  }

  predicate OnlyRealIds(settled: map<TargetId, Settlement>, answers: seq<Answer>) {
    RealIds(settled) && forall k :: 0 <= k < |answers| ==> RealIds(answers[k].settled)
  }

  predicate CleanTables(latest: Latest) {
    forall t :: t in latest ==> NoFabricatedConflict(latest[t])
  }

  lemma StepNoFabricatedConflict(f: Flow, a: Answer)
    requires CleanTables(f.latest) && RealIds(a.settled)
    ensures CleanTables(Step(f, a).latest)
  {
    var action := ActionOf(Chosen(AnyConflict(f.latest), a.button));
    RoundNoFabricatedConflict(f.latest - Gone(f.latest, action, a.alive), Plan(f.latest, action, a.alive).Keys, a.settled);
  }

  lemma {:induction false} RunNoFabricatedConflict(alive: set<TargetId>, settled: map<TargetId, Settlement>,
      answers: seq<Answer>)
    requires OnlyRealIds(settled, answers)
    ensures CleanTables(Run(alive, settled, answers).latest)
  {
    if answers == [] {
      assert FirstPlan(alive).Keys == alive;
      RoundNoFabricatedConflict(map[], alive, settled);
    } else {
      RunNoFabricatedConflict(alive, settled, answers[..|answers| - 1]);
      StepNoFabricatedConflict(Run(alive, settled, answers[..|answers| - 1]), answers[|answers| - 1]);
    }
  }

  /** After any run in which renderers report only their own tabs, an Overwrite round forces an
      explicit, non-empty list of tabs whose latest outcome is a conflict, and no window whole. */
  lemma ForceIsTargeted(alive: set<TargetId>, settled: map<TargetId, Settlement>, answers: seq<Answer>,
                        nowAlive: set<TargetId>, t: TargetId)
    requires OnlyRealIds(settled, answers)
    requires t in Plan(Run(alive, settled, answers).latest, Force, nowAlive)
    ensures var latest := Run(alive, settled, answers).latest;
            var r := Plan(latest, Force, nowAlive)[t];
            && r.tabs.Some? && r.tabs.value != {}
            && forall tab :: tab in r.tabs.value <==> tab in latest[t] && latest[t][tab] == Conflict
  {
    RunNoFabricatedConflict(alive, settled, answers);
    WholeWindowExactly(Run(alive, settled, answers).latest, Force, nowAlive, t);
  }

  /** Without that assumption it fails: a renderer that names a tab "window:..." and reports a
      conflict for it makes the next Overwrite force its whole window. */
  lemma ForceCanHitWholeWindow()
    ensures var settled := map["w" := Replied([FlushResult("window:x", Conflict)])];
            var latest := Run({"w"}, settled, []).latest;
            "w" in Plan(latest, Force, {"w"}) && Plan(latest, Force, {"w"})["w"].tabs.None?
  {
    var rows := [FlushResult("window:x", Conflict)];
    var settled := map["w" := Replied(rows)];
    var latest := Run({"w"}, settled, []).latest;
    assert SetRows(map[], rows) == map["window:x" := Conflict] by {
      assert rows[1..] == [];
    }
    assert !HasReal(rows) by { assert WINDOW_PREFIX <= "window:x"; }
    assert latest["w"] == map["window:x" := Conflict];
    assert "window:x" in Wanted(latest["w"], Force);
  }

  // ---- The loops ----

  /** Merges the rows of one settled request into the table of its window. */
  method MergeResults(t: TargetId, per: TabTable, rows: seq<FlushResult>) returns (after: TabTable)
    ensures after == Merge(t, per, rows)
  {
    after := per;
    if exists i :: 0 <= i < |rows| && !Synthetic(rows[i].tabId) {
      after := after - {WindowRow(t)};
    }
    for i := 0 to |rows|
      invariant SetRows(after, rows[i..]) == Merge(t, per, rows)
    {
      assert rows[i..][1..] == rows[i + 1..];
      after := after[rows[i].tabId := rows[i].outcome];
    }
  }

  lemma RoundOfNone(latest: Latest, settled: map<TargetId, Settlement>)
    ensures RunRound(latest, {}, settled) == latest
  {
  }

  lemma RoundOfOneMore(latest: Latest, asked: set<TargetId>, settled: map<TargetId, Settlement>, t: TargetId)
    requires t !in asked
    ensures var before := RunRound(latest, asked, settled);
            && PerTarget(before, t) == PerTarget(latest, t)
            && RunRound(latest, asked + {t}, settled)
               == before[t := Merge(t, PerTarget(latest, t), Rows(t, SettledAs(settled, t)))]
  {
  }

  method Round(latest: Latest, asked: set<TargetId>, settled: map<TargetId, Settlement>) returns (after: Latest)
    ensures after == RunRound(latest, asked, settled)
  {
    after := latest;
    var todo := asked;
    ghost var done: set<TargetId> := {};
    RoundOfNone(latest, settled);
    while todo != {}
      invariant done + todo == asked && done !! todo
      invariant after == RunRound(latest, done, settled)
      decreases todo
    {
      var t :| t in todo;
      RoundOfOneMore(latest, done, settled, t);
      var per := MergeResults(t, PerTarget(after, t), Rows(t, SettledAs(settled, t)));
      after := after[t := per];
      todo := todo - {t};
      done := done + {t};
    }
    assert done == asked;
  }

  /** The close may proceed, must not, or is still waiting for the user. */
  datatype Answered = Proceed | Abort | Waiting

  function AnsweredBy(v: Verdict): Answered {
    match v
    case Asking => Waiting
    case Cancelled => Abort
    case _ => Proceed
  }

  /** One turn of the dialog loop. */
  method Dialog(latest: Latest, a: Answer, sent: seq<Requests>, ghost f: Flow)
    returns (r: Answered, after: Latest, sentNow: seq<Requests>)
    requires f.verdict == Asking && f.latest == latest && f.sent == sent
    ensures after == Step(f, a).latest && sentNow == Step(f, a).sent && r == AnsweredBy(Step(f, a).verdict)
  {
    after, sentNow := latest, sent;
    var pressed := Chosen(AnyConflict(latest), a.button);
    if pressed == Cancel { return Abort, after, sentNow; }
    if pressed == Discard { return Proceed, after, sentNow; }
    var action := ActionOf(pressed);
    var plan := Plan(latest, action, a.alive);
    after := after - Gone(latest, action, a.alive);
    after := Round(after, plan.Keys, a.settled);
    sentNow := sentNow + [plan];
    r := if AnyFailure(after) then Waiting else Proceed;
  }

  /** The close proceeds exactly if no failure is left or the discarding button was pressed, and is
      aborted exactly if a dialog was cancelled. */
  ghost predicate Decides(alive: set<TargetId>, settled: map<TargetId, Settlement>, answers: seq<Answer>, r: Answered) {
    && (r == Proceed <==>
        || !OnTable(Run(alive, settled, answers).latest, {Conflict, Error, Timeout})
        || exists k :: DiscardPressed(alive, settled, answers, k))
    && (r == Abort <==> exists k :: CancelPressed(alive, settled, answers, k))
  }

  /** The loop's variables are the state after the first `i` answers. */
  ghost predicate Tracks(alive: set<TargetId>, settled: map<TargetId, Settlement>, answers: seq<Answer>, i: nat,
                         latest: Latest, sent: seq<Requests>, r: Answered) {
    && i <= |answers|
    && Run(alive, settled, answers[..i]).latest == latest
    && Run(alive, settled, answers[..i]).sent == sent
    && r == AnsweredBy(Run(alive, settled, answers[..i]).verdict)
  }

  lemma TracksToTheEnd(alive: set<TargetId>, settled: map<TargetId, Settlement>, answers: seq<Answer>, i: nat,
                       latest: Latest, sent: seq<Requests>, r: Answered)
    requires Tracks(alive, settled, answers, i, latest, sent, r) && (r != Waiting || i == |answers|)
    ensures Decides(alive, settled, answers, r) && sent == Run(alive, settled, answers).sent
  {
    VerdictExactly(alive, settled, answers);
    if i == |answers| {
      assert answers[..i] == answers;
    } else {
      RunStays(alive, settled, answers, i);
    }
  }

  method RunCloseFlush(alive: set<TargetId>, settled: map<TargetId, Settlement>, answers: seq<Answer>)
    returns (r: Answered, sent: seq<Requests>)
    ensures sent == Run(alive, settled, answers).sent
    ensures Decides(alive, settled, answers, r)
  {
    var plan := FirstPlan(alive);
    var latest := Round(map[], plan.Keys, settled);
    sent := [plan];
    r := if AnyFailure(latest) then Waiting else Proceed;
    var i := 0;
    assert answers[..0] == [];
    while r == Waiting && i < |answers|
      invariant Tracks(alive, settled, answers, i, latest, sent, r)
    {
      assert answers[..i + 1][..i] == answers[..i];
      r, latest, sent := Dialog(latest, answers[i], sent, Run(alive, settled, answers[..i]));
      i := i + 1;
    }
    TracksToTheEnd(alive, settled, answers, i, latest, sent, r);
  }

  /** Once there is a verdict further answers are not looked at. */
  lemma {:induction false} RunStays(alive: set<TargetId>, settled: map<TargetId, Settlement>, answers: seq<Answer>,
      k: nat)
    requires k <= |answers| && Run(alive, settled, answers[..k]).verdict != Asking
    ensures Run(alive, settled, answers) == Run(alive, settled, answers[..k])
    decreases |answers| - k
  {
    if k == |answers| {
      assert answers[..k] == answers;
    } else {
      assert answers[..k + 1][..k] == answers[..k];
      RunStays(alive, settled, answers, k + 1);
    }
  }
}
