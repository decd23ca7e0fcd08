/** The cursor walk over the plan list: sorted rows, an exclusive cursor, a page limit and a byte
    cap that drops rows from the end of a page. The comparison is any weak order on the ids, so
    two ids may tie. The size of a response is any function of its page and its next cursor. */
module PlanPaging {
  import opened Prelude

  const MAX_BYTES: nat := 6 * 1024

  type Limit = n: nat | 1 <= n <= 50 witness 10

  datatype Row = Row(id: string, text: string)

  type Order = (string, string) -> bool
  type Cursor = Option<string>
  type Sizer = (seq<Row>, Cursor) -> nat

  datatype Response = Page(plans: seq<Row>, next: Cursor) | TooLarge

  ghost predicate WeakOrder(below: Order) {
    && (forall a :: !below(a, a))
    && (forall a, b, c :: below(a, b) && below(b, c) ==> below(a, c))
    && (forall a, b, c :: below(a, c) ==> below(a, b) || below(b, c))
  }

  // ---- Sorting ----

  function Insert(below: Order, row: Row, sorted: seq<Row>): seq<Row> {
    if sorted == [] || !below(sorted[0].id, row.id) then [row] + sorted
    else [sorted[0]] + Insert(below, row, sorted[1..])
  }

  /** The stable sort by id. */
  function SortById(below: Order, rows: seq<Row>): seq<Row> {
    if rows == [] then [] else Insert(below, rows[0], SortById(below, rows[1..]))
  }

  /** No row stands before one with a lower id. */
  predicate Ascending(below: Order, rows: seq<Row>) {
    forall i, j :: 0 <= i < j < |rows| ==> !below(rows[j].id, rows[i].id)
  }

  /** Every two ids are strictly ordered. */
  predicate Strict(below: Order, rows: seq<Row>) {
    forall i, j :: 0 <= i < j < |rows| ==> below(rows[i].id, rows[j].id)
  }

  /** No two ids tie. */
  predicate Untied(below: Order, rows: seq<Row>) {
    forall i, j :: 0 <= i < j < |rows| ==> below(rows[i].id, rows[j].id) || below(rows[j].id, rows[i].id)
  }

  lemma {:induction false} InsertHas(below: Order, row: Row, sorted: seq<Row>)
    ensures multiset(Insert(below, row, sorted)) == multiset(sorted) + multiset{row}
  {
    if sorted != [] && below(sorted[0].id, row.id) {
      InsertHas(below, row, sorted[1..]);
      assert sorted == [sorted[0]] + sorted[1..];
    }
  }

  lemma {:induction false} InsertKeeps(below: Order, row: Row, sorted: seq<Row>)
    requires WeakOrder(below) && Ascending(below, sorted)
    ensures Ascending(below, Insert(below, row, sorted))
  {
    if sorted == [] {
    } else if below(sorted[0].id, row.id) {
      var rest := Insert(below, row, sorted[1..]);
      InsertKeeps(below, row, sorted[1..]);
      InsertHas(below, row, sorted[1..]);
      forall j | 0 <= j < |rest|
        ensures !below(rest[j].id, sorted[0].id)
      {
        assert rest[j] in multiset(rest);
        assert rest[j] == row || rest[j] in sorted[1..];
      }
      LeastFirst(below, sorted[0], rest);
    } else {
      forall j | 0 <= j < |sorted|
        ensures !below(sorted[j].id, row.id)
      {
        assert j == 0 || !below(sorted[j].id, sorted[0].id);
      }
      LeastFirst(below, row, sorted);
    }
  }

  lemma LeastFirst(below: Order, row: Row, rest: seq<Row>)
    requires Ascending(below, rest) && forall j :: 0 <= j < |rest| ==> !below(rest[j].id, row.id)
    ensures Ascending(below, [row] + rest)
  {
    var all := [row] + rest;
    forall i, j | 0 <= i < j < |all|
      ensures !below(all[j].id, all[i].id)
    {
      assert all[j] == rest[j - 1];
      assert i == 0 || all[i] == rest[i - 1];
    }
  }

  lemma {:induction false} SortKeeps(below: Order, rows: seq<Row>)
    requires WeakOrder(below)
    ensures Ascending(below, SortById(below, rows))
    ensures multiset(SortById(below, rows)) == multiset(rows)
  {
    if rows != [] {
      SortKeeps(below, rows[1..]);
      InsertKeeps(below, rows[0], SortById(below, rows[1..]));
      InsertHas(below, rows[0], SortById(below, rows[1..]));
      assert rows == [rows[0]] + rows[1..];
    }
  }

  /** The first row of one strictly ordered list is not above any row of another with the same rows. */
  lemma SameLeast(below: Order, a: seq<Row>, b: seq<Row>)
    requires WeakOrder(below) && Strict(below, a) && Strict(below, b)
    requires multiset(a) == multiset(b) && a != [] && b != []
    ensures a[0] == b[0]
  {
    assert a[0] in multiset(b) && b[0] in multiset(a);
    var i :| 0 <= i < |b| && b[i] == a[0];
    var j :| 0 <= j < |a| && a[j] == b[0];
    if i > 0 && j > 0 {
      assert false;
    }
  }

  /** Two strictly ordered lists of the same rows are the same list. */
  lemma {:induction false} StrictIsUnique(below: Order, a: seq<Row>, b: seq<Row>)
    requires WeakOrder(below) && Strict(below, a) && Strict(below, b)
    requires multiset(a) == multiset(b)
    ensures a == b
  {
    assert |a| == |multiset(a)| == |multiset(b)| == |b|;
    if a != [] {
      SameLeast(below, a, b);
      StrictTail(below, a);
      StrictTail(below, b);
      SameTail(a, b);
      StrictIsUnique(below, a[1..], b[1..]);
      assert a == [a[0]] + a[1..] && b == [b[0]] + b[1..];
    }
  }

  lemma SameTail(a: seq<Row>, b: seq<Row>)
    requires a != [] && b != [] && a[0] == b[0] && multiset(a) == multiset(b)
    ensures multiset(a[1..]) == multiset(b[1..])
  {
    assert a == [a[0]] + a[1..] && b == [b[0]] + b[1..];
    assert multiset(a[1..]) == multiset(a) - multiset{a[0]} && multiset(b[1..]) == multiset(b) - multiset{b[0]};
  }

  lemma StrictTail(below: Order, a: seq<Row>)
    requires Strict(below, a) && a != []
    ensures Strict(below, a[1..])
  {
  }

  // ---- One request ----

  /** The rows past the cursor. */
  function After(below: Order, rows: seq<Row>, cursor: Cursor): seq<Row> {
    if cursor.None? then rows else Above(below, rows, cursor.value)
  }

  function Above(below: Order, rows: seq<Row>, id: string): (kept: seq<Row>)
    ensures |kept| <= |rows|
  {
    if rows == [] then []
    else (if below(id, rows[0].id) then [rows[0]] else []) + Above(below, rows[1..], id)
  }

  /** The cursor that goes with the first `n` of the remaining rows. */
  function NextCursor(rest: seq<Row>, n: nat): Cursor
    requires n <= |rest|
  {
    if 0 < n < |rest| then Some(rest[n - 1].id) else None
  }

  predicate Fits(rest: seq<Row>, size: Sizer, n: nat)
    requires n <= |rest|
  {
    size(rest[..n], NextCursor(rest, n)) <= MAX_BYTES
  }

  /** `n` is the length of the page: the longest one that fits, from `most` rows down to one. */
  ghost predicate IsCut(rest: seq<Row>, size: Sizer, most: nat, n: nat)
    requires most <= |rest|
  {
    && Min(1, most) <= n <= most
    && Fits(rest, size, n)
    && forall k :: n < k <= most ==> !Fits(rest, size, k)
  }

  ghost predicate Shrinking(rest: seq<Row>, size: Sizer, most: nat, page: seq<Row>) {
    && most <= |rest|
    && Min(1, most) <= |page| <= most
    && page == rest[..|page|]
    && forall k :: |page| < k <= most ==> !Fits(rest, size, k)
  }

  /** What a request is answered: the page up to the longest cut, or an error if there is none. */
  ghost predicate Answers(rest: seq<Row>, limit: Limit, size: Sizer, answer: Response) {
    var most := Min(limit, |rest|);
    if answer.TooLarge? then
      forall k :: Min(1, most) <= k <= most ==> !Fits(rest, size, k)
    else
      IsCut(rest, size, most, |answer.plans|)
      && answer.plans == rest[..|answer.plans|] && answer.next == NextCursor(rest, |answer.plans|)
  }

  lemma ShrinkingGoesOn(rest: seq<Row>, size: Sizer, most: nat, page: seq<Row>)
    requires Shrinking(rest, size, most, page)
    requires |page| > 1 && !Fits(rest, size, |page|)
    ensures Shrinking(rest, size, most, page[..|page| - 1])
  {
    assert page[..|page| - 1] == rest[..|page| - 1];
  }

  /** Cuts the page to its limit, then takes rows off its end while it is over the cap. */
  method CutPage(remaining: seq<Row>, limit: Limit, size: Sizer) returns (answer: Response)
    ensures Answers(remaining, limit, size, answer)
  {
    var page := if |remaining| <= limit then remaining else remaining[..limit];
    var hasMore := |remaining| > |page|;
    var next := if hasMore && |page| > 0 then Some(page[|page| - 1].id) else None;
    var bytes := size(page, next);
    while bytes > MAX_BYTES && |page| > 1
      invariant Shrinking(remaining, size, Min(limit, |remaining|), page)
      invariant hasMore == (|remaining| > |page|)
      invariant next == NextCursor(remaining, |page|)
      invariant bytes == size(page, next)
      decreases |page|
    {
      ShrinkingGoesOn(remaining, size, Min(limit, |remaining|), page);
      page := page[..|page| - 1];
      hasMore := true;
      next := if hasMore && |page| > 0 then Some(page[|page| - 1].id) else None;
      bytes := size(page, next);
    }
    if bytes > MAX_BYTES {
      return TooLarge;
    }
    return Page(page, next);
  }

  /** The route. An answer exists for every request, and it is the only one. */
  method ListPlans(below: Order, listing: seq<Row>, cursor: Cursor, limit: Limit, size: Sizer)
      returns (answer: Response)
    ensures Answers(After(below, SortById(below, listing), cursor), limit, size, answer)
  {
    var plans := SortById(below, listing);
    answer := CutPage(After(below, plans, cursor), limit, size);
  }

  lemma AnswersAreUnique(rest: seq<Row>, limit: Limit, size: Sizer, a: Response, b: Response)
    requires Answers(rest, limit, size, a) && Answers(rest, limit, size, b)
    ensures a == b
  {
  }

  // ---- The rows past a cursor ----

  lemma {:induction false} AboveAll(below: Order, rows: seq<Row>, id: string)
    requires forall i :: 0 <= i < |rows| ==> below(id, rows[i].id)
    ensures Above(below, rows, id) == rows
  {
    if rows != [] {
      AboveAll(below, rows[1..], id);
    }
  }

  lemma {:induction false} AboveSkips(below: Order, rows: seq<Row>, n: nat, id: string)
    requires n <= |rows| && forall i :: 0 <= i < n ==> !below(id, rows[i].id)
    ensures Above(below, rows, id) == Above(below, rows[n..], id)
  {
    if n == 0 {
      assert rows[0..] == rows;
    } else {
      AboveSkips(below, rows[1..], n - 1, id);
      assert rows[1..][n - 1..] == rows[n..];
    }
  }

  /** The rows whose id is not the cursor's and which come after it: `ties` of them are skipped. */
  predicate Resumes(below: Order, rows: seq<Row>, n: nat, from: nat)
    requires 0 < n <= |rows|
  {
    && n <= from <= |rows|
    && (forall i :: n <= i < from ==> !below(rows[n - 1].id, rows[i].id))
    && (from < |rows| ==> below(rows[n - 1].id, rows[from].id))
  }

  function ResumeAt(below: Order, rows: seq<Row>, n: nat, from: nat): (at: nat)
    requires 0 < n <= from <= |rows|
    requires forall i :: n <= i < from ==> !below(rows[n - 1].id, rows[i].id)
    ensures Resumes(below, rows, n, at) && from <= at
    decreases |rows| - from
  {
    if from < |rows| && !below(rows[n - 1].id, rows[from].id) then ResumeAt(below, rows, n, from + 1) else from
  }

  lemma AllPastAreAbove(below: Order, rows: seq<Row>, n: nat, from: nat)
    requires WeakOrder(below) && Ascending(below, rows)
    requires 0 < n <= |rows| && Resumes(below, rows, n, from)
    ensures forall i :: from <= i < |rows| ==> below(rows[n - 1].id, rows[i].id)
  {
    forall i | from < i < |rows|
      ensures below(rows[n - 1].id, rows[i].id)
    {
      assert below(rows[n - 1].id, rows[from].id) && !below(rows[i].id, rows[from].id);
    }
  }

  lemma NonePastUpToNIsAbove(below: Order, rows: seq<Row>, n: nat, from: nat)
    requires WeakOrder(below) && Ascending(below, rows)
    requires 0 < n <= |rows| && Resumes(below, rows, n, from)
    ensures forall i :: 0 <= i < from ==> !below(rows[n - 1].id, rows[i].id)
  {
  }

  /** Resuming behind row `n - 1` of ascending rows skips exactly the rows that tie with it. */
  lemma ResumeIsSuffix(below: Order, rows: seq<Row>, n: nat, from: nat)
    requires WeakOrder(below) && Ascending(below, rows)
    requires 0 < n <= |rows| && Resumes(below, rows, n, from)
    ensures Above(below, rows, rows[n - 1].id) == rows[from..]
  {
    NonePastUpToNIsAbove(below, rows, n, from);
    AboveSkips(below, rows, from, rows[n - 1].id);
    AllPastAreAbove(below, rows, n, from);
    AboveAll(below, rows[from..], rows[n - 1].id);
  }

  /** Resuming behind any row skips exactly the rows that tie with it. */
  ghost predicate SkipsOnlyTies(below: Order, order: seq<Row>) {
    forall n: nat, from: nat :: 0 < n <= |order| && Resumes(below, order, n, from) ==>
      Above(below, order, order[n - 1].id) == order[from..]
  }

  lemma AscendingSkipsOnlyTies(below: Order, order: seq<Row>)
    requires WeakOrder(below) && Ascending(below, order)
    ensures SkipsOnlyTies(below, order)
  {
    forall n: nat, from: nat | 0 < n <= |order| && Resumes(below, order, n, from)
      ensures Above(below, order, order[n - 1].id) == order[from..]
    {
      ResumeIsSuffix(below, order, n, from);
    }
  }

  // ---- The walk ----

  /** What comes with one request: the listing it sees, its limit, and how large responses are. */
  datatype Ask = Ask(listing: seq<Row>, limit: Limit, size: Sizer)

  function Sorted(below: Order, ask: Ask): seq<Row> { SortById(below, ask.listing) }

  /** Answers received by following the cursors from `cursor` on, starting with request `i`. */
  ghost predicate IsWalk(below: Order, asks: nat -> Ask, i: nat, cursor: Cursor, answers: seq<Response>)
    decreases |answers|
  {
    && answers != []
    && Answers(After(below, Sorted(below, asks(i)), cursor), asks(i).limit, asks(i).size, answers[0])
    && (|answers| > 1 ==>
        && answers[0].Page? && answers[0].next.Some?
        && IsWalk(below, asks, i + 1, answers[0].next, answers[1..]))
  }

  /** The last answer is a page that names no further cursor. */
  predicate Finished(answers: seq<Response>)
    requires answers != []
  {
    answers[|answers| - 1].Page? && answers[|answers| - 1].next.None?
  }

  function Visited(answers: seq<Response>): seq<Row> {
    if answers == [] then []
    else (if answers[0].Page? then answers[0].plans else []) + Visited(answers[1..])
  }

  /** No page of the walk ends between two rows whose ids tie. */
  ghost predicate CleanCuts(below: Order, order: seq<Row>, cursor: Cursor, answers: seq<Response>)
    decreases |answers|
  {
    |answers| > 1 && answers[0].Page? ==>
      var rest, n := After(below, order, cursor), |answers[0].plans|;
      && (0 < n < |rest| ==> below(rest[n - 1].id, rest[n].id))
      && CleanCuts(below, order, answers[0].next, answers[1..])
  }

  /** Every request sees the same rows in the same order once they are sorted. */
  ghost predicate SameOrder(below: Order, asks: nat -> Ask, order: seq<Row>) {
    forall i: nat :: Sorted(below, asks(i)) == order
  }

  ghost predicate Accounts(order: seq<Row>, from: nat, answers: seq<Response>, clean: bool)
    requires answers != []
  {
    var seen := |Visited(answers)|;
    && |answers| <= Max(1, |order| - from)
    && from + seen <= |order|
    && (clean ==> Visited(answers) == order[from..from + seen])
    && (clean && Finished(answers) ==> from + seen == |order|)
    && (!clean ==> from + seen < |order|)
  }

  /** The answers follow the cursor, behind which the rows from `from` on are left. */
  ghost predicate OnTrack(below: Order, order: seq<Row>, asks: nat -> Ask, i: nat, cursor: Cursor, from: nat,
      answers: seq<Response>) {
    from <= |order| && After(below, order, cursor) == order[from..] && IsWalk(below, asks, i, cursor, answers)
  }

  /** The first of several answers is a page, and the walk goes on behind the rows that tie with its end. */
  ghost predicate Moves(below: Order, order: seq<Row>, cursor: Cursor, from: nat, at: nat, answers: seq<Response>) {
    && |answers| > 1 && answers[0].Page? && from <= |order| && After(below, order, cursor) == order[from..]
    && 0 < |answers[0].plans| < |order| - from
    && answers[0].plans == order[from..][..|answers[0].plans|]
    && Resumes(below, order, from + |answers[0].plans|, at)
  }

  lemma Advance(below: Order, order: seq<Row>, asks: nat -> Ask, i: nat, cursor: Cursor, from: nat,
      answers: seq<Response>) returns (at: nat)
    requires SkipsOnlyTies(below, order) && Sorted(below, asks(i)) == order
    requires |answers| > 1 && OnTrack(below, order, asks, i, cursor, from, answers)
    ensures OnTrack(below, order, asks, i + 1, answers[0].next, at, answers[1..])
    ensures Moves(below, order, cursor, from, at, answers)
  {
    FirstAnswer(below, order, asks, i, cursor, from, answers);
    var n := |answers[0].plans|;
    at := ResumeAt(below, order, from + n, from + n);
    CursorSkips(below, order, from, n, at, answers[0].next);
  }

  lemma WalkStep(below: Order, order: seq<Row>, cursor: Cursor, from: nat, at: nat, answers: seq<Response>)
    requires Moves(below, order, cursor, from, at, answers)
    requires Accounts(order, at, answers[1..], CleanCuts(below, order, answers[0].next, answers[1..]))
    ensures Accounts(order, from, answers, CleanCuts(below, order, cursor, answers))
  {
    CleanStep(below, order, cursor, from, at, answers);
    StepAccounts(order, from, at, answers, CleanCuts(below, order, answers[0].next, answers[1..]));
  }

  /** A walk that has reached row `from` takes at most one request a row, returns a prefix of the
      rows still to come if its cuts are clean, and leaves some out if they are not. */
  lemma {:induction false} WalkAccounts(below: Order, order: seq<Row>, asks: nat -> Ask, i: nat, cursor: Cursor,
      from: nat, answers: seq<Response>)
    requires SkipsOnlyTies(below, order) && SameOrder(below, asks, order)
    requires answers != [] && OnTrack(below, order, asks, i, cursor, from, answers)
    ensures Accounts(order, from, answers, CleanCuts(below, order, cursor, answers))
    decreases |answers|
  {
    assert Sorted(below, asks(i)) == order;
    if |answers| == 1 {
      OneAnswerAccounts(below, order, asks, i, cursor, from, answers);
    } else {
      var at := Advance(below, order, asks, i, cursor, from, answers);
      WalkAccounts(below, order, asks, i + 1, answers[0].next, at, answers[1..]);
      WalkStep(below, order, cursor, from, at, answers);
    }
  }

  /** What the first of several answers holds. */
  lemma FirstAnswer(below: Order, order: seq<Row>, asks: nat -> Ask, i: nat, cursor: Cursor, from: nat,
      answers: seq<Response>)
    requires |answers| > 1 && IsWalk(below, asks, i, cursor, answers)
    requires from <= |order| && After(below, Sorted(below, asks(i)), cursor) == order[from..]
    ensures answers[0].Page? && 0 < |answers[0].plans| < |order| - from
    ensures answers[0].plans == order[from..][..|answers[0].plans|]
    ensures answers[0].next == Some(order[from..][|answers[0].plans| - 1].id)
    ensures IsWalk(below, asks, i + 1, answers[0].next, answers[1..])
  {
  }

  lemma CursorSkips(below: Order, order: seq<Row>, from: nat, n: nat, at: nat, next: Cursor)
    requires SkipsOnlyTies(below, order) && 0 < n && from + n <= |order|
    requires next == Some(order[from..][n - 1].id) && Resumes(below, order, from + n, at)
    ensures After(below, order, next) == order[at..]
  {
    assert order[from + n - 1] == order[from..][n - 1];
  }

  lemma OneAnswerAccounts(below: Order, order: seq<Row>, asks: nat -> Ask, i: nat, cursor: Cursor,
      from: nat, answers: seq<Response>)
    requires |answers| == 1 && IsWalk(below, asks, i, cursor, answers)
    requires from <= |order| && After(below, Sorted(below, asks(i)), cursor) == order[from..]
    ensures Accounts(order, from, answers, CleanCuts(below, order, cursor, answers))
  {
    assert Visited(answers[1..]) == [];
  }

  lemma CleanStep(below: Order, order: seq<Row>, cursor: Cursor, from: nat, at: nat, answers: seq<Response>)
    requires |answers| > 1 && answers[0].Page? && from <= |order| && After(below, order, cursor) == order[from..]
    requires 0 < |answers[0].plans| < |order| - from
    requires Resumes(below, order, from + |answers[0].plans|, at)
    ensures CleanCuts(below, order, cursor, answers)
      <==> at == from + |answers[0].plans| && CleanCuts(below, order, answers[0].next, answers[1..])
  {
    var n := |answers[0].plans|;
    var rest := order[from..];
    assert rest[n - 1] == order[from + n - 1] && rest[n] == order[from + n];
  }

  lemma StepAccounts(order: seq<Row>, from: nat, at: nat, answers: seq<Response>, clean: bool)
    requires |answers| > 1 && answers[0].Page?
    requires 0 < |answers[0].plans| && from + |answers[0].plans| <= at <= |order|
    requires |answers[0].plans| < |order| - from
    requires answers[0].plans == order[from..][..|answers[0].plans|]
    requires Accounts(order, at, answers[1..], clean)
    ensures Accounts(order, from, answers, at == from + |answers[0].plans| && clean)
  {
    var n := |answers[0].plans|;
    var more := |Visited(answers[1..])|;
    assert Visited(answers) == answers[0].plans + Visited(answers[1..]);
    assert |Visited(answers)| == n + more;
    if at == from + n && clean {
      assert answers[0].plans == order[from..at];
      assert order[from..at] + order[at..at + more] == order[from..at + more];
    }
  }

  // ---- The theorems ----

  lemma UntiedIsStrict(below: Order, rows: seq<Row>, order: seq<Row>)
    requires WeakOrder(below) && Untied(below, rows) && order == SortById(below, rows)
    ensures Strict(below, order)
  {
    SortKeeps(below, rows);
    if i, j :| 0 <= i < j < |order| && !below(order[i].id, order[j].id) {
      TieInSource(below, rows, order, i, j);
      assert false;
    }
  }

  lemma SecondPlace(rows: seq<Row>, p: nat) returns (q: nat)
    requires p < |rows| && multiset(rows)[rows[p]] >= 2
    ensures q != p && q < |rows| && rows[q] == rows[p]
  {
    assert rows == rows[..p] + [rows[p]] + rows[p + 1..];
    assert rows[p] in multiset(rows[..p]) || rows[p] in multiset(rows[p + 1..]);
    q :| 0 <= q < |rows| && q != p && rows[q] == rows[p];
  }

  lemma TwiceCounted(order: seq<Row>, i: nat, j: nat)
    requires i < j < |order| && order[i] == order[j]
    ensures multiset(order)[order[i]] >= 2
  {
    assert order == order[..i] + [order[i]] + order[i + 1..j] + [order[j]] + order[j + 1..];
  }

  /** Two places of a permutation come from two places of the source. */
  lemma TwoPlaces(rows: seq<Row>, order: seq<Row>, i: nat, j: nat) returns (p: nat, q: nat)
    requires multiset(rows) == multiset(order) && i < j < |order|
    ensures p != q && p < |rows| && q < |rows| && rows[p] == order[i] && rows[q] == order[j]
  {
    assert order[i] in multiset(rows) && order[j] in multiset(rows);
    p :| 0 <= p < |rows| && rows[p] == order[i];
    if order[i] != order[j] {
      q :| 0 <= q < |rows| && rows[q] == order[j];
    } else {
      TwiceCounted(order, i, j);
      q := SecondPlace(rows, p);
    }
  }

  lemma TieInSource(below: Order, rows: seq<Row>, order: seq<Row>, i: nat, j: nat)
    requires WeakOrder(below) && Ascending(below, order) && multiset(rows) == multiset(order)
    requires i < j < |order| && !below(order[i].id, order[j].id)
    ensures !Untied(below, rows)
  {
    var p, q := TwoPlaces(rows, order, i, j);
    assert !below(rows[p].id, rows[q].id) && !below(rows[q].id, rows[p].id);
  }

  lemma {:induction false} StrictCutsAreClean(below: Order, order: seq<Row>, cursor: Cursor, answers: seq<Response>)
    requires Strict(below, order)
    ensures CleanCuts(below, order, cursor, answers)
    decreases |answers|
  {
    if |answers| > 1 && answers[0].Page? {
      StrictAbove(below, order, cursor);
      StrictCutsAreClean(below, order, answers[0].next, answers[1..]);
    }
  }

  lemma {:induction false} StrictAbove(below: Order, rows: seq<Row>, cursor: Cursor)
    requires Strict(below, rows)
    ensures Strict(below, After(below, rows, cursor))
    ensures forall row :: row in After(below, rows, cursor) ==> row in rows
  {
    if cursor.Some? && rows != [] {
      StrictAbove(below, rows[1..], cursor);
      var tail := Above(below, rows[1..], cursor.value);
      forall j | 0 <= j < |tail|
        ensures below(rows[0].id, tail[j].id)
      {
        assert tail[j] in rows[1..];
      }
    }
  }

  /** Every listing is some arrangement of the same rows. */
  ghost predicate SameRows(asks: nat -> Ask, rows: seq<Row>) {
    forall i: nat :: multiset(asks(i).listing) == multiset(rows)
  }

  lemma UntiedShuffle(below: Order, a: seq<Row>, b: seq<Row>)
    requires WeakOrder(below) && Untied(below, a) && multiset(a) == multiset(b)
    ensures Untied(below, b)
  {
    forall i, j | 0 <= i < j < |b|
      ensures below(b[i].id, b[j].id) || below(b[j].id, b[i].id)
    {
      var p, q := TwoPlaces(a, b, i, j);
    }
  }

  lemma ShufflesSortAlike(below: Order, asks: nat -> Ask, rows: seq<Row>)
    requires WeakOrder(below) && Untied(below, rows) && SameRows(asks, rows)
    ensures SameOrder(below, asks, SortById(below, rows))
  {
    var order := SortById(below, rows);
    UntiedIsStrict(below, rows, order);
    SortKeeps(below, rows);
    forall i: nat
      ensures Sorted(below, asks(i)) == order
    {
      var other := Sorted(below, asks(i));
      SortKeeps(below, asks(i).listing);
      UntiedShuffle(below, rows, asks(i).listing);
      UntiedIsStrict(below, asks(i).listing, other);
      StrictIsUnique(below, order, other);
    }
  }

  /** Main result. When no two ids tie, following the cursor from the start returns rows in order
      without a gap or a repeat, takes at most one request a row, and when it finishes has returned
      every row exactly once - whatever the limits, whatever the byte cap cut off, and in whatever
      order each request happens to list the rows. */
  lemma EveryPlanOnce(below: Order, rows: seq<Row>, asks: nat -> Ask, answers: seq<Response>)
    requires WeakOrder(below) && Untied(below, rows) && SameRows(asks, rows)
    requires answers != [] && IsWalk(below, asks, 0, None, answers)
    ensures |answers| <= Max(1, |rows|)
    ensures Visited(answers) <= SortById(below, rows)
    ensures Finished(answers) ==> Visited(answers) == SortById(below, rows)
    ensures Finished(answers) ==> multiset(Visited(answers)) == multiset(rows)
  {
    var order := SortById(below, rows);
    SortKeeps(below, rows);
    assert |order| == |multiset(order)| == |multiset(rows)| == |rows|;
    ShufflesSortAlike(below, asks, rows);
    UntiedIsStrict(below, rows, order);
    StrictCutsAreClean(below, order, None, answers);
    AscendingSkipsOnlyTies(below, order);
    WalkAccounts(below, order, asks, 0, None, 0, answers);
  }

  /** When ids may tie, a finished walk has returned every row if and only if no page ended between
      two rows whose ids tie. */
  lemma CompleteExactlyWhenCutsAreClean(below: Order, order: seq<Row>, asks: nat -> Ask, answers: seq<Response>)
    requires WeakOrder(below) && Ascending(below, order) && SameOrder(below, asks, order)
    requires answers != [] && IsWalk(below, asks, 0, None, answers) && Finished(answers)
    ensures Visited(answers) == order <==> CleanCuts(below, order, None, answers)
  {
    AscendingSkipsOnlyTies(below, order);
    WalkAccounts(below, order, asks, 0, None, 0, answers);
  }

  /** Why ids must not tie: two rows under one id, one row a page. The walk finishes without the second. */
  lemma TiedRowIsLost(below: Order, first: Row, second: Row)
    requires WeakOrder(below) && first.id == second.id
    ensures
      var asks := (i: nat) => Ask([first, second], 1, (page, next) => 0);
      var answers := [Page([first], Some(first.id)), Page([], None)];
      IsWalk(below, asks, 0, None, answers) && Finished(answers) && Visited(answers) == [first]
  {
    var ask := Ask([first, second], 1, (page, next) => 0);
    var asks := (i: nat) => ask;
    var answers := [Page([first], Some(first.id)), Page([], None)];
    SortOfPair(below, first, second);
    assert Above(below, [second], first.id) == [];
    assert Above(below, [first, second], first.id) == [];
    assert answers[1..] == [Page([], None)];
    assert IsWalk(below, asks, 1, Some(first.id), answers[1..]);
    assert Visited(answers[1..]) == [];
  }

  lemma SortOfPair(below: Order, first: Row, second: Row)
    requires WeakOrder(below) && first.id == second.id
    ensures SortById(below, [first, second]) == [first, second]
  {
    assert SortById(below, [second]) == [second];
  }

  /** A walk whose last page names a cursor can always be carried on. */
  lemma AnAnswerExists(rest: seq<Row>, limit: Limit, size: Sizer) returns (answer: Response)
    ensures Answers(rest, limit, size, answer)
  {
    var most := Min(limit, |rest|);
    var n := most;
    while n > 1 && !Fits(rest, size, n)
      invariant Min(1, most) <= n <= most
      invariant forall k :: n < k <= most ==> !Fits(rest, size, k)
    {
      n := n - 1;
    }
    answer := if Fits(rest, size, n) then Page(rest[..n], NextCursor(rest, n)) else TooLarge;
  }

  /** The error answer needs a single row, or an empty page, that is over the cap on its own. */
  lemma SmallRowsNeverFail(rest: seq<Row>, limit: Limit, size: Sizer, answer: Response)
    requires Answers(rest, limit, size, answer)
    requires forall page, next :: |page| <= 1 ==> size(page, next) <= 6144
    ensures answer.Page?
  {
    var most := Min(limit, |rest|);
    assert |rest[..Min(1, most)]| <= 1;
    assert Fits(rest, size, Min(1, most));
  }
}
