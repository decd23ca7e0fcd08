/** The excerpt window of the workspace-library query tool: a fixed-size cut of the quoted
    content around the best match, repaired so that it does not break a surrogate pair. */
module QuoteWindow {
  import opened Prelude
  import opened JsonText

  /** Offsets reported for a match; either one may be missing. */
  datatype Offsets = Offsets(start: Option<int>, end: Option<int>)

  datatype Window = Window(start: nat, end: nat)

  const ELLIPSIS: seq<Unit> := [0x2E, 0x2E, 0x2E]

  function Clamp(v: int, lo: int, hi: int): int { Max(lo, Min(hi, v)) }

  function ClampedStart(len: nat, o: Offsets): Option<nat> {
    if o.start.Some? then Some(Clamp(o.start.value, 0, len)) else None
  }

  /** The end is clamped to the content and then raised to the start, when there is one. */
  function ClampedEnd(len: nat, o: Offsets): Option<nat> {
    if o.end.None? then None
    else
      var lo := if o.start.Some? then Clamp(o.start.value, 0, len) else 0;
      Some(Max(lo, Min(len, o.end.value)))
  }

  /** Both offsets of the match are known. */
  predicate Located(o: Offsets) { o.start.Some? && o.end.Some? }

  /** Twice the midpoint the window is centred on. */
  function TwiceAnchor(len: nat, keyword: Offsets, similar: Offsets): int {
    if Located(keyword) then ClampedStart(len, keyword).value + ClampedEnd(len, keyword).value
    else if Located(similar) then ClampedStart(len, similar).value + ClampedEnd(len, similar).value
    else 0
  }

  predicate KeywordFits(len: nat, target: nat, keyword: Offsets) {
    && Located(keyword)
    && ClampedEnd(len, keyword).value - ClampedStart(len, keyword).value <= target
  }

  /** Where the window starts before surrogates are looked at. Rounding is to the nearest
      integer, halves upwards. */
  function RawStart(len: nat, target: nat, keyword: Offsets, similar: Offsets): (start: nat)
    requires target < len
    ensures start <= len - target
    ensures KeywordFits(len, target, keyword) ==>
              start <= ClampedStart(len, keyword).value
              && ClampedEnd(len, keyword).value <= start + target
  {
    var rounded := (TwiceAnchor(len, keyword, similar) - target + 1) / 2;
    var start := Clamp(rounded, 0, len - target);
    if KeywordFits(len, target, keyword) then
      var from, to := ClampedStart(len, keyword).value, ClampedEnd(len, keyword).value;
      var left := if start > from then from else start;
      var right := if left + target < to then to - target else left;
      Clamp(right, 0, len - target)
    else start
  }

  /** Moves a boundary that sits on a low surrogate outwards by one unit. */
  function RepairBoundaries(content: seq<Unit>, start: nat, end: nat): Window
    requires start <= end <= |content|
  {
    Window(
      if 0 < start < |content| && Low(content[start]) then start - 1 else start,
      if 0 < end < |content| && Low(content[end]) then end + 1 else end)
  }

  function Bounds(content: seq<Unit>, target: nat, keyword: Offsets, similar: Offsets): Window
    requires target < |content|
  {
    var start := RawStart(|content|, target, keyword, similar);
    RepairBoundaries(content, start, start + target)
  }

  /** The text shown for an excerpt; an ellipsis marks each side that was cut. */
  function QuoteText(content: seq<Unit>, target: nat, keyword: Offsets, similar: Offsets): seq<Unit> {
    if |content| <= target then content
    else
      var w := Bounds(content, target, keyword, similar);
      (if w.start > 0 then ELLIPSIS else [])
      + content[Min(w.start, w.end)..Min(w.end, |content|)]
      + (if w.end < |content| then ELLIPSIS else [])
  }

  /** The window is inside the content, has the target size plus at most one unit a side, and
      holds the whole keyword match whenever that match fits. */
  lemma WindowShape(content: seq<Unit>, target: nat, keyword: Offsets, similar: Offsets)
    requires target < |content|
    ensures var w := Bounds(content, target, keyword, similar);
            && w.start <= w.end <= |content|
            && target <= w.end - w.start <= target + 2
            && (KeywordFits(|content|, target, keyword) ==>
                  w.start <= ClampedStart(|content|, keyword).value
                  && ClampedEnd(|content|, keyword).value <= w.end)
  {
  }

  /** When exactly a boundary still splits a surrogate pair: the end never does, and the start
      only on the second of two low surrogates that follow a high one. */
  lemma SplitExactly(content: seq<Unit>, target: nat, keyword: Offsets, similar: Offsets)
    requires target < |content|
    ensures var w := Bounds(content, target, keyword, similar);
            var raw := RawStart(|content|, target, keyword, similar);
            && !SplitsPair(content, w.end)
            && (SplitsPair(content, w.start) <==>
                  2 <= raw < |content| && High(content[raw - 2]) && Low(content[raw - 1]) && Low(content[raw]))
  {
  }

  /** Well-formed content is never split, so the window's code points are a run of the content's
      code points and none of them is a lone surrogate. */
  lemma WindowKeepsCodePoints(content: seq<Unit>, target: nat, keyword: Offsets, similar: Offsets)
    requires target < |content| && WellFormed(content)
    ensures var w := Bounds(content, target, keyword, similar);
            && w.start <= w.end <= |content|
            && CodePoints(content)
               == CodePoints(content[..w.start]) + CodePoints(content[w.start..w.end]) + CodePoints(content[w.end..])
            && forall c :: c in CodePoints(content[w.start..w.end]) ==> !Surrogate(c)
  {
    var w := Bounds(content, target, keyword, similar);
    WindowShape(content, target, keyword, similar);
    SplitExactly(content, target, keyword, similar);
    CodePointsSplit(content, w.end);
    var front := content[..w.end];
    assert front[..w.start] == content[..w.start] && front[w.start..] == content[w.start..w.end];
    assert !SplitsPair(front, w.start);
    CodePointsSplit(front, w.start);
    WellFormedHasNoLoneSurrogate(content);
  }

  /** Content that already fits is shown whole; anything longer loses at least one side, keeps at
      most two units more than the target, and says so with an ellipsis. */
  lemma QuoteTextLength(content: seq<Unit>, target: nat, keyword: Offsets, similar: Offsets)
    ensures var q := QuoteText(content, target, keyword, similar);
            if |content| <= target then q == content else target <= |q| <= target + 8
  {
    if target < |content| {
      WindowShape(content, target, keyword, similar);
    }
  }

  // ---- What is shown, without saying how ----

  /** Where a match lies inside content of this length: each offset is kept if it is inside and pulled to
      the nearer end otherwise, and the end is never before the start. */
  ghost predicate LiesAt(len: nat, o: Offsets, from: nat, to: nat) {
    && o.start.Some? && o.end.Some? && from <= to <= len
    && (0 <= o.start.value <= len ==> from == o.start.value)
    && (o.start.value < 0 ==> from == 0)
    && (len < o.start.value ==> from == len)
    && (from <= o.end.value <= len ==> to == o.end.value)
    && (o.end.value < from ==> to == from)
    && (len < o.end.value ==> to == len)
  }

  /** How far the middle of a run of `target` units from `r` is from the middle of a match, twice. */
  function OffCentre(r: int, target: nat, from: nat, to: nat): nat {
    var d := 2 * r + target - (from + to);
    if d < 0 then -d else d
  }

  /** No run of `target` units inside the content is nearer the middle of the match, and the one behind
      is not as near. */
  ghost predicate Centred(r: nat, len: nat, target: nat, from: nat, to: nat) {
    && r + target <= len
    && forall q: nat :: q + target <= len ==>
         OffCentre(r, target, from, to) < OffCentre(q, target, from, to)
         || (OffCentre(r, target, from, to) == OffCentre(q, target, from, to) && q <= r)
  }

  /** One of the offsets of the match is not known. */
  predicate Missing(o: Offsets) { o.start.None? || o.end.None? }

  /** The run that is shown of content longer than the target: the best centred run, one unit longer on a
      side where it would begin or end at a low surrogate. The keyword match has precedence, then the similar passage;
      with neither the run starts the content. */
  ghost predicate IsRun(content: seq<Unit>, target: nat, keyword: Offsets, similar: Offsets, r: nat, start: nat,
      end: nat) {
    && r + target <= |content| && start <= end <= |content|
    && start == (if 0 < r < |content| && Low(content[r]) then r - 1 else r)
    && end == (if 0 < r + target < |content| && Low(content[r + target]) then r + target + 1 else r + target)
    && (forall from: nat, to: nat :: LiesAt(|content|, keyword, from, to) ==> Centred(r, |content|, target, from, to))
    && (forall from: nat, to: nat :: Missing(keyword) && LiesAt(|content|, similar, from, to) ==> Centred(r, |content|, target, from, to))
    && (forall from: nat, to: nat :: LiesAt(|content|, keyword, from, to) && to - from <= target ==> start <= from && to <= end)
    && (Missing(keyword) && Missing(similar) ==> r == 0)
  }

  /** Content that fits is shown whole, otherwise the run is, and dots stand for what is left out. */
  ghost predicate Shows(content: seq<Unit>, target: nat, keyword: Offsets, similar: Offsets, text: seq<Unit>) {
    if |content| <= target then text == content
    else
      exists r: nat, start: nat, end: nat ::
        && IsRun(content, target, keyword, similar, r, start, end)
        && text == (if 0 < start then [0x2E, 0x2E, 0x2E] else []) + content[start..end]
                   + (if end < |content| then [0x2E, 0x2E, 0x2E] else [])
  }

  lemma LiesSomewhere(len: nat, o: Offsets)
    requires !Missing(o)
    ensures exists from: nat, to: nat :: LiesAt(len, o, from, to)
  {
    assert LiesAt(len, o, ClampedStart(len, o).value, ClampedEnd(len, o).value);
  }

  lemma ClampedLies(len: nat, o: Offsets, from: nat, to: nat)
    requires LiesAt(len, o, from, to)
    ensures ClampedStart(len, o) == Some(from) && ClampedEnd(len, o) == Some(to)
  {
  }

  /** The rounded and clamped start is the best centred one. */
  lemma RoundedIsCentred(r: int, len: nat, target: nat, from: nat, to: nat)
    requires target < len && r == Clamp((from + to - target + 1) / 2, 0, len - target)
    ensures r >= 0 && Centred(r, len, target, from, to)
  {
  }

  /** Around a match that fits, the centred run needs no shift. */
  lemma ShiftIsIdle(len: nat, target: nat, keyword: Offsets, similar: Offsets, from: nat, to: nat)
    requires target < len && LiesAt(len, keyword, from, to)
    ensures RawStart(len, target, keyword, similar) == Clamp((from + to - target + 1) / 2, 0, len - target)
  {
    ClampedLies(len, keyword, from, to);
  }

  lemma RawIsCentred(len: nat, target: nat, keyword: Offsets, similar: Offsets)
    requires target < len
    ensures
      var r := RawStart(len, target, keyword, similar);
      && (forall from: nat, to: nat :: LiesAt(len, keyword, from, to) ==> Centred(r, len, target, from, to))
      && (forall from: nat, to: nat :: !Located(keyword) && LiesAt(len, similar, from, to) ==> Centred(r, len, target, from, to))
      && (!Located(keyword) && !Located(similar) ==> r == 0)
  {
    var r := RawStart(len, target, keyword, similar);
    forall from: nat, to: nat | LiesAt(len, keyword, from, to) ensures Centred(r, len, target, from, to) {
      ShiftIsIdle(len, target, keyword, similar, from, to);
      RoundedIsCentred(r, len, target, from, to);
    }
    forall from: nat, to: nat | !Located(keyword) && LiesAt(len, similar, from, to) ensures Centred(r, len, target, from, to) {
      ClampedLies(len, similar, from, to);
      RoundedIsCentred(r, len, target, from, to);
    }
  }

  lemma BoundsAreRun(content: seq<Unit>, target: nat, keyword: Offsets, similar: Offsets)
    requires target < |content|
    ensures
      var w := Bounds(content, target, keyword, similar);
      IsRun(content, target, keyword, similar, RawStart(|content|, target, keyword, similar), w.start, w.end)
  {
    var w := Bounds(content, target, keyword, similar);
    WindowShape(content, target, keyword, similar);
    RawIsCentred(|content|, target, keyword, similar);
    forall from: nat, to: nat | LiesAt(|content|, keyword, from, to) && to - from <= target
      ensures w.start <= from && to <= w.end
    {
      ClampedLies(|content|, keyword, from, to);
    }
  }

  /** Main result. The text shown is the whole content if it fits; otherwise it is the run of target
      size that is best centred on the keyword match, or else on the similar passage, made whole at its
      ends, with dots where content was left out. A keyword match that fits is in it. */
  lemma QuoteTextShows(content: seq<Unit>, target: nat, keyword: Offsets, similar: Offsets)
    ensures Shows(content, target, keyword, similar, QuoteText(content, target, keyword, similar))
  {
    if target < |content| {
      BoundsAreRun(content, target, keyword, similar);
    }
  }
}
