/** Recovering a path from an OSC-8 terminal hyperlink. OSC and its string terminator ST are those of
    ECMA-48, sections 8.3.89 and 8.3.143; BEL is the other terminator in use. */
module Osc8 {
  import opened Prelude
  import opened Strings

  const ESC: char := '\U{001B}'
  const BEL: char := '\U{0007}'

  datatype Recovered = Text(text: string) | Ambiguous

  // ---- Markers ----

  /** The marker `]8;` stands at `i`. */
  predicate MarkerAt(s: string, i: int) {
    0 <= i && i + 3 <= |s| && s[i] == ']' && s[i + 1] == '8' && s[i + 2] == ';'
  }

  /** How many markers stand at `from` or later. */
  function Markers(s: string, from: nat): nat
    decreases |s| - from
  {
    if from >= |s| then 0 else (if MarkerAt(s, from) then 1 else 0) + Markers(s, from + 1)
  }

  function NextMarker(s: string, from: nat): (at: int)
    ensures at == -1 || (from <= at && MarkerAt(s, at))
    ensures forall k :: from <= k && (at == -1 || k < at) ==> !MarkerAt(s, k)
    decreases |s| - from
  {
    if from >= |s| then -1 else if MarkerAt(s, from) then from else NextMarker(s, from + 1)
  }

  function Find(s: string, c: char, from: nat): (at: int)
    ensures at == -1 || (from <= at < |s| && s[at] == c)
    ensures forall k :: from <= k < |s| && (at == -1 || k < at) ==> s[k] != c
    decreases |s| - from
  {
    if from >= |s| then -1 else if s[from] == c then from else Find(s, c, from + 1)
  }

  lemma {:induction false} NoMarkersBetween(s: string, from: nat, end: nat)
    requires from <= end && forall k :: from <= k < end ==> !MarkerAt(s, k)
    ensures Markers(s, from) == Markers(s, end)
    decreases end - from
  {
    if from < end {
      NoMarkersBetween(s, from + 1, end);
    }
  }

  /** Markers cannot overlap, so a scan may go on behind the one it found. */
  lemma ScanOnBehind(s: string, from: nat)
    ensures
      var next := NextMarker(s, from);
      Markers(s, from) == if next == -1 then 0 else 1 + Markers(s, next + 3)
  {
    var next := NextMarker(s, from);
    if next == -1 {
      NoMarkersBetween(s, from, Max(from, |s|));
    } else {
      NoMarkersBetween(s, from, next);
      NoMarkersBetween(s, next + 1, next + 3);
    }
  }

  /** The counting loop. */
  method CountMarkers(s: string) returns (count: nat)
    ensures count == Markers(s, 0)
  {
    count := 0;
    ScanOnBehind(s, 0);
    var i: int := NextMarker(s, 0);
    while i != -1
      invariant i == -1 || MarkerAt(s, i)
      invariant Markers(s, 0) == count + if i == -1 then 0 else 1 + Markers(s, i + 3)
      decreases if i == -1 then 0 else 1 + |s| - i
    {
      ScanOnBehind(s, i + 3);
      count := count + 1;
      i := NextMarker(s, i + 3);
    }
  }

  // ---- The parts of a link ----

  /** Only white space. */
  predicate Blank(s: string) { forall i :: 0 <= i < |s| ==> IsSpace(s[i]) }

  /** What may follow the closer: at most one whole or damaged terminator, then white space. */
  predicate Closing(tail: string) {
    || Blank(tail)
    || ([ESC, '\\'] <= tail && Blank(tail[2..]))
    || (tail != "" && tail[0] in [BEL, ESC, '\\'] && Blank(tail[1..]))
  }

  function Lower(c: char): char {
    if 'A' <= c <= 'Z' then (c as int + 32) as char else c
  }

  predicate FileAt(s: string, i: nat) {
    i + 5 <= |s| && Lower(s[i]) == 'f' && Lower(s[i + 1]) == 'i' && Lower(s[i + 2]) == 'l' && Lower(s[i + 3]) == 'e'
    && s[i + 4] == ':'
  }

  function FindFile(s: string, from: nat): (at: int)
    ensures at == -1 || (from <= at && FileAt(s, at))
    ensures forall k: nat :: from <= k && (at == -1 || k < at) ==> !FileAt(s, k)
    decreases |s| - from
  {
    if from >= |s| then -1 else if FileAt(s, from) then from else FindFile(s, from + 1)
  }

  /** Where the run of characters a file URI may hold ends. */
  function UriEnd(s: string, from: nat): (end: nat)
    requires from <= |s|
    ensures from <= end <= |s|
    decreases |s| - from
  {
    if from < |s| && !IsSpace(s[from]) && s[from] != '\\' && s[from] >= ' ' then UriEnd(s, from + 1) else from
  }

  /** The URI found in a region whose terminator was lost. */
  function DegradedUri(region: string): string {
    var at := FindFile(region, 0);
    if at == -1 then "" else region[at..UriEnd(region, at + 5)]
  }

  /** The scheme is spelt `file:`, in letters of either case. */
  lemma FileAtExactly(s: string, i: nat)
    ensures FileAt(s, i) <==>
      && i + 5 <= |s| && s[i] in {'f', 'F'} && s[i + 1] in {'i', 'I'} && s[i + 2] in {'l', 'L'} && s[i + 3] in {'e', 'E'}
      && s[i + 4] == ':'
  {
    if i + 5 <= |s| {
      LowerOf(s[i], 'f', 'F');
      LowerOf(s[i + 1], 'i', 'I');
      LowerOf(s[i + 2], 'l', 'L');
      LowerOf(s[i + 3], 'e', 'E');
    }
  }

  lemma LowerOf(c: char, small: char, capital: char)
    requires 'A' <= capital <= 'Z' && small as int == capital as int + 32
    ensures Lower(c) == small <==> c == small || c == capital
  {
  }

  predicate InUri(c: char) {
    !IsSpace(c) && c != '\\' && c >= ' '
  }

  lemma {:induction false} UriEndExactly(s: string, from: nat)
    requires from <= |s|
    ensures forall k :: from <= k < UriEnd(s, from) ==> InUri(s[k])
    ensures UriEnd(s, from) == |s| || !InUri(s[UriEnd(s, from)])
    decreases |s| - from
  {
    if from < |s| && InUri(s[from]) {
      UriEndExactly(s, from + 1);
    }
  }

  /** The URI of a region is the earliest `file:` with every character behind it up to the first that is
      white space, a backslash or a control; it is empty exactly if there is no `file:`. */
  lemma DegradedUriExactly(region: string)
    ensures
      var uri := DegradedUri(region);
      if forall k: nat :: !FileAt(region, k) then uri == ""
      else exists at: nat :: FirstUri(region, at, uri)
  {
    var at := FindFile(region, 0);
    if at != -1 {
      FoundUri(region, at);
    }
  }

  lemma FoundUri(region: string, at: nat)
    requires FindFile(region, 0) == at
    ensures FirstUri(region, at, DegradedUri(region))
  {
    UriEndExactly(region, at + 5);
    var uri := DegradedUri(region);
    assert uri == region[at..UriEnd(region, at + 5)];
    forall k | 5 <= k < |uri| ensures InUri(uri[k]) {
      assert uri[k] == region[at + k];
    }
  }

  ghost predicate FirstUri(region: string, at: nat, uri: string) {
    && FileAt(region, at) && (forall k: nat :: k < at ==> !FileAt(region, k))
    && 5 <= |uri| && at + |uri| <= |region| && uri == region[at..at + |uri|]
    && (forall k :: 5 <= k < |uri| ==> InUri(uri[k]))
    && (at + |uri| == |region| || !InUri(region[at + |uri|]))
  }

  /** The closer may be followed by a BEL, an ESC, a backslash, or an ESC with a backslash, and by white
      space; by nothing else. */
  lemma ClosingExactly(tail: string)
    ensures Closing(tail) <==>
      exists residue | residue in {"", [BEL], [ESC], "\\", [ESC, '\\']} ::
        residue <= tail && forall i :: |residue| <= i < |tail| ==> IsSpace(tail[i])
  {
    assert "" <= tail;
    if Closing(tail) {
      if [ESC, '\\'] <= tail && Blank(tail[2..]) {
        assert forall i :: 2 <= i < |tail| ==> tail[i] == tail[2..][i - 2];
      } else if tail != "" && tail[0] in [BEL, ESC, '\\'] && Blank(tail[1..]) {
        assert [tail[0]] <= tail;
        assert forall i :: 1 <= i < |tail| ==> tail[i] == tail[1..][i - 1];
      }
    }
  }

  /** Where the first terminator of a region stands, or -1, and how long it is. */
  function Terminator(region: string): (t: (int, nat))
    ensures t.0 == -1 || (0 <= t.0 && t.0 + t.1 <= |region|)
  {
    var bel, esc := Find(region, BEL, 0), Find(region, ESC, 0);
    if bel != -1 && (esc == -1 || bel < esc) then (bel, 1)
    else if esc != -1 then (esc, if esc + 1 < |region| && region[esc + 1] == '\\' then 2 else 1)
    else (-1, 0)
  }

  /** The display text if there is any, else a file URI, else nothing. */
  function Choose(uri: string, display: string): Recovered {
    if Trim(display) != "" then Text(Trim(display))
    else if FileAt(Trim(uri), 0) then Text(Trim(uri))
    else Ambiguous
  }

  function FromRegion(region: string): Recovered {
    var (at, length) := Terminator(region);
    if at == -1 then Choose(DegradedUri(region), "")
    else Choose(region[..at], region[at + length..])
  }

  /** The region between the parameters and the closer; the closer's own ESC is not part of it. */
  function Region(s: string, semi: nat, m2: nat): string
    requires semi < m2 <= |s| && s[semi] == ';'
  {
    if s[m2 - 1] == ESC then s[semi + 1..m2 - 1] else s[semi + 1..m2]
  }

  /** The region of a link with these two markers, if it is built like one. */
  function LinkRegion(s: string, m1: nat, m2: nat): Option<string>
    requires MarkerAt(s, m1) && MarkerAt(s, m2) && m1 + 3 <= m2
  {
    var semi := Find(s, ';', m1 + 3);
    if semi == -1 || semi >= m2 then None
    else if m2 + 3 >= |s| || s[m2 + 3] != ';' then None
    else if !Closing(s[m2 + 4..]) then None
    else Some(Region(s, semi, m2))
  }

  /** The region of the one link in a string with exactly two markers. */
  function OnlyRegion(s: string): Option<string> {
    var m1 := NextMarker(s, 0);
    if m1 == -1 then None
    else
      var m2 := NextMarker(s, m1 + 3);
      if m2 == -1 || NextMarker(s, m2 + 3) != -1 then None else LinkRegion(s, m1, m2)
  }

  /** What is recovered from a string: itself without a marker, nothing unless it holds one link. */
  function Unwrap(s: string): Recovered {
    if NextMarker(s, 0) == -1 then Text(s)
    else if OnlyRegion(s).None? then Ambiguous
    else FromRegion(OnlyRegion(s).value)
  }

  /** Two markers: the second behind the first and none behind that. */
  lemma TwoMarkers(s: string)
    ensures Markers(s, 0) == 0 <==> NextMarker(s, 0) == -1
    ensures Markers(s, 0) == 2 <==>
      var m1 := NextMarker(s, 0);
      m1 != -1 && NextMarker(s, m1 + 3) != -1 && NextMarker(s, NextMarker(s, m1 + 3) + 3) == -1
  {
    ScanOnBehind(s, 0);
    var m1 := NextMarker(s, 0);
    if m1 != -1 {
      ScanOnBehind(s, m1 + 3);
      var m2 := NextMarker(s, m1 + 3);
      if m2 != -1 {
        ScanOnBehind(s, m2 + 3);
      }
    }
  }

  predicate NoTerminator(region: string, n: nat)
    requires n <= |region|
  {
    forall k :: 0 <= k < n ==> region[k] != BEL && region[k] != ESC
  }

  /** A BEL or ESC stands at `at` and none before it; it is two characters long exactly if it is ESC with
      a backslash behind it. */
  predicate FirstTerminator(region: string, at: int, length: nat) {
    && 0 <= at < |region| && NoTerminator(region, at)
    && (region[at] == BEL || region[at] == ESC)
    && length == if region[at] == ESC && at + 1 < |region| && region[at + 1] == '\\' then 2 else 1
  }

  method FindTerminator(region: string) returns (termPos: int, termLen: nat)
    ensures (termPos, termLen) == Terminator(region)
    ensures if termPos == -1 then NoTerminator(region, |region|) else FirstTerminator(region, termPos, termLen)
  {
    var bel, esc := Find(region, BEL, 0), Find(region, ESC, 0);
    termPos, termLen := -1, 0;
    if bel != -1 && (esc == -1 || bel < esc) {
      termPos, termLen := bel, 1;
    } else if esc != -1 {
      termPos := esc;
      termLen := if esc + 1 < |region| && region[esc + 1] == '\\' then 2 else 1;
    }
  }

  method Pick(rawUri: string, rawDisplay: string) returns (r: Recovered)
    ensures r == Choose(rawUri, rawDisplay)
  {
    var display := Trim(rawDisplay);
    if display != "" {
      return Text(display);
    }
    var uri := Trim(rawUri);
    if FileAt(uri, 0) {
      return Text(uri);
    }
    return Ambiguous;
  }

  /** The checks on the parameters and the closer. */
  method InspectLink(s: string, m1: nat, m2: nat) returns (region: Option<string>)
    requires MarkerAt(s, m1) && MarkerAt(s, m2) && m1 + 3 <= m2
    ensures region == LinkRegion(s, m1, m2)
  {
    var semi := Find(s, ';', m1 + 3);
    if semi == -1 || semi >= m2 {
      return None;
    }
    if m2 + 3 >= |s| || s[m2 + 3] != ';' {
      return None;
    }
    if !Closing(s[m2 + 4..]) {
      return None;
    }
    var closerStart := if s[m2 - 1] == ESC then m2 - 1 else m2;
    return Some(s[semi + 1..closerStart]);
  }

  /** Where the region of the only link is, once there are two markers. */
  method LocateRegion(s: string) returns (region: Option<string>)
    requires Markers(s, 0) == 2
    ensures region == OnlyRegion(s)
  {
    TwoMarkers(s);
    var m1 := NextMarker(s, 0);
    var m2 := NextMarker(s, m1 + 3);
    region := InspectLink(s, m1, m2);
  }

  /** Reads a region: what stands around its terminator, or its URI if that was lost. */
  method ReadRegion(region: string) returns (r: Recovered)
    ensures r == FromRegion(region)
  {
    var termPos, termLen := FindTerminator(region);
    if termPos != -1 {
      r := Pick(region[..termPos], region[termPos + termLen..]);
    } else {
      r := Pick(DegradedUri(region), "");
    }
  }

  /** The scanner. */
  method UnwrapOsc8(s: string) returns (r: Recovered)
    ensures r == Unwrap(s)
    ensures Markers(s, 0) == 0 ==> r == Text(s)
    ensures Markers(s, 0) != 0 && Markers(s, 0) != 2 ==> r == Ambiguous
  {
    TwoMarkers(s);
    if NextMarker(s, 0) == -1 {
      return Text(s);
    }
    var count := CountMarkers(s);
    if count != 2 {
      return Ambiguous;
    }
    var found := LocateRegion(s);
    if found.None? {
      return Ambiguous;
    }
    r := ReadRegion(found.value);
  }

  // ---- Concatenation ----

  predicate NoMarker(s: string) { forall i :: 0 <= i < |s| ==> !MarkerAt(s, i) }

  /** No marker can straddle the seam of two strings. */
  predicate Apart(a: string, b: string) {
    || b == "" || a == ""
    || (b[0] != '8' && b[0] != ';')
    || (a[|a| - 1] != ']' && (|a| == 1 || a[|a| - 2] != ']' || a[|a| - 1] != '8'))
  }

  lemma NoMarkerConcat(a: string, b: string)
    requires NoMarker(a) && NoMarker(b) && Apart(a, b)
    ensures NoMarker(a + b)
  {
    forall i | 0 <= i < |a + b|
      ensures !MarkerAt(a + b, i)
    {
      if MarkerAt(a + b, i) {
        if i + 3 <= |a| {
          assert MarkerAt(a, i);
        } else if i >= |a| {
          assert MarkerAt(b, i - |a|);
        }
      }
    }
  }

  lemma MarkerShifts(s: string, lo: nat, hi: nat, k: nat)
    requires lo <= k && k + 3 <= hi <= |s|
    ensures MarkerAt(s, k) <==> MarkerAt(s[lo..hi], k - lo)
  {
  }

  /** Behind a marker-free part the marker at the start of the rest comes first: it cannot be straddled. */
  lemma FirstBehind(a: string, b: string, c: string)
    requires NoMarker(b) && MarkerAt(c, 0)
    ensures NextMarker(a + b + c, |a|) == |a| + |b|
  {
    var s := a + b + c;
    var at := |a| + |b|;
    assert s[|a|..at] == b && s[at..|s|] == c;
    MarkerShifts(s, at, |s|, at);
    forall k | |a| <= k < at
      ensures !MarkerAt(s, k)
    {
      if k + 3 <= at {
        MarkerShifts(s, |a|, at, k);
      } else {
        assert s[at] == ']';
      }
    }
    OnlyFirst(s, |a|, at);
  }

  lemma OnlyFirst(s: string, from: nat, at: nat)
    requires from <= at && MarkerAt(s, at) && forall k :: from <= k < at ==> !MarkerAt(s, k)
    ensures NextMarker(s, from) == at
  {
  }

  // ---- A framed region ----

  /** How a string with one link is put together. */
  datatype Framed = Framed(before: string, params: string, region: string, escape: string, tail: string)

  function Inside(f: Framed): string { f.params + ";" + (f.region + f.escape) }

  function Spelt(f: Framed): string {
    f.before + "]8;" + Inside(f) + ("]8;;" + f.tail)
  }

  predicate IsFrameOf(f: Framed, s: string) {
    && s == Spelt(f)
    && ';' !in f.params && Closing(f.tail) && (f.escape == "" || f.escape == [ESC])
  }

  /** A frame that is read as it is written: no marker but its own two, and the closer's ESC, if it is
      there, is told apart from the region. */
  predicate Proper(f: Framed) {
    && NoMarker(f.before) && NoMarker(f.region)
    && ';' !in f.params && ']' !in f.params && Closing(f.tail)
    && (f.escape == [ESC] || (f.escape == "" && (f.region == "" || f.region[|f.region| - 1] != ESC)))
  }

  lemma InsideHasNoMarker(f: Framed)
    requires Proper(f)
    ensures NoMarker(Inside(f))
  {
    NoMarkerConcat(f.params, ";");
    NoMarkerConcat(f.region, f.escape);
    NoMarkerConcat(f.params + ";", f.region + f.escape);
  }

  lemma ClosingHasNoMarker(tail: string)
    requires Closing(tail)
    ensures ']' !in tail
  {
    forall i | 0 <= i < |tail|
      ensures tail[i] != ']'
    {
      if i >= 2 {
        assert tail[i] == tail[2..][i - 2] == tail[1..][i - 1];
      } else if i == 1 {
        assert tail[i] == tail[1..][0];
      }
    }
  }

  lemma Slices(a: string, b: string, c: string)
    ensures (a + b + c)[|a|..|a| + |b|] == b && (a + b + c)[|a| + |b|..] == c
  {
  }

  lemma CloserAt(s: string, m2: nat, tail: string)
    requires m2 <= |s| && s[m2..] == "]8;;" + tail
    ensures m2 + 3 < |s| && s[m2 + 3] == ';' && s[m2 + 4..] == tail
  {
    assert s[m2 + 3] == s[m2..][3];
    assert s[m2 + 4..] == s[m2..][4..];
  }

  /** Nothing behind the closer's marker is a marker. */
  lemma NoneInTail(s: string, m2: nat, tail: string)
    requires m2 <= |s| && s[m2..] == "]8;;" + tail && ']' !in tail
    ensures NextMarker(s, m2 + 3) == -1
  {
    CloserAt(s, m2, tail);
    forall k | m2 + 3 <= k < |s|
      ensures s[k] != ']'
    {
      if k > m2 + 3 {
        assert s[k] == s[m2 + 4..][k - m2 - 4] == tail[k - m2 - 4];
      }
    }
  }

  lemma MarkersOfFrame(f: Framed)
    requires Proper(f)
    ensures
      var m1 := |f.before|;
      var m2 := m1 + 3 + |Inside(f)|;
      NextMarker(Spelt(f), 0) == m1 && NextMarker(Spelt(f), m1 + 3) == m2 && NextMarker(Spelt(f), m2 + 3) == -1
  {
    var head, end := f.before + "]8;", "]8;;" + f.tail;
    assert Spelt(f) == [] + f.before + ("]8;" + Inside(f) + end);
    FirstBehind([], f.before, "]8;" + Inside(f) + end);
    InsideHasNoMarker(f);
    FirstBehind(head, Inside(f), end);
    ClosingHasNoMarker(f.tail);
    Slices(head, Inside(f), end);
    NoneInTail(Spelt(f), |head| + |Inside(f)|, f.tail);
  }

  /** Where the parameters end, and what is between them and the closing marker. */
  lemma FindSemi(s: string, lo: nat, hi: nat, params: string, rest: string)
    requires lo <= hi <= |s| && s[lo..hi] == params + ";" + rest && ';' !in params
    ensures Find(s, ';', lo) == lo + |params| < hi && s[lo + |params| + 1..hi] == rest
  {
    var inside := s[lo..hi];
    assert s[lo + |params|] == inside[|params|] == ';';
    forall k | lo <= k < lo + |params|
      ensures s[k] != ';'
    {
      assert s[k] == inside[k - lo] == params[k - lo];
    }
    assert s[lo + |params| + 1..hi] == inside[|params| + 1..];
  }

  /** Cutting the closer's ESC off. */
  lemma RegionWithoutEscape(s: string, semi: nat, m2: nat, region: string, escape: string)
    requires semi < m2 <= |s| && s[semi] == ';' && s[semi + 1..m2] == region + escape
    requires escape == [ESC] || (escape == "" && (region == "" || region[|region| - 1] != ESC))
    ensures Region(s, semi, m2) == region
  {
    var both := s[semi + 1..m2];
    if both != "" {
      assert s[m2 - 1] == both[|both| - 1];
    }
    if escape == [ESC] {
      assert s[semi + 1..m2 - 1] == both[..|both| - 1];
    } else {
      assert both == region;
    }
  }

  /** What stands behind the opener, and where. */
  predicate Parts(s: string, lo: nat, hi: nat, params: string, region: string, tail: string) {
    && lo <= hi && hi + 3 < |s| && s[hi + 3] == ';' && s[hi + 4..] == tail
    && Find(s, ';', lo) == lo + |params| < hi && Region(s, lo + |params|, hi) == region
  }

  lemma PartsOfLink(s: string, lo: nat, hi: nat, head: string, params: string, region: string, escape: string,
      tail: string)
    requires s == head + (params + ";" + (region + escape)) + ("]8;;" + tail) && ';' !in params
    requires lo == |head| && hi == lo + |params + ";" + (region + escape)|
    requires escape == [ESC] || (escape == "" && (region == "" || region[|region| - 1] != ESC))
    ensures Parts(s, lo, hi, params, region, tail)
  {
    var inside := params + ";" + (region + escape);
    Slices(head, inside, "]8;;" + tail);
    CloserAt(s, hi, tail);
    FindSemi(s, lo, hi, params, region + escape);
    RegionWithoutEscape(s, lo + |params|, hi, region, escape);
  }

  /** The region of a proper frame is found. */
  lemma RegionOfFrame(f: Framed)
    requires Proper(f)
    ensures NextMarker(Spelt(f), 0) != -1 && OnlyRegion(Spelt(f)) == Some(f.region)
  {
    var s, m1, m2 := SpeltWithMarkers(f);
    PartsOfLink(s, m1 + 3, m2, f.before + "]8;", f.params, f.region, f.escape, f.tail);
    PartsAreRegion(s, m1, m2, f.params, f.region, f.tail);
  }

  lemma SpeltWithMarkers(f: Framed) returns (s: string, m1: nat, m2: nat)
    requires Proper(f)
    ensures s == Spelt(f) && m1 == |f.before| && m2 == m1 + 3 + |Inside(f)|
    ensures NextMarker(s, 0) == m1 && NextMarker(s, m1 + 3) == m2 && NextMarker(s, m2 + 3) == -1
  {
    s, m1, m2 := Spelt(f), |f.before|, |f.before| + 3 + |Inside(f)|;
    MarkersOfFrame(f);
  }

  lemma PartsAreRegion(s: string, m1: nat, m2: nat, params: string, region: string, tail: string)
    requires NextMarker(s, 0) == m1 && NextMarker(s, m1 + 3) == m2 && NextMarker(s, m2 + 3) == -1
    requires Parts(s, m1 + 3, m2, params, region, tail) && Closing(tail)
    ensures OnlyRegion(s) == Some(region)
  {
    FramedRegion(s, m1, m2);
  }

  lemma FramedRegion(s: string, m1: nat, m2: nat)
    requires NextMarker(s, 0) == m1 && NextMarker(s, m1 + 3) == m2 && NextMarker(s, m2 + 3) == -1
    requires Find(s, ';', m1 + 3) != -1 && Find(s, ';', m1 + 3) < m2 && m2 + 3 < |s| && s[m2 + 3] == ';'
    requires Closing(s[m2 + 4..])
    ensures OnlyRegion(s) == Some(Region(s, Find(s, ';', m1 + 3), m2))
  {
  }

  // ---- Round trips ----

  /** A hyperlink: its parameters, its address, a terminator, the text shown, and what is left after
      the closing marker. */
  datatype Link = Link(params: string, uri: string, terminator: string, display: string, tail: string)

  function FrameOf(before: string, l: Link): Framed {
    Framed(before + [ESC], l.params, l.uri + l.terminator + l.display, [ESC], l.tail)
  }

  /** The escape sequence a terminal program writes, behind any other text. */
  function Wrap(before: string, l: Link): string { Spelt(FrameOf(before, l)) }

  predicate Intact(l: Link) {
    && ';' !in l.params && ']' !in l.params
    && ESC !in l.uri && BEL !in l.uri
    && NoMarker(l.uri) && NoMarker(l.display)
    && (l.terminator == [BEL] || l.terminator == [ESC, '\\'])
    && Closing(l.tail)
  }

  lemma IntactIsProper(before: string, l: Link)
    requires NoMarker(before) && Intact(l)
    ensures Proper(FrameOf(before, l))
  {
    NoMarkerConcat(before, [ESC]);
    NoMarkerConcat(l.uri, l.terminator);
    NoMarkerConcat(l.uri + l.terminator, l.display);
  }

  lemma TerminatorOfLink(l: Link)
    requires Intact(l)
    ensures Terminator(l.uri + l.terminator + l.display) == (|l.uri|, |l.terminator|)
  {
    var region := l.uri + l.terminator + l.display;
    assert region[|l.uri|] == l.terminator[0];
    forall k | 0 <= k < |l.uri|
      ensures region[k] != ESC && region[k] != BEL
    {
      assert region[k] == l.uri[k];
    }
    if l.terminator == [ESC, '\\'] {
      assert region[|l.uri| + 1] == '\\';
    }
  }

  lemma ReadAround(region: string, uri: string, terminator: string, display: string)
    requires region == uri + terminator + display && Terminator(region) == (|uri|, |terminator|)
    ensures FromRegion(region) == Choose(uri, display)
  {
    assert region[..|uri|] == uri && region[|uri| + |terminator|..] == display;
  }

  lemma UnwrapsTo(s: string, region: string)
    requires NextMarker(s, 0) != -1 && OnlyRegion(s) == Some(region)
    ensures Unwrap(s) == FromRegion(region)
  {
  }

  /** Main result. Any intact link, behind any text without a marker, gives back its display text
      without the white space around it; with a blank display, its address if that is a file URI. */
  lemma UnwrapOfWrap(before: string, l: Link)
    requires NoMarker(before) && Intact(l)
    ensures Trim(l.display) != "" ==> Unwrap(Wrap(before, l)) == Text(Trim(l.display))
    ensures Trim(l.display) == "" ==>
      Unwrap(Wrap(before, l)) == (if FileAt(Trim(l.uri), 0) then Text(Trim(l.uri)) else Ambiguous)
  {
    IntactIsProper(before, l);
    RegionOfFrame(FrameOf(before, l));
    var region := l.uri + l.terminator + l.display;
    UnwrapsTo(Wrap(before, l), region);
    TerminatorOfLink(l);
    ReadAround(region, l.uri, l.terminator, l.display);
  }

  /** A file URI as it stands in a link: nothing in it that ends one. */
  predicate FileUri(uri: string) {
    FileAt(uri, 0) && NoMarker(uri) && forall i :: 0 <= i < |uri| ==> InUri(uri[i])
  }

  /** What may follow the URI of a link whose terminators have lost their control characters: nothing,
      or a first character that no URI holds, such as the backslash of a string terminator. */
  predicate Residue(rest: string) {
    && NoMarker(rest) && ESC !in rest && BEL !in rest
    && (rest == "" || !InUri(rest[0]))
  }

  lemma {:induction false} UriEndsThere(uri: string, rest: string, from: nat)
    requires from <= |uri| && (rest == "" || !InUri(rest[0]))
    requires forall i :: 0 <= i < |uri| ==> InUri(uri[i])
    ensures UriEnd(uri + rest, from) == |uri|
    decreases |uri| - from
  {
    if from < |uri| {
      assert (uri + rest)[from] == uri[from];
      UriEndsThere(uri, rest, from + 1);
    } else if rest != "" {
      assert (uri + rest)[from] == rest[0];
    }
  }

  lemma NoTerminatorLeft(region: string)
    requires ESC !in region && BEL !in region
    ensures Terminator(region).0 == -1
  {
  }

  lemma DegradedUriIs(uri: string, rest: string)
    requires FileUri(uri) && (rest == "" || !InUri(rest[0]))
    ensures DegradedUri(uri + rest) == uri
  {
    var region := uri + rest;
    assert FileAt(region, 0);
    UriEndsThere(uri, rest, 5);
    assert region[0..|uri|] == uri;
  }

  lemma UriIsTrimmed(uri: string)
    requires FileUri(uri)
    ensures Trim(uri) == uri && Choose(uri, "") == Text(uri)
  {
    assert InUri(uri[0]) && InUri(uri[|uri| - 1]);
    TrimOfTrimmed(uri);
    TrimOfTrimmed("");
  }

  function DegradedFrame(before: string, params: string, uri: string, rest: string, tail: string): Framed {
    Framed(before, params, uri + rest, "", tail)
  }

  lemma DegradedIsProper(before: string, params: string, uri: string, rest: string, tail: string)
    requires NoMarker(before) && ';' !in params && ']' !in params && Closing(tail)
    requires FileUri(uri) && Residue(rest)
    ensures Proper(DegradedFrame(before, params, uri, rest, tail))
  {
    NoMarkerConcat(uri, rest);
  }

  lemma DegradedSpelling(before: string, params: string, uri: string, rest: string, tail: string)
    ensures Spelt(DegradedFrame(before, params, uri, rest, tail))
         == before + "]8;" + params + ";" + uri + rest + "]8;;" + tail
  {
  }

  /** Main result. A link whose escape characters were eaten - its terminator, if anything, left a
      residue - gives back its address when that is a file URI, whatever text it showed. */
  lemma UnwrapOfDegraded(before: string, params: string, uri: string, rest: string, tail: string)
    requires NoMarker(before) && ';' !in params && ']' !in params && Closing(tail)
    requires FileUri(uri) && Residue(rest)
    ensures Unwrap(before + "]8;" + params + ";" + uri + rest + "]8;;" + tail) == Text(uri)
  {
    var f := DegradedFrame(before, params, uri, rest, tail);
    DegradedSpelling(before, params, uri, rest, tail);
    DegradedIsProper(before, params, uri, rest, tail);
    RegionOfFrame(f);
    UnwrapsTo(Spelt(f), uri + rest);
    NoTerminatorLeft(uri + rest);
    DegradedUriIs(uri, rest);
    UriIsTrimmed(uri);
  }

  // ---- Nothing is made up ----

  /** `t` is a contiguous part of `s`. */
  ghost predicate Within(t: string, s: string) {
    exists i: nat, j: nat :: i <= j <= |s| && t == s[i..j]
  }

  lemma TrimIsWithin(s: string)
    ensures Within(Trim(s), s)
  {
    var u := TrimStart(s);
    var v := TrimEnd(u);
    var i: nat := |s| - |u|;
    assert u == s[i..|s|];
    WithinSlice(v, s, i, |s|) by {
      assert v == u[0..|v|];
    }
  }

  lemma WithinSlice(t: string, s: string, lo: nat, hi: nat)
    requires lo <= hi <= |s| && Within(t, s[lo..hi])
    ensures Within(t, s)
  {
    var i: nat, j: nat :| i <= j <= hi - lo && t == s[lo..hi][i..j];
    var u := s[lo..hi];
    forall k | 0 <= k < j - i
      ensures t[k] == s[lo + i + k]
    {
      assert t[k] == u[i + k] == s[lo + (i + k)];
    }
    assert t == s[lo + i..lo + j];
  }

  /** A usable path taken from `s`: not blank, without white space around it, and nothing made up. */
  ghost predicate TakenFrom(t: string, s: string) {
    t != "" && Trimmed(t) && Within(t, s)
  }

  lemma ChosenIsWithin(uri: string, display: string, t: string)
    requires Choose(uri, display) == Text(t)
    ensures TakenFrom(t, uri) || TakenFrom(t, display)
  {
    TrimIsWithin(uri);
    TrimIsWithin(display);
  }

  lemma DegradedIsWithin(region: string, t: string)
    requires TakenFrom(t, DegradedUri(region))
    ensures TakenFrom(t, region)
  {
    var from := FindFile(region, 0);
    if from == -1 {
      assert false;
    } else {
      WithinSlice(t, region, from, UriEnd(region, from + 5));
    }
  }

  lemma RegionIsTheSource(region: string, t: string)
    ensures FromRegion(region) == Text(t) ==> TakenFrom(t, region)
  {
    if FromRegion(region) == Text(t) {
      var (at, length) := Terminator(region);
      if at == -1 {
        ChosenIsWithin(DegradedUri(region), "", t);
        NothingFromEmpty(t);
        DegradedIsWithin(region, t);
      } else {
        ChosenIsWithin(region[..at], region[at + length..], t);
        TakenFromEnds(region, at, at + length, t);
      }
    }
  }

  lemma NothingFromEmpty(t: string)
    ensures !TakenFrom(t, "")
  {
  }

  lemma TakenFromEnds(s: string, i: nat, j: nat, t: string)
    requires i <= |s| && j <= |s| && (TakenFrom(t, s[..i]) || TakenFrom(t, s[j..]))
    ensures TakenFrom(t, s)
  {
    if TakenFrom(t, s[..i]) {
      assert s[..i] == s[0..i];
      WithinSlice(t, s, 0, i);
    } else {
      assert s[j..] == s[j..|s|];
      WithinSlice(t, s, j, |s|);
    }
  }

  lemma FrameOfRegion(s: string) returns (f: Framed)
    requires OnlyRegion(s).Some?
    ensures IsFrameOf(f, s) && f.region == OnlyRegion(s).value
  {
    var m1, semi, m2 := WhatInspectionSaw(s);
    var cut := if s[m2 - 1] == ESC then m2 - 1 else m2;
    f := Framed(s[..m1], s[m1 + 3..semi], s[semi + 1..cut], s[cut..m2], s[m2 + 4..]);
    ParamsHaveNoSemi(s, m1 + 3, semi);
    SplitAt(s, m1, semi, cut, m2);
  }

  lemma WhatInspectionSaw(s: string) returns (m1: nat, semi: nat, m2: nat)
    requires OnlyRegion(s).Some?
    ensures MarkerAt(s, m1) && MarkerAt(s, m2) && m1 + 3 <= semi < m2 && Find(s, ';', m1 + 3) == semi
    ensures s[semi] == ';' && m2 + 3 < |s| && s[m2 + 3] == ';' && Closing(s[m2 + 4..])
    ensures OnlyRegion(s).value == Region(s, semi, m2)
  {
    m1 := NextMarker(s, 0);
    m2 := NextMarker(s, m1 + 3);
    semi := Find(s, ';', m1 + 3);
  }

  lemma ParamsHaveNoSemi(s: string, lo: nat, semi: nat)
    requires Find(s, ';', lo) == semi
    ensures lo <= semi <= |s| && ';' !in s[lo..semi]
  {
    forall k | 0 <= k < semi - lo
      ensures s[lo..semi][k] != ';'
    {
      assert s[lo..semi][k] == s[lo + k];
    }
  }

  lemma InsideAt(s: string, lo: nat, semi: nat, cut: nat, hi: nat)
    requires lo <= semi < cut <= hi <= |s| && s[semi] == ';'
    ensures s[lo..hi] == s[lo..semi] + ";" + (s[semi + 1..cut] + s[cut..hi])
  {
    assert s[semi..semi + 1] == ";";
    Glue(s, lo, semi, semi + 1);
    Glue(s, semi + 1, cut, hi);
    Glue(s, lo, semi + 1, hi);
  }

  lemma AroundInside(s: string, m1: nat, m2: nat)
    requires MarkerAt(s, m1) && m1 + 3 <= m2 && MarkerAt(s, m2) && m2 + 3 < |s| && s[m2 + 3] == ';'
    ensures s == s[..m1] + "]8;" + s[m1 + 3..m2] + ("]8;;" + s[m2 + 4..])
  {
    assert s[m1..m1 + 3] == "]8;" && s[m2..m2 + 4] == "]8;;";
    Glue(s, 0, m1, m1 + 3);
    Glue(s, 0, m1 + 3, m2);
    Glue(s, m2, m2 + 4, |s|);
    Glue(s, 0, m2, |s|);
  }

  lemma SplitAt(s: string, m1: nat, semi: nat, cut: nat, m2: nat)
    requires MarkerAt(s, m1) && m1 + 3 <= semi < cut <= m2 && MarkerAt(s, m2)
    requires s[semi] == ';' && m2 + 3 < |s| && s[m2 + 3] == ';'
    ensures s == Spelt(Framed(s[..m1], s[m1 + 3..semi], s[semi + 1..cut], s[cut..m2], s[m2 + 4..]))
  {
    InsideAt(s, m1 + 3, semi, cut, m2);
    AroundInside(s, m1, m2);
  }

  lemma Glue(s: string, a: nat, b: nat, c: nat)
    requires a <= b <= c <= |s|
    ensures s[a..b] + s[b..c] == s[a..c]
  {
  }

  /** Main result. Whatever is recovered from a string with a marker comes from exactly one framed
      link: it is a non-blank, trimmed, contiguous part of what stands between the parameters and
      the closer, and nothing but a terminator and white space follows the closer. */
  lemma RecoveredFromOneLink(s: string) returns (f: Framed)
    requires Markers(s, 0) > 0 && Unwrap(s).Text?
    ensures Markers(s, 0) == 2 && IsFrameOf(f, s)
    ensures TakenFrom(Unwrap(s).text, f.region)
  {
    if OnlyRegion(s).None? {
      TwoMarkers(s);
      assert false;
    } else {
      OneRegion(s);
      f := FrameOfRegion(s);
      RegionIsTheSource(f.region, Unwrap(s).text);
    }
  }

  lemma OneRegion(s: string)
    requires OnlyRegion(s).Some?
    ensures Markers(s, 0) == 2 && NextMarker(s, 0) != -1
    ensures Unwrap(s) == FromRegion(OnlyRegion(s).value)
  {
    TwoMarkers(s);
  }
}
