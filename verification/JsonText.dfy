/** Byte sizes of JSON text and the UTF-16 strings it is cut from.

    A string is a sequence of UTF-16 code units. Iterating it yields code points, where a
    surrogate without its partner is a code point of its own. */
module JsonText {

  type Unit = u: int | 0 <= u < 0x1_0000
  type CodePoint = c: int | 0 <= c <= 0x10_FFFF
  type Text = seq<CodePoint>

  predicate High(u: int) { 0xD800 <= u <= 0xDBFF }

  predicate Low(u: int) { 0xDC00 <= u <= 0xDFFF }

  predicate Surrogate(c: int) { 0xD800 <= c <= 0xDFFF }

  /** Length of the UTF-8 encoding (section 3 of RFC 3629); a lone surrogate is written as U+FFFD. */
  function Utf8Len(c: CodePoint): (n: nat)
    ensures 1 <= n <= 4
  {
    if c < 0x80 then 1 else if c < 0x800 then 2 else if c < 0x1_0000 then 3 else 4
  }

  /** Bytes of one code point inside a JSON string literal (section 7 of RFC 8259): two-character
      escapes, \uXXXX for other controls and for lone surrogates, itself otherwise. */
  function JsonLen(c: CodePoint): (n: nat)
    ensures Utf8Len(c) <= n <= 6
  {
    if c == 0x22 || c == 0x5C || c in {0x08, 0x09, 0x0A, 0x0C, 0x0D} then 2
    else if c < 0x20 || Surrogate(c) then 6
    else Utf8Len(c)
  }

  function Utf8Size(s: Text): nat {
    if s == [] then 0 else Utf8Len(s[0]) + Utf8Size(s[1..])
  }

  function JsonSize(s: Text): nat {
    if s == [] then 0 else JsonLen(s[0]) + JsonSize(s[1..])
  }

  lemma {:induction false} Utf8SizeConcat(a: Text, b: Text)
    ensures Utf8Size(a + b) == Utf8Size(a) + Utf8Size(b)
  {
    if a == [] {
      assert a + b == b;
    } else {
      assert (a + b)[1..] == a[1..] + b;
      Utf8SizeConcat(a[1..], b);
    }
  }

  lemma {:induction false} JsonSizeConcat(a: Text, b: Text)
    ensures JsonSize(a + b) == JsonSize(a) + JsonSize(b)
  {
    if a == [] {
      assert a + b == b;
    } else {
      assert (a + b)[1..] == a[1..] + b;
      JsonSizeConcat(a[1..], b);
    }
  }

  /** Taking one more code point costs exactly its own length. */
  lemma SizesOfNext(w: Text, n: nat)
    requires n < |w|
    ensures Utf8Size(w[..n + 1]) == Utf8Size(w[..n]) + Utf8Len(w[n])
    ensures JsonSize(w[..n + 1]) == JsonSize(w[..n]) + JsonLen(w[n])
  {
    assert w[..n + 1] == w[..n] + [w[n]];
    Utf8SizeConcat(w[..n], [w[n]]);
    JsonSizeConcat(w[..n], [w[n]]);
    assert [w[n]][1..] == [];
  }

  // ---- The encodings these are the sizes of ----

  /** The encoding of a code point, lead byte first (section 3 of RFC 3629); a lone surrogate has none
      and is replaced. */
  function Utf8(c: CodePoint): (bytes: seq<int>)
    ensures bytes != []
  {
    var high := c / 0x40;
    if Surrogate(c) then [0xEF, 0xBF, 0xBD]
    else if c <= 0x7F then [c]
    else if c <= 0x7FF then [0xC0 + high, 0x80 + c % 0x40]
    else if c <= 0xFFFF then [0xE0 + high / 0x40, 0x80 + high % 0x40, 0x80 + c % 0x40]
    else [0xF0 + high / 0x40 / 0x40, 0x80 + high / 0x40 % 0x40, 0x80 + high % 0x40, 0x80 + c % 0x40]
  }

  /** What such bytes stand for: the lead byte tells how many follow, six bits each. */
  function Utf8Value(b: seq<int>): int
    requires b != []
  {
    if b[0] < 0x80 then b[0]
    else if b[0] < 0xE0 && |b| == 2 then SixMore(b[0] - 0xC0, b[1])
    else if b[0] < 0xF0 && |b| == 3 then SixMore(SixMore(b[0] - 0xE0, b[1]), b[2])
    else if |b| == 4 then SixMore(SixMore(SixMore(b[0] - 0xF0, b[1]), b[2]), b[3])
    else -1
  }

  function SixMore(high: int, b: int): int { high * 0x40 + (b - 0x80) }

  lemma SixBits(n: nat)
    ensures SixMore(n / 0x40, 0x80 + n % 0x40) == n
  {
  }

  /** The encoding reads back, as the replacement character for a lone surrogate, and its length is the one
      that is counted. */
  lemma Utf8Exactly(c: CodePoint)
    ensures |Utf8(c)| == Utf8Len(c)
    ensures Utf8Value(Utf8(c)) == if High(c) || Low(c) then 0xFFFD else c
  {
    SixBits(c);
    SixBits(c / 0x40);
    SixBits(c / 0x40 / 0x40);
  }

  function HexDigit(n: nat): CodePoint
    requires n < 16
  {
    if n < 10 then 0x30 + n else 0x61 + n - 10
  }

  function HexValue(d: CodePoint): int {
    if 0x30 <= d <= 0x39 then d - 0x30 else d - 0x61 + 10
  }

  /** Four hexadecimal digits. */
  function Hex(c: nat): Text
    requires c < 0x1_0000
  {
    var high := c / 16;
    [HexDigit(high / 16 / 16), HexDigit(high / 16 % 16), HexDigit(high % 16), HexDigit(c % 16)]
  }

  /** How a code point is written inside a JSON string literal (QuoteJSONString in ECMA-262, section
      25.5.2.3): a two-character escape, \uXXXX, or itself. */
  function Escaped(c: CodePoint): Text {
    if c == 0x22 then [0x5C, 0x22]
    else if c == 0x5C then [0x5C, 0x5C]
    else if c == 0x08 then [0x5C, 0x62]
    else if c == 0x09 then [0x5C, 0x74]
    else if c == 0x0A then [0x5C, 0x6E]
    else if c == 0x0C then [0x5C, 0x66]
    else if c == 0x0D then [0x5C, 0x72]
    else if c <= 0x1F || 0xD800 <= c <= 0xDFFF then [0x5C, 0x75] + Hex(c)
    else [c]
  }

  /** What such a spelling stands for (section 7 of RFC 8259). */
  function Unescaped(t: Text): int
    requires t != []
  {
    if t[0] != 0x5C || |t| == 1 then t[0]
    else if t[1] == 0x75 && |t| == 6 then FourMore(FourMore(FourMore(HexValue(t[2]), t[3]), t[4]), t[5])
    else if t[1] == 0x62 then 0x08
    else if t[1] == 0x74 then 0x09
    else if t[1] == 0x6E then 0x0A
    else if t[1] == 0x66 then 0x0C
    else if t[1] == 0x72 then 0x0D
    else t[1]
  }

  function FourMore(high: int, d: CodePoint): int { high * 16 + HexValue(d) }

  lemma FourBits(n: nat)
    ensures FourMore(n / 16, HexDigit(n % 16)) == n
  {
  }

  lemma HexReads(c: nat)
    requires c < 0x1_0000
    ensures var h := Hex(c); FourMore(FourMore(FourMore(HexValue(h[0]), h[1]), h[2]), h[3]) == c
    ensures forall i :: 0 <= i < 4 ==> Utf8Len(Hex(c)[i]) == 1
  {
    FourBits(c);
    FourBits(c / 16);
    FourBits(c / 16 / 16);
  }

  lemma SizeOfOne(c: CodePoint)
    ensures Utf8Size([c]) == Utf8Len(c)
  {
    assert [c][1..] == [];
  }

  lemma SizeOfTwo(a: CodePoint, b: CodePoint)
    ensures Utf8Size([a, b]) == Utf8Len(a) + Utf8Len(b)
  {
    Utf8SizeConcat([a], [b]);
    SizeOfOne(a);
    SizeOfOne(b);
    assert [a, b] == [a] + [b];
  }

  lemma {:induction false} SizeOfAscii(t: Text)
    requires forall i :: 0 <= i < |t| ==> Utf8Len(t[i]) == 1
    ensures Utf8Size(t) == |t|
  {
    if t != [] {
      SizeOfAscii(t[1..]);
    }
  }

  lemma HexEscapeExactly(c: CodePoint)
    requires c < 0x1_0000
    ensures Unescaped([0x5C, 0x75] + Hex(c)) == c && Utf8Size([0x5C, 0x75] + Hex(c)) == 6
  {
    HexReads(c);
    var t := [0x5C, 0x75] + Hex(c);
    assert t[2] == Hex(c)[0] && t[3] == Hex(c)[1] && t[4] == Hex(c)[2] && t[5] == Hex(c)[3];
    SizeOfAscii(t);
  }

  /** The spelling reads back, and its size is the one that is counted. */
  lemma EscapedExactly(c: CodePoint)
    ensures Escaped(c) != [] && Unescaped(Escaped(c)) == c
    ensures Utf8Size(Escaped(c)) == JsonLen(c)
  {
    var t := Escaped(c);
    if |t| == 2 {
      SizeOfTwo(t[0], t[1]);
    } else if |t| == 1 {
      SizeOfOne(c);
    } else {
      HexEscapeExactly(c);
    }
  }

  /** The inside of the string literal. */
  function Literal(s: Text): Text {
    if s == [] then [] else Escaped(s[0]) + Literal(s[1..])
  }

  lemma {:induction false} LiteralSize(s: Text)
    ensures Utf8Size(Literal(s)) == JsonSize(s)
  {
    if s != [] {
      EscapedExactly(s[0]);
      LiteralSize(s[1..]);
      Utf8SizeConcat(Escaped(s[0]), Literal(s[1..]));
    }
  }

  function Pair(h: Unit, l: Unit): CodePoint
    requires High(h) && Low(l)
  {
    0x1_0000 + (h - 0xD800) * 0x400 + (l - 0xDC00)
  }

  /** String iteration: a high surrogate and the low one after it make one code point. */
  function CodePoints(s: seq<Unit>): Text {
    if s == [] then []
    else if |s| >= 2 && High(s[0]) && Low(s[1]) then [Pair(s[0], s[1])] + CodePoints(s[2..])
    else [s[0]] + CodePoints(s[1..])
  }

  /** The code units of a text, the reverse of iteration. */
  function Units(t: Text): seq<Unit> {
    if t == [] then []
    else if t[0] < 0x1_0000 then [t[0]] + Units(t[1..])
    else [0xD800 + (t[0] - 0x1_0000) / 0x400, 0xDC00 + (t[0] - 0x1_0000) % 0x400] + Units(t[1..])
  }

  /** Iterating a string loses nothing: its code points spell the same code units. */
  lemma {:induction false} UnitsOfCodePoints(s: seq<Unit>)
    ensures Units(CodePoints(s)) == s
  {
    if s != [] {
      if |s| >= 2 && High(s[0]) && Low(s[1]) {
        UnitsOfCodePoints(s[2..]);
        var p := Pair(s[0], s[1]);
        assert CodePoints(s)[1..] == CodePoints(s[2..]);
        assert (p - 0x1_0000) / 0x400 == s[0] - 0xD800;
        assert (p - 0x1_0000) % 0x400 == s[1] - 0xDC00;
        assert s == [s[0], s[1]] + s[2..];
      } else {
        UnitsOfCodePoints(s[1..]);
        assert CodePoints(s)[1..] == CodePoints(s[1..]);
        assert s == [s[0]] + s[1..];
      }
    }
  }

  /** A cut at `i` separates the two halves of a surrogate pair. */
  predicate SplitsPair(s: seq<Unit>, i: int) {
    0 < i < |s| && High(s[i - 1]) && Low(s[i])
  }

  /** Every surrogate has its partner next to it. */
  predicate WellFormed(s: seq<Unit>) {
    && (forall i :: 0 <= i < |s| && High(s[i]) ==> i + 1 < |s| && Low(s[i + 1]))
    && (forall i :: 0 <= i < |s| && Low(s[i]) ==> 0 < i && High(s[i - 1]))
  }

  /** A cut that splits no pair cuts the code points too: nothing is merged or broken across it. */
  lemma {:induction false} CodePointsSplit(s: seq<Unit>, i: nat)
    requires i <= |s| && !SplitsPair(s, i)
    ensures CodePoints(s) == CodePoints(s[..i]) + CodePoints(s[i..])
  {
    if i == 0 {
      assert s[..0] == [] && s[0..] == s;
    } else if i == |s| {
      assert s[..i] == s && s[i..] == [];
    } else {
      var w := if High(s[0]) && Low(s[1]) then 2 else 1;
      assert w <= i;
      assert !SplitsPair(s[w..], i - w);
      CodePointsSplit(s[w..], i - w);
      var first, middle := CodePoints(s)[..1], s[w..][..i - w];
      assert s[w..][i - w..] == s[i..];
      FirstCodePoint(s, i, w);
      Regroup(CodePoints(s), CodePoints(s[..i]), first, CodePoints(middle), CodePoints(s[i..]), CodePoints(s[w..]));
    }
  }

  lemma Regroup(all: Text, front: Text, first: Text, middle: Text, rest: Text, tail: Text)
    requires all == first + tail && tail == middle + rest && front == first + middle
    ensures all == front + rest
  {
  }

  /** A prefix that holds the first code point starts with it. */
  lemma FirstCodePoint(s: seq<Unit>, i: nat, w: nat)
    requires 0 < w <= i < |s| && w == if High(s[0]) && Low(s[1]) then 2 else 1
    ensures CodePoints(s) == CodePoints(s)[..1] + CodePoints(s[w..])
    ensures CodePoints(s[..i]) == CodePoints(s)[..1] + CodePoints(s[w..][..i - w])
  {
    var front := s[..i];
    assert front[w..] == s[w..][..i - w];
    assert front[0] == s[0] && (|front| >= 2 ==> front[1] == s[1]);
    assert !(High(s[0]) && Low(s[1])) ==> CodePoints(front) == [s[0]] + CodePoints(front[1..]);
  }

  /** Well-formed text iterates to scalar values only: no lone surrogate is left to escape. */
  lemma {:induction false} WellFormedHasNoLoneSurrogate(s: seq<Unit>)
    requires WellFormed(s)
    ensures forall c :: c in CodePoints(s) ==> !Surrogate(c)
  {
    if s != [] {
      if High(s[0]) {
        var rest := s[2..];
        forall i | 0 <= i < |rest| && High(rest[i]) ensures i + 1 < |rest| && Low(rest[i + 1]) {
          assert s[i + 2] == rest[i];
        }
        forall i | 0 <= i < |rest| && Low(rest[i]) ensures 0 < i && High(rest[i - 1]) {
          assert s[i + 2] == rest[i] && High(s[i + 1]);
        }
        WellFormedHasNoLoneSurrogate(rest);
      } else {
        var rest := s[1..];
        forall i | 0 <= i < |rest| && High(rest[i]) ensures i + 1 < |rest| && Low(rest[i + 1]) {
          assert s[i + 1] == rest[i];
        }
        forall i | 0 <= i < |rest| && Low(rest[i]) ensures 0 < i && High(rest[i - 1]) {
          assert s[i + 1] == rest[i] && High(s[i]);
        }
        WellFormedHasNoLoneSurrogate(rest);
      }
    }
  }
}
