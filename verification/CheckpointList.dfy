/** The byte guard of the checkpoint list: the newest rows that fit, in ascending order, measured
    on the real tool result (pretty-printed JSON inside a JSON string). */
module CheckpointList {
  import opened Prelude
  import opened JsonText

  const CAP: nat := 100_000

  function Ascii(s: string): (t: Text)
    ensures |t| == |s|
  {
    seq(|s|, i requires 0 <= i < |s| => s[i] as int)
  }

  function Decimal(n: nat): (t: Text)
    ensures |t| >= 1
  {
    if n < 10 then [0x30 + n] else Decimal(n / 10) + [0x30 + n % 10]
  }

  /** What a row of digits stands for. */
  function Number(t: Text): int {
    if t == [] then 0 else Number(t[..|t| - 1]) * 10 + (t[|t| - 1] as int - 0x30)
  }

  /** The number is printed in decimal digits, without a leading zero. */
  lemma {:induction false} DecimalReads(n: nat)
    ensures Number(Decimal(n)) == n
    ensures forall i :: 0 <= i < |Decimal(n)| ==> 0x30 <= Decimal(n)[i] <= 0x39
    ensures Decimal(n)[0] == 0x30 <==> n == 0
  {
    var t := Decimal(n);
    if n < 10 {
      assert t[..0] == [];
    } else {
      DecimalReads(n / 10);
      assert t[..|t| - 1] == Decimal(n / 10);
    }
  }

  // ---- The text of the result ----

  /** Rows printed two levels deep, one a line; an empty list stays on its line. */
  function Turns(rows: seq<Text>): Text {
    if rows == [] then Ascii("[]") else Ascii("[\n    ") + Joined(rows) + Ascii("\n  ]")
  }

  function Joined(rows: seq<Text>): Text {
    if rows == [] then []
    else if |rows| == 1 then rows[0]
    else rows[0] + Ascii(",\n    ") + Joined(rows[1..])
  }

  /** The payload as pretty-printed JSON. `head` is the line of the workspace id, or nothing. */
  function Payload(head: Text, rows: seq<Text>, truncated: bool, total: nat): Text {
    Ascii("{\n") + head + Ascii("  \"turns\": ") + Turns(rows)
    + Ascii(",\n  \"truncated\": ") + (if truncated then Ascii("true") else Ascii("false"))
    + Ascii(",\n  \"returnedCount\": ") + Decimal(|rows|)
    + Ascii(",\n  \"totalMatched\": ") + Decimal(total) + Ascii("\n}")
  }

  const ENVELOPE := "{\"content\":[{\"type\":\"text\",\"text\":\"\"}]}"

  /** Bytes of the tool result that carries the payload as its text. */
  function ResultSize(head: Text, rows: seq<Text>, truncated: bool, total: nat): nat {
    |ENVELOPE| + JsonSize(Payload(head, rows, truncated, total))
  }

  /** The projected size: always measured with the flag set. */
  function Measured(head: Text, rows: seq<Text>, total: nat): nat {
    ResultSize(head, rows, true, total)
  }

  // ---- Sizes are additive ----

  function RowSizes(rows: seq<Text>): seq<nat> {
    seq(|rows|, i requires 0 <= i < |rows| => JsonSize(rows[i]))
  }

  /** JSON size of the list: brackets, line breaks and commas, and the rows themselves. */
  function TurnsSize(rows: seq<Text>): nat {
    if rows == [] then 2 else 12 + Sum(RowSizes(rows)) + 7 * (|rows| - 1)
  }

  lemma PlainAscii(s: string)
    requires forall i :: 0 <= i < |s| ==> JsonLen(s[i] as int) == 1
    ensures JsonSize(Ascii(s)) == |s|
  {
    if s != "" {
      assert Ascii(s)[1..] == Ascii(s[1..]);
      PlainAscii(s[1..]);
    }
  }

  lemma {:induction false} JoinedSize(rows: seq<Text>)
    requires rows != []
    ensures JsonSize(Joined(rows)) == Sum(RowSizes(rows)) + 7 * (|rows| - 1)
  {
    assert RowSizes(rows)[1..] == RowSizes(rows[1..]);
    if |rows| > 1 {
      var comma := Ascii(",\n    ");
      assert comma == [0x2C, 0x0A, 0x20, 0x20, 0x20, 0x20];
      CommaSize();
      JsonSizeConcat(rows[0] + comma, Joined(rows[1..]));
      JsonSizeConcat(rows[0], comma);
      JoinedSize(rows[1..]);
    }
  }

  lemma CommaSize()
    ensures JsonSize(Ascii(",\n    ")) == 7
  {
    var t := Ascii(",\n    ");
    assert t == [0x2C, 0x0A] + Ascii("    ");
    JsonSizeConcat([0x2C, 0x0A], Ascii("    "));
    PlainAscii("    ");
    assert [0x2C, 0x0A][1..] == [0x0A] && [0x0A][1..] == [];
  }

  lemma OpenBracketSize()
    ensures JsonSize(Ascii("[\n    ")) == 7
  {
    assert Ascii("[\n    ") == [0x5B, 0x0A] + Ascii("    ");
    JsonSizeConcat([0x5B, 0x0A], Ascii("    "));
    PlainAscii("    ");
    assert [0x5B, 0x0A][1..] == [0x0A] && [0x0A][1..] == [];
  }

  lemma CloseBracketSize()
    ensures JsonSize(Ascii("\n  ]")) == 5
  {
    assert Ascii("\n  ]") == [0x0A] + Ascii("  ]");
    JsonSizeConcat([0x0A], Ascii("  ]"));
    PlainAscii("  ]");
    assert [0x0A][1..] == [];
  }

  lemma TurnsSizeIs(rows: seq<Text>)
    ensures JsonSize(Turns(rows)) == TurnsSize(rows)
  {
    PlainAscii("[]");
    if rows != [] {
      OpenBracketSize();
      CloseBracketSize();
      JoinedSize(rows);
      JsonSizeConcat(Ascii("[\n    "), Joined(rows));
      JsonSizeConcat(Ascii("[\n    ") + Joined(rows), Ascii("\n  ]"));
    }
  }

  /** Everything but the list, the flag and the row count. */
  function FrameSize(head: Text, total: nat): nat {
    |ENVELOPE| + JsonSize(Ascii("{\n")) + JsonSize(head) + JsonSize(Ascii("  \"turns\": "))
    + JsonSize(Ascii(",\n  \"truncated\": ")) + JsonSize(Ascii(",\n  \"returnedCount\": "))
    + JsonSize(Ascii(",\n  \"totalMatched\": ")) + JsonSize(Decimal(total)) + JsonSize(Ascii("\n}"))
  }

  /** The measured size in closed form; the flag adds four bytes when set and five when not. */
  lemma ResultSizeIs(head: Text, rows: seq<Text>, truncated: bool, total: nat)
    ensures ResultSize(head, rows, truncated, total)
         == FrameSize(head, total) + TurnsSize(rows) + |Decimal(|rows|)| + (if truncated then 4 else 5)
  {
    var flag := if truncated then Ascii("true") else Ascii("false");
    PlainAscii("true");
    PlainAscii("false");
    TurnsSizeIs(rows);
    DigitsArePlain(|rows|);
    var t0 := Ascii("{\n") + head;
    var t1 := t0 + Ascii("  \"turns\": ");
    var t2 := t1 + Turns(rows);
    var t3 := t2 + Ascii(",\n  \"truncated\": ");
    var t4 := t3 + flag;
    var t5 := t4 + Ascii(",\n  \"returnedCount\": ");
    var t6 := t5 + Decimal(|rows|);
    var t7 := t6 + Ascii(",\n  \"totalMatched\": ");
    var t8 := t7 + Decimal(total);
    JsonSizeConcat(Ascii("{\n"), head);
    JsonSizeConcat(t0, Ascii("  \"turns\": "));
    JsonSizeConcat(t1, Turns(rows));
    JsonSizeConcat(t2, Ascii(",\n  \"truncated\": "));
    JsonSizeConcat(t3, flag);
    JsonSizeConcat(t4, Ascii(",\n  \"returnedCount\": "));
    JsonSizeConcat(t5, Decimal(|rows|));
    JsonSizeConcat(t6, Ascii(",\n  \"totalMatched\": "));
    JsonSizeConcat(t7, Decimal(total));
    JsonSizeConcat(t8, Ascii("\n}"));
    assert Payload(head, rows, truncated, total) == t8 + Ascii("\n}");
  }

  lemma {:induction false} DigitsArePlain(n: nat)
    ensures JsonSize(Decimal(n)) == |Decimal(n)|
  {
    if n < 10 {
      assert Decimal(n)[1..] == [];
    } else {
      DigitsArePlain(n / 10);
      JsonSizeConcat(Decimal(n / 10), [0x30 + n % 10]);
      assert [0x30 + n % 10][1..] == [];
    }
  }

  lemma {:induction false} MoreDigits(m: nat, n: nat)
    requires m <= n
    ensures |Decimal(m)| <= |Decimal(n)|
  {
    if m >= 10 { MoreDigits(m / 10, n / 10); }
  }

  // ---- Adding a row ----

  lemma TurnsGrow(rows: seq<Text>, row: Text)
    ensures TurnsSize([row] + rows) > TurnsSize(rows)
  {
    assert RowSizes([row] + rows) == [JsonSize(row)] + RowSizes(rows);
    SumConcat([JsonSize(row)], RowSizes(rows));
  }

  /** Each row put in front makes the result strictly larger. */
  lemma RowAdds(head: Text, rows: seq<Text>, row: Text, total: nat)
    ensures Measured(head, [row] + rows, total) > Measured(head, rows, total)
  {
    ResultSizeIs(head, rows, true, total);
    ResultSizeIs(head, [row] + rows, true, total);
    TurnsGrow(rows, row);
    MoreDigits(|rows|, |rows| + 1);
  }

  /** The size does not depend on the order of the rows. */
  lemma {:induction false} ReversedSize(rows: seq<Text>)
    ensures Sum(RowSizes(Reversed(rows))) == Sum(RowSizes(rows))
  {
    if rows != [] {
      ReversedSize(rows[1..]);
      assert RowSizes(rows) == [JsonSize(rows[0])] + RowSizes(rows[1..]);
      assert Reversed(rows) == Reversed(rows[1..]) + [rows[0]];
      assert RowSizes(Reversed(rows)) == RowSizes(Reversed(rows[1..])) + [JsonSize(rows[0])];
      SumConcat(RowSizes(Reversed(rows[1..])), [JsonSize(rows[0])]);
    }
  }

  function Reversed<T>(s: seq<T>): (r: seq<T>)
    ensures |r| == |s|
    ensures forall i :: 0 <= i < |s| ==> r[i] == s[|s| - 1 - i]
  {
    seq(|s|, i requires 0 <= i < |s| => s[|s| - 1 - i])
  }

  lemma MeasuredReversed(head: Text, rows: seq<Text>, total: nat)
    ensures Measured(head, Reversed(rows), total) == Measured(head, rows, total)
  {
    ResultSizeIs(head, rows, true, total);
    ResultSizeIs(head, Reversed(rows), true, total);
    ReversedSize(rows);
  }

  // ---- The result ----

  datatype ListResult = ListResult(turns: seq<Text>, truncated: bool, returnedCount: nat, totalMatched: nat)

  /** The newest `k` rows. */
  function Newest(rows: seq<Text>, k: nat): seq<Text>
    requires k <= |rows|
  {
    rows[|rows| - k..]
  }

  /** No longer suffix fits once the next one does not. */
  lemma {:induction false} LongerIsLarger(head: Text, rows: seq<Text>, j: nat, k: nat)
    requires j <= k <= |rows|
    ensures Measured(head, Newest(rows, j), |rows|) + (k - j) <= Measured(head, Newest(rows, k), |rows|)
    decreases k - j
  {
    if j < k {
      LongerIsLarger(head, rows, j, k - 1);
      OneRowMore(head, rows, k);
    }
  }

  lemma OneRowMore(head: Text, rows: seq<Text>, k: nat)
    requires 0 < k <= |rows|
    ensures Measured(head, Newest(rows, k - 1), |rows|) < Measured(head, Newest(rows, k), |rows|)
  {
    assert Newest(rows, k) == [rows[|rows| - k]] + Newest(rows, k - 1);
    RowAdds(head, Newest(rows, k - 1), rows[|rows| - k], |rows|);
  }

  /** The longest newest suffix whose measured size fits; nothing when no single row does. */
  ghost predicate LongestNewest(head: Text, rows: seq<Text>, n: nat) {
    && n <= |rows|
    && (n > 0 ==> Measured(head, Newest(rows, n), |rows|) <= CAP)
    && forall k :: n < k <= |rows| ==> Measured(head, Newest(rows, k), |rows|) > CAP
  }

  /** Collects rows newest first until one more would not fit. */
  method SelectNewest(head: Text, allTurns: seq<Text>) returns (selected: seq<Text>)
    ensures LongestNewest(head, allTurns, |selected|)
    ensures selected == Reversed(Newest(allTurns, |selected|))
  {
    var newestFirst := Reversed(allTurns);
    selected := [];
    while |selected| < |newestFirst|
      invariant |selected| <= |allTurns| && selected == Reversed(Newest(allTurns, |selected|))
      invariant |selected| > 0 ==> Measured(head, Newest(allTurns, |selected|), |allTurns|) <= CAP
      decreases |newestFirst| - |selected|
    {
      var row := newestFirst[|selected|];
      OneMore(allTurns, selected);
      MeasuredReversed(head, Newest(allTurns, |selected| + 1), |allTurns|);
      if Measured(head, selected + [row], |allTurns|) > CAP {
        LongerDoNotFit(head, allTurns, |selected| + 1);
        break;
      }
      selected := selected + [row];
    }
  }

  lemma OneMore(rows: seq<Text>, selected: seq<Text>)
    requires |selected| < |rows| && selected == Reversed(Newest(rows, |selected|))
    ensures selected + [Reversed(rows)[|selected|]] == Reversed(Newest(rows, |selected| + 1))
  {
  }

  lemma LongerDoNotFit(head: Text, rows: seq<Text>, n: nat)
    requires n <= |rows| && Measured(head, Newest(rows, n), |rows|) > CAP
    ensures forall k :: n <= k <= |rows| ==> Measured(head, Newest(rows, k), |rows|) > CAP
  {
    forall k | n <= k <= |rows| ensures Measured(head, Newest(rows, k), |rows|) > CAP {
      LongerIsLarger(head, rows, n, k);
    }
  }

  /** Keeps the longest newest suffix that fits, in ascending order. The real result exceeds the
      cap exactly when all rows together measure the cap to the byte, or when the empty result
      is already over; in the first case it is one byte over. */
  method BuildListCheckpointsResult(head: Text, allTurns: seq<Text>) returns (r: ListResult)
    ensures r.totalMatched == |allTurns| && r.returnedCount == |r.turns|
    ensures LongestNewest(head, allTurns, |r.turns|) && r.turns == Newest(allTurns, |r.turns|)
    ensures r.truncated <==> |r.turns| < |allTurns|
    ensures var size := ResultSize(head, r.turns, r.truncated, r.totalMatched);
            && (size > 100_000 <==>
                  Measured(head, [], |allTurns|) > 100_000 || Measured(head, allTurns, |allTurns|) == 100_000)
            && (Measured(head, [], |allTurns|) <= 100_000 ==> size <= if r.truncated then 100_000 else 100_001)
  {
    var selected := SelectNewest(head, allTurns);
    var turns := Reversed(selected);
    r := ListResult(turns, |selected| < |allTurns|, |turns|, |allTurns|);
    assert turns == Newest(allTurns, |selected|);
    RealSize(head, allTurns, |selected|);
  }

  lemma RealSize(head: Text, rows: seq<Text>, n: nat)
    requires LongestNewest(head, rows, n)
    ensures var size := ResultSize(head, Newest(rows, n), n < |rows|, |rows|);
            && (size > CAP <==> Measured(head, [], |rows|) > CAP || Measured(head, rows, |rows|) == CAP)
            && (Measured(head, [], |rows|) <= CAP ==> size <= if n < |rows| then CAP else CAP + 1)
  {
    assert Newest(rows, 0) == [] && Newest(rows, |rows|) == rows;
    UnabridgedIsOneByteLarger(head, rows, |rows|);
    LongerIsLarger(head, rows, 0, n);
    LongerIsLarger(head, rows, n, |rows|);
  }

  /** The comment beside the projection calls `true` the longer boolean and its byte a reserve. It
      is the shorter one: an unabridged result is one byte larger than it was measured. */
  lemma UnabridgedIsOneByteLarger(head: Text, rows: seq<Text>, total: nat)
    ensures ResultSize(head, rows, false, total) == Measured(head, rows, total) + 1
  {
    ResultSizeIs(head, rows, true, total);
    ResultSizeIs(head, rows, false, total);
  }

  // ---- The byte too many occurs ----

  predicate HasRoom(head: Text) {
    FrameSize(head, 1) + 17 <= CAP
  }

  /** A row of any size there is, made of plain characters. */
  lemma {:induction false} RowOfSize(n: nat) returns (row: Text)
    ensures JsonSize(row) == n
  {
    if n == 0 {
      row := [];
    } else {
      var rest := RowOfSize(n - 1);
      row := [0x61] + rest;
      assert row[1..] == rest;
    }
  }

  lemma OneRowTurns(row: Text)
    ensures TurnsSize([row]) == 12 + JsonSize(row)
  {
    var one: seq<nat> := [JsonSize(row)];
    assert RowSizes([row]) == one;
    assert one[1..] == [] && Sum(one) == one[0] + Sum(one[1..]);
  }

  lemma OneRowSize(head: Text, row: Text, truncated: bool)
    ensures ResultSize(head, [row], truncated, 1) == FrameSize(head, 1) + 17 + JsonSize(row) + if truncated then 0 else 1
  {
    var rows := [row];
    OneRowTurns(row);
    ResultSizeIs(head, rows, truncated, 1);
  }

  lemma WholeListIsLongest(head: Text, rows: seq<Text>)
    requires rows != [] && Measured(head, rows, |rows|) <= CAP
    ensures Newest(rows, |rows|) == rows && LongestNewest(head, rows, |rows|)
  {
    assert Newest(rows, |rows|) == rows;
  }

  /** A list of this one row measures the cap to the byte, so it is kept in full, and the real result
      is one byte over. */
  ghost predicate Overflows(head: Text, row: Text) {
    && Measured(head, [row], 1) == CAP
    && LongestNewest(head, [row], 1)
    && ResultSize(head, [row], false, 1) == CAP + 1
  }

  lemma FilledToTheBrim(head: Text, row: Text)
    ensures FrameSize(head, 1) + 17 + JsonSize(row) == CAP ==> Overflows(head, row)
  {
    OneRowSize(head, row, true);
    OneRowSize(head, row, false);
    if Measured(head, [row], 1) == CAP {
      WholeListIsLongest(head, [row]);
    }
  }

  /** For every head that leaves room there is such a row. */
  lemma CapIsExceeded(head: Text) returns (row: Text)
    ensures HasRoom(head) ==> Overflows(head, row)
  {
    row := RowOfSize(if HasRoom(head) then CAP - FrameSize(head, 1) - 17 else 0);
    FilledToTheBrim(head, row);
  }

  lemma {:induction false} AtMostSixEach(t: Text)
    ensures JsonSize(t) <= 6 * |t|
  {
    if t != [] {
      AtMostSixEach(t[1..]);
    }
  }

  /** Any head up to ten thousand characters leaves room. */
  lemma ShortHeadsHaveRoom(head: Text)
    requires |head| <= 10_000
    ensures HasRoom(head)
  {
    AtMostSixEach(Ascii("{\n"));
    AtMostSixEach(head);
    AtMostSixEach(Ascii("  \"turns\": "));
    AtMostSixEach(Ascii(",\n  \"truncated\": "));
    AtMostSixEach(Ascii(",\n  \"returnedCount\": "));
    AtMostSixEach(Ascii(",\n  \"totalMatched\": "));
    AtMostSixEach(Decimal(1));
    AtMostSixEach(Ascii("\n}"));
  }
}
