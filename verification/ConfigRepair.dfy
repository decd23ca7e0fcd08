/** The repair planner for a corrupted JSON config: truncate, graft a backup tail, restore, or give
    up. What parses and how a document is written back are the engine's; only one law is used:
    what the engine writes back parses again, to the same text. */
module ConfigRepair {
  import opened Prelude
  import opened Strings

  datatype Json = Json(parses: string -> bool, canon: string -> string)

  ghost predicate Lawful(j: Json) {
    forall s :: j.parses(s) ==> j.parses(j.canon(s)) && j.canon(j.canon(s)) == j.canon(s)
  }

  const MAX_BRACES: nat := 200
  const MAX_GRAFTS: nat := 50

  /** A repair says where its text came from, as the log line does. */
  datatype Repair =
    | Valid
    | Truncated(content: string, kept: nat)
    | Grafted(content: string, start: nat, backup: string, tail: nat)
    | Restored(content: string)
    | Unrepairable

  // ---- Truncation ----

  /** The largest index below `n` that holds a closing brace. */
  function LastBrace(s: string, n: nat): (r: Option<nat>)
    requires n <= |s|
    ensures r.Some? ==> r.value < n && s[r.value] == '}' && forall i :: r.value < i < n ==> s[i] != '}'
    ensures r.None? ==> forall i :: 0 <= i < n ==> s[i] != '}'
  {
    if n == 0 then None else if s[n - 1] == '}' then Some(n - 1) else LastBrace(s, n - 1)
  }

  /** How many closing braces stand at index `i` or later. */
  function BracesFrom(s: string, i: nat): nat
    requires i <= |s|
    decreases |s| - i
  {
    if i == |s| then 0 else (if s[i] == '}' then 1 else 0) + BracesFrom(s, i + 1)
  }

  /** One of the last 200 closing braces. */
  predicate LateBrace(s: string, i: int) {
    0 <= i < |s| && s[i] == '}' && BracesFrom(s, i) <= 200
  }

  /** The first `n` characters, trimmed, are a document. */
  predicate PrefixParses(j: Json, s: string, n: nat) {
    j.parses(Trim(Take(s, n)))
  }

  /** The test of the backward scan: does the prefix that ends with index `i` parse? */
  function ParsesUpTo(j: Json, s: string): int -> bool {
    i => 0 <= i < |s| && PrefixParses(j, s, i + 1)
  }

  /** What it asks: whether the text up to and with that character, without white space around it, is a
      document. */
  lemma ParsesUpToExactly(j: Json, s: string, i: nat)
    requires i < |s|
    ensures ParsesUpTo(j, s)(i) <==> j.parses(Trim(s[..i + 1]))
  {
    assert Take(s, i + 1) == s[..i + 1];
  }

  /** The longest prefix that passes the test and ends with one of the last 200 closing braces. */
  ghost predicate LongestLatePrefix(ok: int -> bool, s: string, n: nat) {
    && n > 0 && LateBrace(s, n - 1) && ok(n - 1)
    && forall i :: n <= i < |s| && s[i] == '}' ==> !ok(i)
  }

  ghost predicate NoLatePrefix(ok: int -> bool, s: string) {
    forall i :: LateBrace(s, i) ==> !ok(i)
  }

  lemma {:induction false} SkipToBrace(s: string, i: nat, k: nat)
    requires k <= i <= |s| && forall x :: k <= x < i ==> s[x] != '}'
    ensures BracesFrom(s, k) == BracesFrom(s, i)
    decreases i - k
  {
    if k < i { SkipToBrace(s, i, k + 1); }
  }

  lemma {:induction false} MoreBracesBefore(s: string, k: nat, i: nat)
    requires k <= i <= |s|
    ensures BracesFrom(s, i) <= BracesFrom(s, k)
    decreases i - k
  {
    if k < i { MoreBracesBefore(s, k + 1, i); }
  }

  /** The scan stands at `idx` after `n` failures: later braces fail the test, and `idx` is brace
      number n + 1 from the end, or the brace at 0 that was tried already. */
  ghost predicate Scanned(ok: int -> bool, s: string, idx: Option<nat>, n: nat) {
    match idx
    case None => forall i :: 0 <= i < |s| && s[i] == '}' ==> !ok(i)
    case Some(k) =>
      && k < |s| && s[k] == '}'
      && (forall i :: k < i < |s| && s[i] == '}' ==> !ok(i))
      && (BracesFrom(s, k) == n + 1 || (k == 0 && !ok(0)))
  }

  /** Searching again from before index 0 finds index 0 again, so a brace there is retried until
      the count runs out; that costs time and nothing else. */
  function BraceBefore(s: string, k: nat): Option<nat>
    requires k < |s|
  {
    LastBrace(s, Max(k - 1, 0) + 1)
  }

  lemma ScannedNext(ok: int -> bool, s: string, k: nat, n: nat)
    requires k < |s| && Scanned(ok, s, Some(k), n) && !ok(k)
    ensures Scanned(ok, s, BraceBefore(s, k), n + 1)
  {
    var before := BraceBefore(s, k);
    if before.Some? && before.value < k {
      SkipToBrace(s, k, before.value + 1);
    }
  }

  lemma ScannedEnough(ok: int -> bool, s: string, k: nat)
    requires Scanned(ok, s, Some(k), MAX_BRACES)
    ensures NoLatePrefix(ok, s)
  {
    forall i | LateBrace(s, i) ensures !ok(i) {
      if i <= k { MoreBracesBefore(s, i, k); }
    }
  }

  /** Scans backwards from the last brace. */
  method LastPassingBrace(ok: int -> bool, s: string) returns (at: Option<nat>)
    ensures at.Some? ==> LongestLatePrefix(ok, s, at.value + 1)
    ensures at.None? ==> NoLatePrefix(ok, s)
  {
    var idx: Option<nat> := LastBrace(s, |s|);
    if idx.Some? { SkipToBrace(s, |s|, idx.value + 1); }
    var n := 0;
    while n < MAX_BRACES && idx.Some?
      invariant n <= MAX_BRACES && Scanned(ok, s, idx, n)
      decreases MAX_BRACES - n
    {
      if ok(idx.value) { return idx; }
      ScannedNext(ok, s, idx.value, n);
      n, idx := n + 1, BraceBefore(s, idx.value);
    }
    if idx.Some? { ScannedEnough(ok, s, idx.value); }
    at := None;
  }

  /** The length of prefix to keep: up to the reported error position, or up to the last brace
      that leaves something that parses. */
  method PlanTruncation(j: Json, s: string, errPos: Option<nat>) returns (keep: Option<nat>)
    ensures keep.Some? ==> PrefixParses(j, s, keep.value)
    ensures errPos.Some? ==>
              keep == if Trim(Take(s, errPos.value)) != "" && PrefixParses(j, s, errPos.value) then errPos else None
    ensures errPos.None? && keep.Some? ==> LongestLatePrefix(ParsesUpTo(j, s), s, keep.value)
    ensures errPos.None? && keep.None? ==> NoLatePrefix(ParsesUpTo(j, s), s)
  {
    match errPos
    case Some(p) =>
      keep := if Trim(Take(s, p)) != "" && PrefixParses(j, s, p) then Some(p) else None;
    case None =>
      var at := LastPassingBrace(ParsesUpTo(j, s), s);
      keep := if at.Some? then Some(at.value + 1) else None;
  }

  // ---- Keys ----

  datatype Key = Key(start: nat, name: string, end: nat)

  function SkipSpaces(s: string, i: nat): (k: nat)
    requires i <= |s|
    ensures i <= k <= |s|
    decreases |s| - i
  {
    if i < |s| && IsSpace(s[i]) then SkipSpaces(s, i + 1) else i
  }

  function NameEnd(s: string, i: nat): (k: nat)
    requires i <= |s|
    ensures i <= k <= |s|
    decreases |s| - i
  {
    if i < |s| && s[i] != '"' && s[i] != '\\' then NameEnd(s, i + 1) else i
  }

  /** A quoted name without escapes, white space and a colon, starting exactly at `i`. */
  function KeyAt(s: string, i: nat): (k: Option<Key>)
    requires i <= |s|
    ensures k.Some? ==> k.value.start == i < k.value.end <= |s|
  {
    if i == |s| || s[i] != '"' then None
    else
      var q := NameEnd(s, i + 1);
      if q == i + 1 || q == |s| || s[q] != '"' then None
      else
        var c := SkipSpaces(s, q + 1);
        if c == |s| || s[c] != ':' then None else Some(Key(i, s[i + 1..q], c + 1))
  }

  function NextKey(s: string, from: nat): (k: Option<Key>)
    requires from <= |s|
    ensures k.Some? ==> from <= k.value.start < k.value.end <= |s| && KeyAt(s, k.value.start) == k
    decreases |s| - from
  {
    if KeyAt(s, from).Some? then KeyAt(s, from)
    else if from == |s| then None
    else NextKey(s, from + 1)
  }

  /** The keys found scanning left to right, each search starting where the last match ended,
      up to the first one past `bound`. */
  function KeysUpTo(s: string, from: nat, bound: nat): (keys: seq<Key>)
    requires from <= |s|
    ensures forall i :: 0 <= i < |keys| ==>
              keys[i].start <= bound && keys[i].start <= |s| && KeyAt(s, keys[i].start) == Some(keys[i])
    decreases |s| - from
  {
    var k := NextKey(s, from);
    if k.None? || k.value.start > bound then [] else [k.value] + KeysUpTo(s, k.value.end, bound)
  }

  /** The start of the last key of that name that the same kind of scan finds in a backup. */
  function TailOf(b: string, from: nat, name: string): (t: Option<nat>)
    requires from <= |b|
    ensures t.Some? ==> from <= t.value < |b| && NamedAt(b, t.value, name).Some?
    decreases |b| - from
  {
    match NamedAt(b, from, name)
    case Some(end) =>
      var later := TailOf(b, end, name);
      if later.Some? then later else Some(from)
    case None =>
      if from == |b| then None else TailOf(b, from + 1, name)
  }

  /** The quoted name, white space and a colon at `i`; the end of the match. */
  function NamedAt(b: string, i: nat, name: string): (end: Option<nat>)
    requires i <= |b|
    ensures end.Some? ==> i < end.value <= |b|
  {
    var q := i + 1 + |name|;
    if q < |b| && b[i] == '"' && b[i + 1..q] == name && b[q] == '"' then
      var c := SkipSpaces(b, q + 1);
      if c < |b| && b[c] == ':' then Some(c + 1) else None
    else None
  }

  // ---- What the scans find ----

  predicate Spaces(s: string, from: nat, end: nat)
    requires from <= end <= |s|
  {
    forall i :: from <= i < end ==> IsSpace(s[i])
  }

  /** The quoted name stands at `i`, with a colon behind it and only white space in between; `end` is
      behind the colon. */
  predicate Spells(s: string, i: nat, name: string, end: nat) {
    && i + |name| + 2 < end <= |s|
    && s[i] == '"' && s[i + 1..i + 1 + |name|] == name && s[i + 1 + |name|] == '"'
    && Spaces(s, i + |name| + 2, end - 1) && s[end - 1] == ':'
  }

  /** A name without quotes and escapes. */
  predicate Plain(name: string) {
    name != "" && '"' !in name && '\\' !in name
  }

  lemma {:induction false} SkipSpacesStops(s: string, i: nat)
    requires i <= |s|
    ensures Spaces(s, i, SkipSpaces(s, i))
    ensures SkipSpaces(s, i) < |s| ==> !IsSpace(s[SkipSpaces(s, i)])
    decreases |s| - i
  {
    if i < |s| && IsSpace(s[i]) {
      SkipSpacesStops(s, i + 1);
    }
  }

  lemma {:induction false} SkipSpacesTo(s: string, i: nat, c: nat)
    requires i <= c < |s| && Spaces(s, i, c) && !IsSpace(s[c])
    ensures SkipSpaces(s, i) == c
    decreases c - i
  {
    if i < c {
      SkipSpacesTo(s, i + 1, c);
    }
  }

  lemma {:induction false} NameEndStops(s: string, i: nat)
    requires i <= |s|
    ensures forall k :: i <= k < NameEnd(s, i) ==> s[k] != '"' && s[k] != '\\'
    decreases |s| - i
  {
    if i < |s| && s[i] != '"' && s[i] != '\\' {
      NameEndStops(s, i + 1);
    }
  }

  lemma {:induction false} NameEndAt(s: string, i: nat, q: nat)
    requires i <= q < |s| && s[q] == '"' && forall k :: i <= k < q ==> s[k] != '"' && s[k] != '\\'
    ensures NameEnd(s, i) == q
    decreases q - i
  {
    if i < q {
      NameEndAt(s, i + 1, q);
    }
  }

  /** A given name is found at a place exactly if it is spelt there. */
  lemma NamedAtExactly(s: string, i: nat, name: string, end: nat)
    requires i <= |s|
    ensures NamedAt(s, i, name) == Some(end) <==> Spells(s, i, name, end)
  {
    var q := i + 1 + |name|;
    if q < |s| {
      SkipSpacesStops(s, q + 1);
      if Spells(s, i, name, end) {
        SkipSpacesTo(s, q + 1, end - 1);
      }
    }
  }

  /** A key is found at a place exactly if a plain quoted name is spelt there. */
  lemma KeyAtExactly(s: string, i: nat, name: string, end: nat)
    requires i <= |s|
    ensures KeyAt(s, i) == Some(Key(i, name, end)) <==> Plain(name) && Spells(s, i, name, end)
  {
    if i < |s| && s[i] == '"' {
      NameEndStops(s, i + 1);
      var q := NameEnd(s, i + 1);
      if q < |s| {
        SkipSpacesStops(s, q + 1);
      }
      if Plain(name) && Spells(s, i, name, end) {
        SpeltNameEnds(s, i, name, end);
        SkipSpacesTo(s, i + |name| + 2, end - 1);
      } else if KeyAt(s, i) == Some(Key(i, name, end)) {
        FoundIsSpelt(s, i, name, end);
      }
    }
  }

  lemma SpeltNameEnds(s: string, i: nat, name: string, end: nat)
    requires Plain(name) && Spells(s, i, name, end)
    ensures NameEnd(s, i + 1) == i + 1 + |name|
  {
    forall k | i + 1 <= k < i + 1 + |name| ensures s[k] != '"' && s[k] != '\\' {
      assert s[k] == s[i + 1..i + 1 + |name|][k - i - 1];
    }
    NameEndAt(s, i + 1, i + 1 + |name|);
  }

  lemma FoundIsSpelt(s: string, i: nat, name: string, end: nat)
    requires i <= |s| && KeyAt(s, i) == Some(Key(i, name, end))
    ensures Plain(name) && Spells(s, i, name, end)
  {
    var q := NameEnd(s, i + 1);
    NameEndStops(s, i + 1);
    SkipSpacesStops(s, q + 1);
    assert name == s[i + 1..q];
    forall k | 0 <= k < |name| ensures name[k] != '"' && name[k] != '\\' {
      assert name[k] == s[i + 1 + k];
    }
  }

  /** The match that starts at `m` covers `p`. `hit` gives the end of the match at a place. */
  predicate Covers(hit: nat -> Option<nat>, m: nat, p: nat) {
    hit(m).Some? && m <= p < hit(m).value
  }

  ghost predicate InTurn(hit: nat -> Option<nat>, ms: seq<nat>) {
    && (forall i :: 0 <= i < |ms| ==> hit(ms[i]).Some?)
    && (forall i, k :: 0 <= i < k < |ms| ==> hit(ms[i]).value <= ms[k])
  }

  ghost predicate Covered(hit: nat -> Option<nat>, ms: seq<nat>, p: nat) {
    exists i :: 0 <= i < |ms| && Covers(hit, ms[i], p)
  }

  /** `ms` are all the matches a scan from `from` finds: each starts at or behind the end of the one
      before it, and every place that matches lies inside one of them. */
  ghost predicate IsScan(hit: nat -> Option<nat>, from: nat, stop: nat, ms: seq<nat>) {
    && InTurn(hit, ms)
    && (forall i :: 0 <= i < |ms| ==> from <= ms[i] <= stop)
    && (forall p: nat :: from <= p <= stop && hit(p).Some? ==> Covered(hit, ms, p))
  }

  lemma CoveredBehind(hit: nat -> Option<nat>, first: nat, ms: seq<nat>, p: nat)
    requires Covers(hit, first, p) || Covered(hit, ms, p)
    ensures Covered(hit, [first] + ms, p)
  {
    var all := [first] + ms;
    if Covers(hit, first, p) {
      assert Covers(hit, all[0], p);
    } else {
      var i :| 0 <= i < |ms| && Covers(hit, ms[i], p);
      assert Covers(hit, all[i + 1], p);
    }
  }

  lemma InTurnBehind(hit: nat -> Option<nat>, first: nat, ms: seq<nat>)
    requires hit(first).Some? && InTurn(hit, ms) && forall i :: 0 <= i < |ms| ==> hit(first).value <= ms[i]
    ensures InTurn(hit, [first] + ms)
  {
  }

  lemma ScanOneMore(hit: nat -> Option<nat>, from: nat, first: nat, stop: nat, ms: seq<nat>)
    requires from <= first <= stop && hit(first).Some? && first < hit(first).value
    requires forall p: nat :: from <= p < first ==> hit(p).None?
    requires IsScan(hit, hit(first).value, stop, ms)
    ensures IsScan(hit, from, stop, [first] + ms)
  {
    InTurnBehind(hit, first, ms);
    forall p: nat | from <= p <= stop && hit(p).Some?
      ensures Covered(hit, [first] + ms, p)
    {
      assert p < hit(first).value ==> Covers(hit, first, p);
      CoveredBehind(hit, first, ms, p);
    }
  }

  lemma NoMoreMatches(hit: nat -> Option<nat>, from: nat, stop: nat)
    requires forall p: nat :: from <= p <= stop ==> hit(p).None?
    ensures IsScan(hit, from, stop, [])
  {
  }

  lemma ScanSkips(hit: nat -> Option<nat>, from: nat, stop: nat, ms: seq<nat>)
    requires hit(from).None? && IsScan(hit, from + 1, stop, ms)
    ensures IsScan(hit, from, stop, ms)
  {
  }

  function KeyHit(s: string): nat -> Option<nat> {
    (p: nat) => if p <= |s| && KeyAt(s, p).Some? then Some(KeyAt(s, p).value.end) else None
  }

  function NameHit(b: string, name: string): nat -> Option<nat> {
    (p: nat) => if p <= |b| then NamedAt(b, p, name) else None
  }

  function Starts(keys: seq<Key>): (starts: seq<nat>)
    ensures |starts| == |keys| && forall i :: 0 <= i < |keys| ==> starts[i] == keys[i].start
  {
    seq(|keys|, i requires 0 <= i < |keys| => keys[i].start)
  }

  lemma {:induction false} NextKeyIsFirst(s: string, from: nat)
    requires from <= |s|
    ensures
      var k := NextKey(s, from);
      forall p: nat :: from <= p <= |s| && (k.None? || p < k.value.start) ==> KeyAt(s, p).None?
    decreases |s| - from
  {
    if KeyAt(s, from).None? && from < |s| {
      NextKeyIsFirst(s, from + 1);
    }
  }

  lemma KeyHitIs(s: string, from: nat)
    requires from <= |s|
    ensures
      var k := NextKey(s, from);
      && (forall p: nat :: from <= p <= |s| && (k.None? || p < k.value.start) ==> KeyHit(s)(p).None?)
      && (k.Some? ==> KeyHit(s)(k.value.start) == Some(k.value.end))
  {
    NextKeyIsFirst(s, from);
  }

  /** The candidate keys are, in order, all the matches of the scan that start at or before the bound. */
  lemma {:induction false} KeysAreTheScan(s: string, from: nat, bound: nat)
    requires from <= |s|
    ensures IsScan(KeyHit(s), from, Min(bound, |s|), Starts(KeysUpTo(s, from, bound)))
    decreases |s| - from
  {
    var k, hit, stop := NextKey(s, from), KeyHit(s), Min(bound, |s|);
    KeyHitIs(s, from);
    if k.Some? && k.value.start <= bound {
      var rest := KeysUpTo(s, k.value.end, bound);
      KeysAreTheScan(s, k.value.end, bound);
      ScanOneMore(hit, from, k.value.start, stop, Starts(rest));
      StartsOfMore(k.value, rest);
    } else {
      NoMoreMatches(hit, from, stop);
      assert Starts([]) == [];
    }
  }

  lemma StartsOfMore(key: Key, rest: seq<Key>)
    ensures Starts([key] + rest) == [key.start] + Starts(rest)
  {
  }

  lemma NameHitIs(b: string, name: string, p: nat)
    ensures NameHit(b, name)(p) == if p <= |b| then NamedAt(b, p, name) else None
  {
  }

  lemma TailOfMatch(b: string, from: nat, name: string, end: nat)
    requires from <= |b| && NamedAt(b, from, name) == Some(end)
    ensures TailOf(b, from, name) == if TailOf(b, end, name).Some? then TailOf(b, end, name) else Some(from)
  {
  }

  /** The tail starts at the last match of the scan for the name; there is none exactly if the name is
      spelt nowhere. */
  lemma {:induction false} TailIsTheLastMatch(b: string, from: nat, name: string) returns (ms: seq<nat>)
    requires from <= |b|
    ensures IsScan(NameHit(b, name), from, |b|, ms)
    ensures TailOf(b, from, name) == if ms == [] then None else Some(ms[|ms| - 1])
    decreases |b| - from
  {
    var hit := NameHit(b, name);
    NameHitIs(b, name, from);
    if hit(from).Some? {
      var end := hit(from).value;
      var rest := TailIsTheLastMatch(b, end, name);
      ms := [from] + rest;
      ScanOneMore(hit, from, from, |b|, rest);
      TailOfMatch(b, from, name, end);
    } else if from < |b| {
      ms := TailIsTheLastMatch(b, from + 1, name);
      ScanSkips(hit, from, |b|, ms);
    } else {
      ms := [];
      NoMoreMatches(hit, from, |b|);
    }
  }

  // ---- Grafting ----

  /** A pair to try: keep the input before the key, add the backup from the same key on. */
  datatype Graft = Graft(key: Key, backup: string)

  function Merged(s: string, g: Graft): Option<string>
    requires g.key.start <= |s|
  {
    var tail := TailOf(g.backup, 0, g.key.name);
    if tail.None? then None else Some(s[..g.key.start] + g.backup[tail.value..])
  }

  predicate Works(j: Json, s: string, g: Graft)
    requires g.key.start <= |s|
  {
    Merged(s, g).Some? && j.parses(Merged(s, g).value)
  }

  /** A merge is tried with the tail of the backup from the last match of the key, and works exactly if
      there is one and the text put together parses. */
  lemma WorksExactly(j: Json, s: string, g: Graft)
    requires g.key.start <= |s|
    ensures Works(j, s, g) <==>
      var tail := TailOf(g.backup, 0, g.key.name);
      tail.Some? && j.parses(s[..g.key.start] + g.backup[tail.value..])
  {
  }

  function Row(key: Key, backups: seq<string>): (row: seq<Graft>)
    ensures |row| == |backups|
  {
    seq(|backups|, i requires 0 <= i < |backups| => Graft(key, backups[i]))
  }

  /** Every pair in the order of trial: keys last to first, backups newest to oldest. */
  function Pairs(keys: seq<Key>, backups: seq<string>): (pairs: seq<Graft>)
    ensures forall i :: 0 <= i < |pairs| ==> pairs[i].key in keys && pairs[i].backup in backups
  {
    if keys == [] then [] else Row(keys[|keys| - 1], backups) + Pairs(keys[..|keys| - 1], backups)
  }

  /** Trial number `r * |backups| + b` is the key `r` from the end with backup `b`. */
  lemma {:induction false} PairAt(keys: seq<Key>, backups: seq<string>, r: nat, b: nat)
    requires r < |keys| && b < |backups|
    ensures |Pairs(keys, backups)| == |keys| * |backups|
    ensures 0 <= r * |backups| + b < |Pairs(keys, backups)|
    ensures Pairs(keys, backups)[r * |backups| + b] == Graft(keys[|keys| - 1 - r], backups[b])
  {
    var m, k := |backups|, |keys| - 1;
    PairsCount(keys, backups);
    if r == 0 {
      assert 0 * m == 0;
      PairsCount(keys[..k], backups);
    } else {
      PairAt(keys[..k], backups, r - 1, b);
      assert r * m == m + (r - 1) * m;
    }
    assert (r + 1) * m == r * m + m;
    MoreRows(r + 1, |keys|, m);
  }

  lemma MoreRows(r: nat, n: nat, m: nat)
    requires r <= n
    ensures r * m <= n * m
  {
  }

  lemma {:induction false} PairsCount(keys: seq<Key>, backups: seq<string>)
    ensures |Pairs(keys, backups)| == |keys| * |backups|
  {
    if keys != [] {
      PairsCount(keys[..|keys| - 1], backups);
    }
  }

  ghost predicate InRange(s: string, pairs: seq<Graft>) {
    forall i :: 0 <= i < |pairs| ==> pairs[i].key.start <= |s|
  }

  /** The first of the first `budget` pairs whose merge parses. */
  ghost predicate FirstWorking(j: Json, s: string, pairs: seq<Graft>, budget: nat, found: Option<Graft>)
    requires InRange(s, pairs)
  {
    match found
    case Some(g) =>
      exists n :: 0 <= n < Min(budget, |pairs|) && pairs[n] == g && Works(j, s, g)
                  && forall i :: 0 <= i < n ==> !Works(j, s, pairs[i])
    case None => forall i :: 0 <= i < Min(budget, |pairs|) ==> !Works(j, s, pairs[i])
  }

  /** Trying one list after another, the second with what the first left of the budget. */
  lemma FirstOfConcat(j: Json, s: string, a: seq<Graft>, b: seq<Graft>, budget: nat, found: Option<Graft>)
    requires InRange(s, a) && InRange(s, b)
    requires (found.Some? && FirstWorking(j, s, a, budget, found))
             || (FirstWorking(j, s, a, budget, None) && FirstWorking(j, s, b, Max(budget - |a|, 0), found))
    ensures InRange(s, a + b) && FirstWorking(j, s, a + b, budget, found)
  {
    if found.Some? {
      if FirstWorking(j, s, a, budget, found) {
        var n :| 0 <= n < Min(budget, |a|) && a[n] == found.value && forall i :: 0 <= i < n ==> !Works(j, s, a[i]);
        assert (a + b)[n] == found.value;
      } else {
        var n :| 0 <= n < Min(budget - |a|, |b|) && b[n] == found.value && forall i :: 0 <= i < n ==> !Works(j, s, b[i]);
        assert (a + b)[|a| + n] == found.value;
      }
    }
  }

  /** The inner loop: one key against every backup, while the budget lasts. */
  method TryBackups(j: Json, s: string, key: Key, backups: seq<string>, budget: nat) returns (found: Option<Graft>,
      left: nat)
    requires key.start <= |s|
    ensures FirstWorking(j, s, Row(key, backups), budget, found)
    ensures found.None? ==> left == Max(budget - |backups|, 0)
  {
    left := budget;
    var b := 0;
    while b < |backups| && left > 0
      invariant 0 <= b <= |backups| && left + b == budget
      invariant forall i :: 0 <= i < b ==> !Works(j, s, Graft(key, backups[i]))
    {
      var g := Graft(key, backups[b]);
      if Works(j, s, g) {
        assert Row(key, backups)[b] == g;
        return Some(g), left;
      }
      b, left := b + 1, left - 1;
    }
    found := None;
  }

  /** The pairs of the keys from `c` on were tried without success and `left` trials remain. */
  ghost predicate Tried(j: Json, s: string, keys: seq<Key>, backups: seq<string>, c: nat, left: nat,
      tried: seq<Graft>) {
    && c <= |keys| && left == Max(MAX_GRAFTS - |tried|, 0)
    && tried + Pairs(keys[..c], backups) == Pairs(keys, backups)
    && InRange(s, tried) && FirstWorking(j, s, tried, MAX_GRAFTS, None)
  }

  lemma TriedNext(j: Json, s: string, keys: seq<Key>, backups: seq<string>, c: nat, left: nat,
                  tried: seq<Graft>, found: Option<Graft>)
    requires forall i :: 0 <= i < |keys| ==> keys[i].start <= |s|
    requires 0 < c && Tried(j, s, keys, backups, c, left, tried)
    requires FirstWorking(j, s, Row(keys[c - 1], backups), left, found)
    ensures found.Some? ==> InRange(s, Pairs(keys, backups)) && FirstWorking(j, s, Pairs(keys, backups), MAX_GRAFTS, found)
    ensures found.None? ==>
              Tried(j, s, keys, backups, c - 1, Max(left - |backups|, 0), tried + Row(keys[c - 1], backups))
  {
    var row, rest := Row(keys[c - 1], backups), Pairs(keys[..c - 1], backups);
    PairsNext(keys, backups, c, tried);
    FirstOfConcat(j, s, tried, row, MAX_GRAFTS, found);
    if found.Some? {
      FirstOfConcat(j, s, tried + row, rest, MAX_GRAFTS, found);
    }
  }

  lemma PairsNext(keys: seq<Key>, backups: seq<string>, c: nat, tried: seq<Graft>)
    requires 0 < c <= |keys|
    ensures tried + Pairs(keys[..c], backups) == tried + Row(keys[c - 1], backups) + Pairs(keys[..c - 1], backups)
  {
    assert keys[..c][..c - 1] == keys[..c - 1];
    var row, rest := Row(keys[c - 1], backups), Pairs(keys[..c - 1], backups);
    assert tried + (row + rest) == tried + row + rest;
  }

  lemma TriedAll(j: Json, s: string, keys: seq<Key>, backups: seq<string>, c: nat, left: nat, tried: seq<Graft>)
    requires forall i :: 0 <= i < |keys| ==> keys[i].start <= |s|
    requires Tried(j, s, keys, backups, c, left, tried) && (c == 0 || left == 0)
    ensures InRange(s, Pairs(keys, backups)) && FirstWorking(j, s, Pairs(keys, backups), MAX_GRAFTS, None)
  {
    FirstOfConcat(j, s, tried, Pairs(keys[..c], backups), MAX_GRAFTS, None);
  }

  /** The outer loop: keys last to first, at most 50 merges in all. */
  method PlanGraft(j: Json, s: string, keys: seq<Key>, backups: seq<string>) returns (found: Option<Graft>)
    requires forall i :: 0 <= i < |keys| ==> keys[i].start <= |s|
    ensures InRange(s, Pairs(keys, backups)) && FirstWorking(j, s, Pairs(keys, backups), MAX_GRAFTS, found)
  {
    var c: nat, left: nat := |keys|, MAX_GRAFTS;
    ghost var tried: seq<Graft> := [];
    assert keys[..|keys|] == keys;
    while c > 0 && left > 0
      invariant c <= |keys| && Tried(j, s, keys, backups, c, left, tried)
      decreases c
    {
      var more: nat;
      found, more := TryBackups(j, s, keys[c - 1], backups, left);
      TriedNext(j, s, keys, backups, c, left, tried, found);
      if found.Some? { return; }
      tried := tried + Row(keys[c - 1], backups);
      c, left := c - 1, more;
    }
    TriedAll(j, s, keys, backups, c, left, tried);
    found := None;
  }

  // ---- The planner ----

  function ValidBackups(j: Json, backups: seq<string>): (valid: seq<string>)
    ensures forall b :: b in valid <==> b in backups && j.parses(b)
    ensures valid != [] ==> FirstValid(j, backups, valid[0])
  {
    if backups == [] then []
    else if j.parses(backups[0]) then [backups[0]] + ValidBackups(j, backups[1..])
    else
      var rest := ValidBackups(j, backups[1..]);
      assert rest != [] ==> FirstValid(j, backups[1..], rest[0]);
      assert forall i :: 0 < i < |backups| ==> backups[1..][i - 1] == backups[i];
      rest
  }

  function IfValid(j: Json, backup: string): seq<string> {
    if j.parses(backup) then [backup] else []
  }

  lemma ValidNext(j: Json, backups: seq<string>)
    requires backups != []
    ensures ValidBackups(j, backups) == IfValid(j, backups[0]) + ValidBackups(j, backups[1..])
  {
  }

  /** The backups that parse keep their order: of two lists, those of the newer one come first. */
  lemma {:induction false} ValidInOrder(j: Json, newer: seq<string>, older: seq<string>)
    ensures ValidBackups(j, newer + older) == ValidBackups(j, newer) + ValidBackups(j, older)
  {
    if newer == [] {
      assert newer + older == older && ValidBackups(j, newer) == [];
    } else {
      ValidInOrder(j, newer[1..], older);
      ValidNext(j, newer);
      ValidNextOfBoth(j, newer, older, ValidBackups(j, newer[1..]), ValidBackups(j, older));
    }
  }

  lemma ValidNextOfBoth(j: Json, newer: seq<string>, older: seq<string>, n: seq<string>, o: seq<string>)
    requires newer != [] && ValidBackups(j, newer[1..] + older) == n + o
    ensures ValidBackups(j, newer + older) == IfValid(j, newer[0]) + n + o
  {
    var all, first := newer + older, IfValid(j, newer[0]);
    assert all[1..] == newer[1..] + older && all[0] == newer[0];
    assert ValidBackups(j, all) == first + (n + o) by {
      ValidNext(j, all);
    }
    assert first + (n + o) == first + n + o;
  }

  lemma ValidOfOne(j: Json, backup: string)
    ensures ValidBackups(j, [backup]) == if j.parses(backup) then [backup] else []
  {
    assert [backup][1..] == [];
  }

  predicate FirstValid(j: Json, backups: seq<string>, b: string) {
    exists n :: 0 <= n < |backups| && backups[n] == b && j.parses(b)
                && forall i :: 0 <= i < n ==> !j.parses(backups[i])
  }

  /** Where the repaired text comes from. */
  ghost predicate Sourced(j: Json, s: string, errPos: Option<nat>, backups: seq<string>, r: Repair) {
    match r
    case Valid => j.parses(s)
    case Truncated(content, kept) =>
      && PrefixParses(j, s, kept) && content == j.canon(Trim(Take(s, kept)))
      && (if errPos.Some? then kept == errPos.value else LongestLatePrefix(ParsesUpTo(j, s), s, kept))
    case Grafted(content, start, backup, tail) =>
      && start <= |s| && tail <= |backup| && backup in backups && j.parses(backup)
      && (errPos.Some? ==> start <= errPos.value)
      && KeyAt(s, start).Some? && TailOf(backup, 0, KeyAt(s, start).value.name) == Some(tail)
      && j.parses(s[..start] + backup[tail..]) && content == j.canon(s[..start] + backup[tail..])
    case Restored(content) =>
      exists b :: FirstValid(j, backups, b) && content == j.canon(b)
    case Unrepairable => forall b :: b in backups ==> !j.parses(b)
  }

  function Content(r: Repair): Option<string> {
    match r
    case Truncated(content, _) => Some(content)
    case Grafted(content, _, _, _) => Some(content)
    case Restored(content) => Some(content)
    case _ => None
  }

  /** Every repair parses and is already in canonical form. */
  lemma RepairsParse(j: Json, s: string, errPos: Option<nat>, backups: seq<string>, r: Repair)
    requires Lawful(j) && Sourced(j, s, errPos, backups, r) && Content(r).Some?
    ensures j.parses(Content(r).value) && j.canon(Content(r).value) == Content(r).value
  {
  }

  /** There is a prefix worth keeping. */
  ghost predicate Truncatable(j: Json, s: string, errPos: Option<nat>) {
    if errPos.Some? then Trim(Take(s, errPos.value)) != "" && PrefixParses(j, s, errPos.value)
    else !NoLatePrefix(ParsesUpTo(j, s), s)
  }

  /** The grafts in the order they are tried: keys at or before the error, backups that parse. */
  function Trials(j: Json, s: string, errPos: Option<nat>, backups: seq<string>): (pairs: seq<Graft>)
    ensures InRange(s, pairs)
  {
    Pairs(KeysUpTo(s, 0, if errPos.Some? then errPos.value else |s|), ValidBackups(j, backups))
  }

  /** Each repair is chosen only when the ones before it are impossible; the planner gives up
      exactly when there is neither a prefix to keep nor a backup that parses. */
  method RepairClaudeJsonContent(j: Json, s: string, errPos: Option<nat>, backups: seq<string>) returns (r: Repair)
    ensures Sourced(j, s, errPos, backups, r)
    ensures r.Valid? <==> j.parses(s)
    ensures r.Truncated? <==> !j.parses(s) && Truncatable(j, s, errPos)
    ensures r.Grafted? ==> FirstWorking(j, s, Trials(j, s, errPos, backups), 50,
                                        Some(Graft(KeyAt(s, r.start).value, r.backup)))
    ensures r.Restored? || r.Unrepairable? ==> FirstWorking(j, s, Trials(j, s, errPos, backups), 50, None)
    ensures r.Unrepairable? <==>
              !j.parses(s) && !Truncatable(j, s, errPos) && forall b :: b in backups ==> !j.parses(b)
  {
    if j.parses(s) { return Valid; }
    var keep := PlanTruncation(j, s, errPos);
    if keep.Some? {
      return Truncated(j.canon(Trim(Take(s, keep.value))), keep.value);
    }
    var valid := ValidBackups(j, backups);
    var bound := if errPos.Some? then errPos.value else |s|;
    var keys := KeysUpTo(s, 0, bound);
    var graft := PlanGraft(j, s, keys, valid);
    if graft.Some? {
      var g := graft.value;
      var tail := TailOf(g.backup, 0, g.key.name).value;
      return Grafted(j.canon(s[..g.key.start] + g.backup[tail..]), g.key.start, g.backup, tail);
    }
    if valid != [] { return Restored(j.canon(valid[0])); }
    r := Unrepairable;
  }
}
