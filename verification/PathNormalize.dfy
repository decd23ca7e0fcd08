/** The canonical form of witnessed file paths: POSIX-absolute and drive-rooted spellings. A path is
    read as a walk through directories, and its canonical form spells where the walk ends. */
module PathNormalize {
  import opened Prelude
  import opened Strings

  /** A canonical path, or a spelling another branch takes care of: `file:`, `~`, UNC, relative. */
  datatype Canonical = Path(text: string) | Elsewhere

  // ---- Segments ----

  /** The pieces between separators. There is always at least one. */
  function Split(s: string, sep: char): (pieces: seq<string>)
    ensures |pieces| > 0
  {
    if s == "" then [""]
    else
      var rest := Split(s[1..], sep);
      if s[0] == sep then [""] + rest else [[s[0]] + rest[0]] + rest[1..]
  }

  function Join(segments: seq<string>, sep: char): string {
    if segments == [] then ""
    else if |segments| == 1 then segments[0]
    else segments[0] + [sep] + Join(segments[1..], sep)
  }

  /** One step of the walk from the root. Nothing is above the root. */
  function Enter(place: seq<string>, segment: string): seq<string> {
    if segment == "" || segment == "." then place
    else if segment == ".." then (if place == [] then [] else place[..|place| - 1])
    else place + [segment]
  }

  function Walk(place: seq<string>, segments: seq<string>): seq<string>
    decreases |segments|
  {
    if segments == [] then place else Walk(Enter(place, segments[0]), segments[1..])
  }

  /** Where one more segment leads: nowhere for nothing and for a dot, to the parent for two, and the root is
      its own parent; into the directory of that name otherwise. */
  lemma {:induction false} WalkOn(place: seq<string>, segments: seq<string>, segment: string)
    ensures
      var here, there := Walk(place, segments), Walk(place, segments + [segment]);
      && (segment == "" || segment == "." ==> there == here)
      && (segment == ".." && here == [] ==> there == [])
      && (segment == ".." && here != [] ==> there + [here[|here| - 1]] == here)
      && (segment != "" && segment != "." && segment != ".." ==> there == here + [segment])
    decreases |segments|
  {
    if segments == [] {
      assert [segment][1..] == [] && segments + [segment] == [segment];
    } else {
      assert (segments + [segment])[1..] == segments[1..] + [segment];
      WalkOn(Enter(place, segments[0]), segments[1..], segment);
    }
  }

  predicate EndsWith(s: string, c: char) {
    s != "" && s[|s| - 1] == c
  }

  /** What follows the root, normalised; a separator at the end stays. */
  function Normal(body: string, sep: char): string {
    var place := Walk([], Split(body, sep));
    if place != [] && EndsWith(body, sep) then Join(place, sep) + [sep] else Join(place, sep)
  }

  function Replace(s: string, from: char, to: char): (t: string)
    ensures |t| == |s|
    ensures forall i :: 0 <= i < |s| ==> t[i] == if s[i] == from then to else s[i]
  {
    seq(|s|, i requires 0 <= i < |s| => if s[i] == from then to else s[i])
  }

  // ---- The canonical form ----

  predicate IsLetter(c: char) { 'A' <= c <= 'Z' || 'a' <= c <= 'z' }

  function Upper(c: char): char {
    if 'a' <= c <= 'z' then (c as int - 32) as char else c
  }

  predicate ControlOnly(s: string) {
    forall i :: 0 <= i < |s| ==> s[i] < ' ' || s[i] == '\U{007F}'
  }

  predicate PosixAbsolute(s: string) {
    s != "" && s[0] == '/' && !(|s| > 1 && s[1] == '/')
  }

  predicate DriveRooted(s: string) {
    |s| >= 3 && IsLetter(s[0]) && s[1] == ':' && (s[2] == '\\' || s[2] == '/')
  }

  predicate BareDrive(s: string) {
    |s| == 2 && IsLetter(s[0]) && s[1] == ':'
  }

  function PosixNormalize(s: string): string
    requires s != "" && s[0] == '/'
  {
    "/" + Normal(Replace(s, '\\', '/')[1..], '/')
  }

  function DriveNormalize(s: string): string
    requires DriveRooted(s)
  {
    [Upper(s[0])] + ":\\" + Normal(Replace(s, '/', '\\')[3..], '\\')
  }

  /** The branches for rooted paths. An empty or control-only value is the empty path. */
  function Canonicalize(raw: string): Canonical { OfTrimmed(Trim(raw)) }

  function OfTrimmed(s: string): Canonical {
    if s == "" || ControlOnly(s) then Path("")
    else if PosixAbsolute(s) then Path(PosixNormalize(s))
    else if DriveRooted(s) then Path(DriveNormalize(s))
    else if BareDrive(s) then Path(DriveNormalize(s + "\\"))
    else Elsewhere
  }

  /** Nothing but controls: code points 0 to 31, and 127. */
  predicate OnlyControls(s: string) {
    forall i :: 0 <= i < |s| ==> s[i] as int <= 31 || s[i] as int == 127
  }

  predicate Capital(c: char) { 65 <= c as int <= 90 }

  predicate Small(c: char) { 97 <= c as int <= 122 }

  /** One slash, and no second one. */
  predicate StartsWithSlash(s: string) { "/" <= s && !("//" <= s) }

  /** A letter and a colon, with a separator behind them or nothing. */
  predicate StartsWithDrive(s: string) {
    |s| >= 2 && (Capital(s[0]) || Small(s[0])) && s[1] == ':' && (|s| == 2 || s[2] == '/' || s[2] == '\\')
  }

  /** Which values are canonicalised here, and how their canonical path begins: nothing is left of a value
      without a visible character, a slash stays, and a drive is named by its capital letter. Every other
      value is for another branch. */
  lemma BranchesExactly(raw: string, s: string)
    requires s == Trim(raw)
    ensures
      match Canonicalize(raw)
      case Elsewhere => !OnlyControls(s) && !StartsWithSlash(s) && !StartsWithDrive(s)
      case Path(p) =>
        || (OnlyControls(s) && p == "")
        || (StartsWithSlash(s) && !OnlyControls(s) && "/" <= p)
        || (StartsWithDrive(s) && !OnlyControls(s) && [if Small(s[0]) then (s[0] as int - 32) as char else s[0]] + ":\\" <= p)
  {
    SlashExactly(s);
    DriveExactly(s);
    assert OnlyControls(s) <==> s == "" || ControlOnly(s);
  }

  lemma SlashExactly(s: string)
    ensures StartsWithSlash(s) <==> PosixAbsolute(s)
    ensures PosixAbsolute(s) ==> "/" <= PosixNormalize(s)
  {
    if s != "" {
      assert "//" <= s <==> |s| > 1 && s[0] == '/' && s[1] == '/';
    }
  }

  lemma DriveExactly(s: string)
    ensures StartsWithDrive(s) <==> DriveRooted(s) || BareDrive(s)
    ensures DriveRooted(s) ==> [if Small(s[0]) then (s[0] as int - 32) as char else s[0]] + ":\\" <= DriveNormalize(s)
  {
  }

  // ---- Canonical segments ----

  predicate Clean(segment: string, sep: char) {
    segment != "" && segment != "." && segment != ".." && sep !in segment
  }

  predicate AllClean(segments: seq<string>, sep: char) {
    forall i :: 0 <= i < |segments| ==> Clean(segments[i], sep)
  }

  lemma {:induction false} SplitHasNoSeparator(s: string, sep: char)
    ensures forall i :: 0 <= i < |Split(s, sep)| ==> sep !in Split(s, sep)[i]
  {
    if s != "" {
      SplitHasNoSeparator(s[1..], sep);
    }
  }

  lemma {:induction false} WalkIsClean(place: seq<string>, segments: seq<string>, sep: char)
    requires AllClean(place, sep)
    requires forall i :: 0 <= i < |segments| ==> sep !in segments[i]
    ensures AllClean(Walk(place, segments), sep)
    decreases |segments|
  {
    if segments != [] {
      WalkIsClean(Enter(place, segments[0]), segments[1..], sep);
    }
  }

  lemma {:induction false} WalkOfClean(place: seq<string>, segments: seq<string>, sep: char)
    requires AllClean(segments, sep)
    ensures Walk(place, segments) == place + segments
    ensures Walk(place, segments + [""]) == place + segments
    decreases |segments|
  {
    if segments == [] {
      assert [""][1..] == [];
      assert Walk(place, [""]) == Walk(Enter(place, ""), []) == place;
    } else {
      assert Clean(segments[0], sep);
      var next := place + [segments[0]];
      assert (segments + [""])[1..] == segments[1..] + [""];
      WalkOfClean(next, segments[1..], sep);
      assert next + segments[1..] == place + segments;
    }
  }

  lemma {:induction false} SplitFirst(piece: string, rest: string, sep: char)
    requires sep !in piece
    ensures Split(piece, sep) == [piece]
    ensures Split(piece + [sep] + rest, sep) == [piece] + Split(rest, sep)
  {
    if piece == "" {
      assert (piece + [sep] + rest)[1..] == rest;
    } else {
      SplitFirst(piece[1..], rest, sep);
      assert (piece + [sep] + rest)[1..] == piece[1..] + [sep] + rest;
      assert [piece[0]] + piece[1..] == piece;
    }
  }

  lemma {:induction false} SplitOfJoin(segments: seq<string>, sep: char)
    requires segments != [] && AllClean(segments, sep)
    ensures Split(Join(segments, sep), sep) == segments
    ensures Split(Join(segments, sep) + [sep], sep) == segments + [""]
  {
    assert Clean(segments[0], sep);
    if |segments| == 1 {
      SplitFirst(segments[0], "", sep);
      assert segments[0] + [sep] + "" == segments[0] + [sep];
    } else {
      var rest := Join(segments[1..], sep);
      SplitOfJoin(segments[1..], sep);
      SplitFirst(segments[0], rest, sep);
      SplitFirst(segments[0], rest + [sep], sep);
      assert segments[0] + [sep] + (rest + [sep]) == segments[0] + [sep] + rest + [sep];
    }
  }

  lemma {:induction false} JoinEnds(segments: seq<string>, sep: char)
    requires segments != [] && AllClean(segments, sep)
    ensures Join(segments, sep) != "" && Join(segments, sep)[0] == segments[0][0]
    ensures !EndsWith(Join(segments, sep), sep)
  {
    assert Clean(segments[0], sep);
    if |segments| > 1 {
      JoinEnds(segments[1..], sep);
    }
  }

  /** Where a body leads. */
  function Place(body: string, sep: char): seq<string> { Walk([], Split(body, sep)) }

  lemma PlaceIsClean(body: string, sep: char)
    ensures AllClean(Place(body, sep), sep)
  {
    SplitHasNoSeparator(body, sep);
    WalkIsClean([], Split(body, sep), sep);
  }

  /** Normalising keeps where the path leads, whether it ends with a separator unless it leads to
      the root, and leaves no empty, `.` or `..` segment: its pieces are the place itself. */
  lemma NormalKeepsPlace(body: string, sep: char)
    ensures Place(Normal(body, sep), sep) == Place(body, sep)
    ensures Place(body, sep) != [] ==> (EndsWith(Normal(body, sep), sep) <==> EndsWith(body, sep))
    ensures Place(body, sep) == [] ==> Normal(body, sep) == ""
    ensures Place(body, sep) != [] ==>
      Split(Normal(body, sep), sep) == Place(body, sep) + (if EndsWith(body, sep) then [""] else [])
  {
    var place := Place(body, sep);
    PlaceIsClean(body, sep);
    if place == [] {
      assert Walk([], [""]) == [] by { WalkOfClean([], [], sep); assert [] + [""] == [""]; }
    } else {
      SplitOfJoin(place, sep);
      JoinEnds(place, sep);
      WalkOfClean([], place, sep);
      assert [] + place == place;
      assert place + [] == place;
    }
  }

  /** Two bodies have one normal form exactly when they lead to the same place and end alike. */
  lemma NormalIsCanonical(a: string, b: string, sep: char)
    ensures Normal(a, sep) == Normal(b, sep) <==>
      (Place(a, sep) == Place(b, sep) && (Place(a, sep) == [] || (EndsWith(a, sep) <==> EndsWith(b, sep))))
  {
    NormalKeepsPlace(a, sep);
    NormalKeepsPlace(b, sep);
  }

  // ---- Normalising never lengthens ----

  function Width(segments: seq<string>): nat {
    if segments == [] then 0 else |segments[0]| + 1 + Width(segments[1..])
  }

  lemma {:induction false} WidthConcat(a: seq<string>, b: seq<string>)
    ensures Width(a + b) == Width(a) + Width(b)
  {
    if a == [] {
      assert a + b == b;
    } else {
      assert (a + b)[1..] == a[1..] + b;
      WidthConcat(a[1..], b);
    }
  }

  lemma {:induction false} SplitWidth(s: string, sep: char)
    ensures Width(Split(s, sep)) == |s| + 1
  {
    if s != "" {
      SplitWidth(s[1..], sep);
      var rest := Split(s[1..], sep);
      if s[0] == sep {
        assert ([""] + rest)[1..] == rest;
      } else {
        assert ([[s[0]] + rest[0]] + rest[1..])[1..] == rest[1..];
      }
    }
  }

  lemma {:induction false} WalkWidth(place: seq<string>, segments: seq<string>)
    ensures Width(Walk(place, segments)) <= Width(place) + Width(segments)
    decreases |segments|
  {
    if segments != [] {
      var next := Enter(place, segments[0]);
      WidthConcat(place, [segments[0]]);
      if place != [] {
        assert place == place[..|place| - 1] + [place[|place| - 1]];
        WidthConcat(place[..|place| - 1], [place[|place| - 1]]);
      }
      WalkWidth(next, segments[1..]);
    }
  }

  lemma {:induction false} JoinWidth(segments: seq<string>, sep: char)
    requires segments != []
    ensures |Join(segments, sep)| + 1 == Width(segments)
  {
    if |segments| > 1 {
      JoinWidth(segments[1..], sep);
    }
  }

  lemma {:induction false} SplitDropLast(s: string, sep: char)
    ensures Split(s + [sep], sep) == Split(s, sep) + [""]
  {
    if s == "" {
      assert (s + [sep])[1..] == "";
    } else {
      assert (s + [sep])[1..] == s[1..] + [sep];
      SplitDropLast(s[1..], sep);
    }
  }

  lemma {:induction false} WalkDropEmpty(place: seq<string>, segments: seq<string>)
    ensures Walk(place, segments + [""]) == Walk(place, segments)
    decreases |segments|
  {
    if segments == [] {
      assert [""][1..] == [];
      assert Walk(place, [""]) == Walk(Enter(place, ""), []) == place;
    } else {
      assert (segments + [""])[1..] == segments[1..] + [""];
      WalkDropEmpty(Enter(place, segments[0]), segments[1..]);
    }
  }

  lemma NormalIsNoLonger(body: string, sep: char)
    ensures |Normal(body, sep)| <= |body|
  {
    var place := Place(body, sep);
    if place != [] {
      JoinWidth(place, sep);
      if EndsWith(body, sep) {
        var front := body[..|body| - 1];
        assert front + [sep] == body;
        SplitDropLast(front, sep);
        WalkDropEmpty([], Split(front, sep));
        WalkWidth([], Split(front, sep));
        SplitWidth(front, sep);
      } else {
        WalkWidth([], Split(body, sep));
        SplitWidth(body, sep);
      }
    }
  }

  // ---- Reading and spelling a rooted path ----

  /** What a rooted path says: its drive if it has one, where it leads, and whether it ends with a
      separator there. */
  datatype Reading = Reading(drive: Option<char>, place: seq<string>, slash: bool)

  predicate Rooted(s: string) { PosixAbsolute(s) || DriveRooted(s) }

  function Separator(drive: Option<char>): char { if drive.None? then '/' else '\\' }

  function Body(s: string): string
    requires Rooted(s)
  {
    if PosixAbsolute(s) then Replace(s, '\\', '/')[1..] else Replace(s, '/', '\\')[3..]
  }

  function Drive(s: string): Option<char>
    requires Rooted(s)
  {
    if PosixAbsolute(s) then None else Some(Upper(s[0]))
  }

  function Pieces(s: string): seq<string>
    requires Rooted(s)
  {
    Split(Body(s), Separator(Drive(s)))
  }

  function Read(s: string): Reading
    requires Rooted(s)
  {
    var sep := Separator(Drive(s));
    var place := Place(Body(s), sep);
    Reading(Drive(s), place, place != [] && EndsWith(Body(s), sep))
  }

  function Root(drive: Option<char>): string {
    if drive.None? then "/" else [drive.value] + ":\\"
  }

  function Spell(r: Reading): string {
    Root(r.drive) + Join(r.place, Separator(r.drive)) + (if r.slash then [Separator(r.drive)] else [])
  }

  /** A reading some path has: the segments hold neither separator. */
  predicate Sound(r: Reading) {
    && (r.drive.Some? ==> 'A' <= r.drive.value <= 'Z')
    && AllClean(r.place, '/') && AllClean(r.place, '\\')
    && (r.slash ==> r.place != [])
  }

  predicate Free(segments: seq<string>, c: char) {
    forall i :: 0 <= i < |segments| ==> c !in segments[i]
  }

  lemma {:induction false} SplitIsFree(s: string, sep: char, c: char)
    requires c !in s
    ensures Free(Split(s, sep), c)
  {
    if s != "" {
      SplitIsFree(s[1..], sep, c);
    }
  }

  lemma {:induction false} WalkIsFree(place: seq<string>, segments: seq<string>, c: char)
    requires Free(place, c) && Free(segments, c)
    ensures Free(Walk(place, segments), c)
    decreases |segments|
  {
    if segments != [] {
      WalkIsFree(Enter(place, segments[0]), segments[1..], c);
    }
  }

  lemma {:induction false} JoinIsFree(segments: seq<string>, sep: char, c: char)
    requires Free(segments, c) && c != sep
    ensures c !in Join(segments, sep)
  {
    if |segments| > 1 {
      JoinIsFree(segments[1..], sep, c);
    }
  }

  lemma ReadIsSound(s: string)
    requires Rooted(s)
    ensures Sound(Read(s))
  {
    var sep := Separator(Drive(s));
    var other := if sep == '/' then '\\' else '/';
    PlaceIsClean(Body(s), sep);
    SplitIsFree(Body(s), sep, other);
    WalkIsFree([], Split(Body(s), sep), other);
  }

  /** The normalisers spell what they read. */
  lemma NormaliseSpells(s: string)
    requires Rooted(s)
    ensures PosixAbsolute(s) ==> PosixNormalize(s) == Spell(Read(s))
    ensures DriveRooted(s) ==> DriveNormalize(s) == Spell(Read(s))
  {
    assert Normal(Body(s), Separator(Drive(s))) + [] == Normal(Body(s), Separator(Drive(s)));
  }

  /** Round trip: a spelt reading is a rooted path that reads back as the same reading. */
  lemma ReadOfSpell(r: Reading)
    requires Sound(r)
    ensures Rooted(Spell(r)) && Read(Spell(r)) == r
  {
    var sep := Separator(r.drive);
    var other := if sep == '/' then '\\' else '/';
    var body := Join(r.place, sep) + (if r.slash then [sep] else []);
    var s := Spell(r);
    assert s == Root(r.drive) + body;
    JoinIsFree(r.place, sep, other);
    if r.place != [] {
      JoinEnds(r.place, sep);
      assert Clean(r.place[0], sep);
      assert body[0] == r.place[0][0] && body[0] != '/';
    }
    assert Replace(s, other, sep) == s;
    assert Drive(s) == r.drive;
    assert Body(s) == body;
    BodyOfReading(r);
  }

  lemma BodyOfReading(r: Reading)
    requires Sound(r)
    ensures
      var sep := Separator(r.drive);
      var body := Join(r.place, sep) + (if r.slash then [sep] else []);
      Place(body, sep) == r.place && (r.place != [] ==> (EndsWith(body, sep) <==> r.slash))
  {
    var sep := Separator(r.drive);
    if r.place == [] {
      assert Split("", sep) == [""];
      WalkDropEmpty([], []);
      assert [] + [""] == [""];
      assert Join(r.place, sep) + [] == "";
    } else {
      SplitOfJoin(r.place, sep);
      JoinEnds(r.place, sep);
      WalkOfClean([], r.place, sep);
      assert [] + r.place == r.place;
      assert Join(r.place, sep) + [] == Join(r.place, sep);
    }
  }

  // ---- The canonical form of a value ----

  /** A trimmed value as a rooted path; a drive alone stands for its root. */
  function AsRooted(s: string): (path: Option<string>)
    ensures path.Some? ==> Rooted(path.value)
  {
    if BareDrive(s) then Some(s + "\\") else if Rooted(s) then Some(s) else None
  }

  function Rootedly(raw: string): (path: Option<string>)
    ensures path.Some? ==> Rooted(path.value)
  {
    AsRooted(Trim(raw))
  }

  /** What a rooted value says. */
  function Says(raw: string): Reading
    requires Rootedly(raw).Some?
  {
    Read(Rootedly(raw).value)
  }

  lemma TrimmedSpells(s: string)
    requires AsRooted(s).Some?
    ensures OfTrimmed(s) == Path(Spell(Read(AsRooted(s).value)))
  {
    NormaliseSpells(AsRooted(s).value);
  }

  lemma CanonicalizeSpells(raw: string)
    requires Rootedly(raw).Some?
    ensures Canonicalize(raw) == Path(Spell(Says(raw))) && Sound(Says(raw))
  {
    TrimmedSpells(Trim(raw));
    ReadIsSound(Rootedly(raw).value);
  }

  /** Main result: two rooted values get one canonical path exactly when they are on the same drive,
      in either case, lead to the same place, and agree on a separator at the end. */
  lemma OnePathPerPlace(a: string, b: string)
    requires Rootedly(a).Some? && Rootedly(b).Some?
    ensures Says(a) == Says(b) <==> Canonicalize(a) == Canonicalize(b)
  {
    CanonicalizeSpells(a);
    CanonicalizeSpells(b);
    SpellingIsUnique(Says(a), Says(b));
  }

  lemma SpellingIsUnique(x: Reading, y: Reading)
    requires Sound(x) && Sound(y)
    ensures Spell(x) == Spell(y) <==> x == y
  {
    ReadOfSpell(x);
    ReadOfSpell(y);
  }

  /** The path ends in a segment whose last character is white space. */
  predicate EndsInSpace(r: Reading) {
    !r.slash && r.place != [] && r.place[|r.place| - 1] != ""
    && IsSpace(r.place[|r.place| - 1][|r.place[|r.place| - 1]| - 1])
  }

  lemma {:induction false} JoinLast(segments: seq<string>, sep: char)
    requires segments != [] && AllClean(segments, sep)
    ensures segments[|segments| - 1] != "" && Join(segments, sep) != ""
    ensures Join(segments, sep)[|Join(segments, sep)| - 1] == segments[|segments| - 1][|segments[|segments| - 1]| - 1]
  {
    assert Clean(segments[|segments| - 1], sep);
    if |segments| > 1 {
      JoinLast(segments[1..], sep);
    }
  }

  lemma SpellEnd(r: Reading)
    requires Sound(r)
    ensures IsSpace(Spell(r)[|Spell(r)| - 1]) <==> EndsInSpace(r)
  {
    if r.place != [] {
      JoinLast(r.place, Separator(r.drive));
    }
  }

  lemma NormaliseIsNoLonger(s: string)
    requires Rooted(s)
    ensures |Spell(Read(s))| <= |s|
  {
    NormaliseSpells(s);
    NormalIsNoLonger(Body(s), Separator(Drive(s)));
  }

  /** Trimming a spelt path leaves the root in place. */
  lemma TrimOfSpell(r: Reading)
    requires Sound(r)
    ensures Rooted(Trim(Spell(r))) && Rootedly(Spell(r)) == Some(Trim(Spell(r)))
    ensures Trim(Spell(r)) == Spell(r) <==> !EndsInSpace(r)
    ensures |Trim(Spell(r))| <= |Spell(r)|
  {
    var s := Spell(r);
    var root := Root(r.drive);
    SpellEnd(r);
    SpellIsRooted(r);
    assert s == root + (Join(r.place, Separator(r.drive)) + (if r.slash then [Separator(r.drive)] else []));
    TrimKeepsRoot(root, s);
    RootedPrefix(s, Trim(s), |root|);
  }

  lemma SpellIsRooted(r: Reading)
    requires Sound(r)
    ensures Rooted(Spell(r)) && (r.drive.None? ==> PosixAbsolute(Spell(r)))
    ensures r.drive.Some? ==> DriveRooted(Spell(r))
  {
    if r.place != [] {
      JoinEnds(r.place, Separator(r.drive));
      assert Clean(r.place[0], '/');
      assert r.place[0][0] in r.place[0];
    }
  }

  lemma RootedPrefix(s: string, t: string, root: nat)
    requires Rooted(s) && t <= s && root <= |t|
    requires if PosixAbsolute(s) then root == 1 else root == 3
    ensures Rooted(t) && !BareDrive(t)
  {
  }

  /** Main result. Canonicalising twice is canonicalising once, if and only if the path does not end
      in a segment with white space at its end. */
  lemma IdempotentExactly(raw: string)
    requires Rootedly(raw).Some?
    ensures Canonicalize(raw).Path?
    ensures Canonicalize(Canonicalize(raw).text) == Canonicalize(raw)
      <==> !EndsInSpace(Says(raw))
  {
    var r := Says(raw);
    CanonicalizeSpells(raw);
    TrimOfSpell(r);
    CanonicalizeSpells(Spell(r));
    ReadOfSpell(r);
    NormaliseIsNoLonger(Trim(Spell(r)));
  }

  predicate PlainEnd(segment: string) {
    segment == "" || !IsSpace(segment[|segment| - 1])
  }

  predicate AllPlain(segments: seq<string>) {
    forall i :: 0 <= i < |segments| ==> PlainEnd(segments[i])
  }

  lemma {:induction false} WalkFrom(place: seq<string>, segments: seq<string>)
    requires AllPlain(place) && AllPlain(segments)
    ensures AllPlain(Walk(place, segments))
    decreases |segments|
  {
    if segments != [] {
      WalkFrom(Enter(place, segments[0]), segments[1..]);
    }
  }

  /** So it is idempotent on every path none of whose segments ends in white space. */
  lemma IdempotentOnPlainSegments(raw: string)
    ensures Rootedly(raw).Some? && AllPlain(Pieces(Rootedly(raw).value)) ==>
      Canonicalize(raw).Path? && Canonicalize(Canonicalize(raw).text) == Canonicalize(raw)
  {
    if Rootedly(raw).Some? && AllPlain(Pieces(Rootedly(raw).value)) {
      IdempotentExactly(raw);
      PlainReading(Rootedly(raw).value);
    }
  }

  lemma PlainReading(s: string)
    requires Rooted(s)
    requires AllPlain(Pieces(s))
    ensures !EndsInSpace(Read(s))
  {
    WalkFrom([], Pieces(s));
    var place := Walk([], Pieces(s));
    assert place == [] || PlainEnd(place[|place| - 1]);
  }

  /** The comment on the function promises idempotence without that condition. It fails for every
      segment with white space at its end that a dot segment keeps from being trimmed: the first
      time leaves it last, the second time trims it. */
  lemma SpaceBeforeDotBreaksIdempotence(segment: string) returns (raw: string)
    requires Clean(segment, '/') && '\\' !in segment && IsSpace(segment[|segment| - 1])
    ensures raw == "/" + segment + "/."
    ensures Canonicalize(raw).Path? && Canonicalize(Canonicalize(raw).text) != Canonicalize(raw)
  {
    raw := "/" + segment + "/.";
    PlaceOfSpaceBeforeDot(segment);
    BreaksAtSpace(raw, segment);
  }

  lemma BreaksAtSpace(raw: string, segment: string)
    requires PosixAbsolute(raw) && |raw| > 2 && !IsSpace(raw[|raw| - 1])
    requires Read(raw) == Reading(None, [segment], false)
    requires segment != "" && IsSpace(segment[|segment| - 1])
    ensures Canonicalize(raw).Path? && Canonicalize(Canonicalize(raw).text) != Canonicalize(raw)
  {
    TrimOfTrimmed(raw);
    assert Rootedly(raw) == Some(raw);
    assert EndsInSpace(Read(raw));
    IdempotentExactly(raw);
  }

  lemma PlaceOfSpaceBeforeDot(segment: string)
    requires Clean(segment, '/') && '\\' !in segment
    ensures
      var raw := "/" + segment + "/.";
      && PosixAbsolute(raw) && |raw| > 2 && raw[|raw| - 1] == '.'
      && Read(raw) == Reading(None, [segment], false)
  {
    var raw := "/" + segment + "/.";
    assert raw[1] == segment[0] && segment[0] in segment;
    assert Replace(raw, '\\', '/') == raw;
    assert Body(raw) == segment + ['/'] + ".";
    SplitFirst(segment, ".", '/');
    SplitFirst(".", "", '/');
    WalkOfClean([], [segment], '/');
    WalkToDot([], segment);
  }

  lemma WalkToDot(place: seq<string>, segment: string)
    requires Clean(segment, '/')
    ensures Walk(place, [segment] + ["."]) == place + [segment]
  {
    var pieces := [segment] + ["."];
    var next := place + [segment];
    assert pieces[1..] == ["."] && ["."][1..] == [];
    assert Walk(next, ["."]) == Walk(Enter(next, "."), []) == next;
  }

  lemma ForInstance()
    ensures Canonicalize("/a /.").Path? && Canonicalize(Canonicalize("/a /.").text) != Canonicalize("/a /.")
  {
    var segment := "a ";
    assert "/" + segment + "/." == "/a /.";
    var raw := SpaceBeforeDotBreaksIdempotence(segment);
  }
}
