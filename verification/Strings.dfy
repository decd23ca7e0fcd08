/** The string operations of the source language that the models need: searching and trimming. */
module Strings {

  /** The white space that trimming removes. */
  predicate IsSpace(c: char) {
    || '\t' <= c <= '\r'
    || c == ' '
    || c in {'\U{00A0}', '\U{1680}', '\U{2028}', '\U{2029}', '\U{202F}', '\U{205F}', '\U{3000}', '\U{FEFF}'}
    || '\U{2000}' <= c <= '\U{200A}'
  }

  /** The code points of WhiteSpace and LineTerminator in ECMA-262, sections 12.2 and 12.3. */
  lemma SpaceExactly(c: char)
    ensures IsSpace(c) <==>
      || c as int in {0x9, 0xA, 0xB, 0xC, 0xD, 0x20, 0xA0, 0x1680, 0x2028, 0x2029, 0x202F, 0x205F, 0x3000, 0xFEFF}
      || 0x2000 <= c as int <= 0x200A
  {
  }

  function TrimStart(s: string): (t: string)
    ensures t == "" || !IsSpace(t[0])
    ensures |t| <= |s| && t == s[|s| - |t|..]
    ensures forall i :: 0 <= i < |s| - |t| ==> IsSpace(s[i])
  {
    if s != "" && IsSpace(s[0]) then TrimStart(s[1..]) else s
  }

  function TrimEnd(s: string): (t: string)
    ensures t == "" || !IsSpace(t[|t| - 1])
    ensures |t| <= |s| && t == s[..|t|]
    ensures forall i :: |t| <= i < |s| ==> IsSpace(s[i])
  {
    if s != "" && IsSpace(s[|s| - 1]) then TrimEnd(s[..|s| - 1]) else s
  }

  /** Both ends. What is left starts and ends with something that is not white space. */
  function Trim(s: string): (t: string)
    ensures t == "" || (!IsSpace(t[0]) && !IsSpace(t[|t| - 1]))
  {
    TrimEnd(TrimStart(s))
  }

  predicate Trimmed(s: string) {
    s == "" || (!IsSpace(s[0]) && !IsSpace(s[|s| - 1]))
  }

  lemma TrimOfTrimmed(s: string)
    requires Trimmed(s)
    ensures Trim(s) == s
  {
  }

  /** A first part that starts and ends with something that is not white space survives trimming. */
  lemma TrimKeepsRoot(root: string, s: string)
    requires root != "" && root <= s && Trimmed(root)
    ensures root <= Trim(s) <= s
    ensures Trim(s) == s <==> !IsSpace(s[|s| - 1])
  {
    assert s[0] == root[0];
    assert TrimStart(s) == s;
    var t := TrimEnd(s);
    assert s[|root| - 1] == root[|root| - 1];
    assert |t| >= |root|;
    assert t[..|root|] == s[..|root|] == root;
  }

  /** `s.slice(0, n)`: a count past the end takes everything. */
  function Take(s: string, n: nat): string {
    if n <= |s| then s[..n] else s
  }
}
