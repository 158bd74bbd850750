/** The string operations behind the case-insensitive repository queries and
    the non-blank validation constraint. Case mapping covers ASCII only. */
module Text {

  /** ASCII lower-casing of one character; every other character is kept. */
  function LowerChar(c: char): (d: char)
    ensures 'A' <= c <= 'Z' ==> 'a' <= d <= 'z' && d as int - c as int == 32
    ensures !('A' <= c <= 'Z') ==> d == c
  {
    if 'A' <= c <= 'Z' then (c as int + 32) as char else c
  }

  function Lower(s: string): (t: string)
    ensures |t| == |s|
    ensures forall i :: 0 <= i < |s| ==> t[i] == LowerChar(s[i])
  {
    if s == [] then [] else [LowerChar(s[0])] + Lower(s[1..])
  }

  /** `t` occurs in `s` starting at index `i`. */
  ghost predicate OccursAt(s: string, t: string, i: int) {
    0 <= i && i + |t| <= |s| && s[i..i + |t|] == t
  }

  /** `s` contains `t` as a contiguous substring. */
  function Contains(s: string, t: string): (b: bool)
    ensures b <==> exists i :: OccursAt(s, t, i)
  {
    if |t| > |s| then
      false
    else if s[..|t|] == t then
      assert OccursAt(s, t, 0);
      true
    else
      OccursAfterFirst(s, t);
      Contains(s[1..], t)
  }

  /** An occurrence in the tail of `s` is an occurrence in `s` one index on;
      an occurrence at index 0 is told apart by the prefix. */
  lemma OccursAfterFirst(s: string, t: string)
    requires |t| <= |s| && s[..|t|] != t
    ensures (exists i :: OccursAt(s[1..], t, i)) <==> (exists i :: OccursAt(s, t, i))
  {
    if exists i :: OccursAt(s[1..], t, i) {
      var i :| OccursAt(s[1..], t, i);
      assert s[1..][i..i + |t|] == s[i + 1..i + 1 + |t|];
      assert OccursAt(s, t, i + 1);
    }
    if exists i :: OccursAt(s, t, i) {
      var i :| OccursAt(s, t, i);
      assert i != 0;
      assert s[i..i + |t|] == s[1..][i - 1..i - 1 + |t|];
      assert OccursAt(s[1..], t, i - 1);
    }
  }

  /** The characters Java's `String.trim` removes: every code point up to
      and including the space. */
  predicate IsTrimmed(c: char) {
    c <= ' '
  }

  function TrimStart(s: string): (t: string)
    ensures |t| <= |s| && t == s[|s| - |t|..]
    ensures t != [] ==> !IsTrimmed(t[0])
    ensures forall i :: 0 <= i < |s| - |t| ==> IsTrimmed(s[i])
  {
    if s != [] && IsTrimmed(s[0]) then TrimStart(s[1..]) else s
  }

  function TrimEnd(s: string): (t: string)
    ensures |t| <= |s| && t == s[..|t|]
    ensures t != [] ==> !IsTrimmed(t[|t| - 1])
    ensures forall i :: |t| <= i < |s| ==> IsTrimmed(s[i])
  {
    if s != [] && IsTrimmed(s[|s| - 1]) then TrimEnd(s[..|s| - 1]) else s
  }

  /** Java's `String.trim`: leading and trailing code points up to and
      including the space removed. */
  function Trim(s: string): (t: string) {
    TrimEnd(TrimStart(s))
  }

  /** A string is not blank when trimming it leaves something, which is
      exactly when it holds a character above the space. */
  lemma NotBlankIffVisibleChar(s: string)
    ensures |Trim(s)| > 0 <==> exists i :: 0 <= i < |s| && !IsTrimmed(s[i])
  {
  }
}
