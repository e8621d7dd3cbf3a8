/**
 * The pieces of JavaScript string semantics the application relies on:
 * the white-space class shared by `\s` and `String.prototype.trim`,
 * the line terminators that `.` in a regular expression refuses,
 * `trim`, `toLowerCase` and `slice` with a negative end.
 */
module JsText {

  /** ECMAScript WhiteSpace and LineTerminator code points: the set `\s` matches and `trim` strips. */
  predicate IsWhitespace(c: char) {
    || c == '\t' || c == '\n' || c == '\U{000B}' || c == '\U{000C}' || c == '\r' || c == ' '
    || c == '\U{00A0}' || c == '\U{1680}' || ('\U{2000}' <= c <= '\U{200A}')
    || c == '\U{2028}' || c == '\U{2029}' || c == '\U{202F}' || c == '\U{205F}'
    || c == '\U{3000}' || c == '\U{FEFF}'
  }

  /** The code points a regular-expression `.` does not match. */
  predicate IsLineTerminator(c: char) {
    c == '\n' || c == '\r' || c == '\U{2028}' || c == '\U{2029}'
  }

  predicate IsBlank(s: string) {
    forall i :: 0 <= i < |s| ==> IsWhitespace(s[i])
  }

  predicate HasNoWhitespace(s: string) {
    forall i :: 0 <= i < |s| ==> !IsWhitespace(s[i])
  }

  /** Number of white-space characters at the front of `s`. */
  function LeadingWhitespace(s: string): (k: nat)
    ensures k <= |s|
    ensures IsBlank(s[..k])
    ensures k == |s| || !IsWhitespace(s[k])
  {
    if s == [] || !IsWhitespace(s[0]) then 0
    else
      var k := 1 + LeadingWhitespace(s[1..]);
      assert forall i :: 1 <= i < k ==> s[i] == s[1..][i - 1];
      k
  }

  /** Number of white-space characters at the back of `s`. */
  function TrailingWhitespace(s: string): (k: nat)
    ensures k <= |s|
    ensures IsBlank(s[|s| - k..])
    ensures k == |s| || !IsWhitespace(s[|s| - k - 1])
  {
    if s == [] || !IsWhitespace(s[|s| - 1]) then 0
    else
      var k := 1 + TrailingWhitespace(s[..|s| - 1]);
      assert forall i :: |s| - k <= i < |s| - 1 ==> s[i] == s[..|s| - 1][i];
      k
  }

  /** `s.trimStart()`. */
  function TrimStart(s: string): (r: string)
    ensures |r| <= |s| && r == s[|s| - |r|..]
    ensures IsBlank(s[..|s| - |r|])
    ensures r == [] || !IsWhitespace(r[0])
  {
    s[LeadingWhitespace(s)..]
  }

  /** `s.trim()`: `s` without its leading and trailing white space. */
  function Trim(s: string): (r: string)
    ensures r == [] <==> IsBlank(s)
    ensures r != [] ==> !IsWhitespace(r[0]) && !IsWhitespace(r[|r| - 1])
    ensures LeadingWhitespace(s) + |r| <= |s|
    ensures r == s[LeadingWhitespace(s)..LeadingWhitespace(s) + |r|]
  {
    var a := LeadingWhitespace(s);
    var b := TrailingWhitespace(s[a..]);
    TrimEmptyIffBlank(s, a, b);
    SuffixChar(s, a, b);
    s[a..|s| - b]
  }

  /** `trim()` drops white space only: every character before and after the trimmed text is white space. */
  lemma TrimDropsOnlyWhitespace(s: string)
    ensures forall i :: 0 <= i < LeadingWhitespace(s) ==> IsWhitespace(s[i])
    ensures forall i :: LeadingWhitespace(s) + |Trim(s)| <= i < |s| ==> IsWhitespace(s[i])
  {
    var a := LeadingWhitespace(s);
    var b := TrailingWhitespace(s[a..]);
    BlankEnd(s, a, b);
    assert |Trim(s)| == |s| - b - a;
    assert forall i :: 0 <= i < a ==> s[..a][i] == s[i];
  }

  /** White space ending the part of `s` after position `a` ends `s` itself. */
  lemma BlankEnd(s: string, a: nat, b: nat)
    requires a + b <= |s|
    requires IsBlank(s[a..][|s| - a - b..])
    ensures forall i :: |s| - b <= i < |s| ==> IsWhitespace(s[i])
  {
    forall i | |s| - b <= i < |s|
      ensures IsWhitespace(s[i])
    {
      assert s[a..][|s| - a - b..][i - (|s| - b)] == s[i];
    }
  }

  /** The trimmed text is empty exactly when `s` is all white space. */
  lemma TrimEmptyIffBlank(s: string, a: nat, b: nat)
    requires a == LeadingWhitespace(s) && b == TrailingWhitespace(s[a..])
    ensures a == |s| - b <==> IsBlank(s)
  {
    if a == |s| - b {
      assert s[a..][|s[a..]| - b..] == s[a..];
      BlankHalves(s, a);
    } else {
      assert !IsWhitespace(s[a]);
    }
  }

  /** Two blank halves make a blank string. */
  lemma BlankHalves(s: string, a: nat)
    requires a <= |s| && IsBlank(s[..a]) && IsBlank(s[a..])
    ensures IsBlank(s)
  {
    forall i | 0 <= i < |s|
      ensures IsWhitespace(s[i])
    {
      if i < a {
        assert s[..a][i] == s[i];
      } else {
        assert s[a..][i - a] == s[i];
      }
    }
  }

  /** The character before the last `b` of a suffix of `s` is the one before the last `b` of `s`. */
  lemma SuffixChar(s: string, a: nat, b: nat)
    ensures a + b < |s| ==> s[a..][|s| - a - b - 1] == s[|s| - b - 1]
  {
  }

  /** A string already without leading or trailing white space is its own trim. */
  lemma {:induction false} TrimIdempotent(s: string)
    ensures Trim(Trim(s)) == Trim(s)
  {
    var r := Trim(s);
    if r != [] {
      assert LeadingWhitespace(r) == 0;
      assert TrailingWhitespace(r) == 0;
    }
  }

  /** `c.toLowerCase()` on the Basic Latin letters. */
  function LowerChar(c: char): (d: char)
    ensures IsWhitespace(d) <==> IsWhitespace(c)
    ensures 'A' <= c <= 'Z' ==> d as int == c as int + 32
    ensures !('A' <= c <= 'Z') ==> d == c
  {
    if 'A' <= c <= 'Z' then (c as int + 32) as char else c
  }

  /** `s.toLowerCase()`, letter by letter. */
  function Lower(s: string): (r: string)
    ensures |r| == |s|
    ensures forall i :: 0 <= i < |s| ==> r[i] == LowerChar(s[i])
    ensures HasNoWhitespace(s) ==> HasNoWhitespace(r)
  {
    seq(|s|, i requires 0 <= i < |s| => LowerChar(s[i]))
  }

  /** Lower-casing twice is lower-casing once. */
  lemma LowerIdempotent(s: string)
    ensures Lower(Lower(s)) == Lower(s)
  {
    assert forall i :: 0 <= i < |s| ==> !('A' <= Lower(s)[i] <= 'Z');
  }

  /** Joining strings without white space gives a string without white space. */
  lemma NoWhitespaceConcat(a: string, b: string)
    requires HasNoWhitespace(a) && HasNoWhitespace(b)
    ensures HasNoWhitespace(a + b)
  {
    forall i | 0 <= i < |a + b|
      ensures !IsWhitespace((a + b)[i])
    {
      if i >= |a| {
        assert (a + b)[i] == b[i - |a|];
      }
    }
  }

  predicate StartsWith(s: string, prefix: string) {
    |prefix| <= |s| && s[..|prefix|] == prefix
  }

  predicate EndsWith(s: string, suffix: string) {
    |suffix| <= |s| && s[|s| - |suffix|..] == suffix
  }

  /**
   * `s.slice(start, -fromEnd)` for a positive `fromEnd`: the characters from
   * `start` up to `fromEnd` before the end, or "" when those bounds cross.
   */
  function SliceInner(s: string, start: nat, fromEnd: nat): (r: string)
    requires fromEnd > 0
    ensures start + fromEnd <= |s| ==> r == s[start..|s| - fromEnd]
    ensures start + fromEnd >= |s| ==> r == []
  {
    if start + fromEnd >= |s| then [] else s[start..|s| - fromEnd]
  }
}
