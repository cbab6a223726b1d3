/**
  `String.prototype.trim` as the popup uses it on every final transcript:
  it strips the ECMAScript WhiteSpace and LineTerminator code points from
  both ends of a string and keeps the middle untouched.
 */
module JsText {

  /** ECMAScript WhiteSpace (TAB, VT, FF, SP, NBSP, ZWNBSP and the other Zs
      code points) and LineTerminator (LF, CR, LS, PS). */
  predicate IsWhite(c: char) {
    c == '\U{0009}' || c == '\U{000A}' || c == '\U{000B}' || c == '\U{000C}' ||
    c == '\U{000D}' || c == '\U{0020}' || c == '\U{00A0}' || c == '\U{1680}' ||
    ('\U{2000}' <= c <= '\U{200A}') || c == '\U{2028}' || c == '\U{2029}' ||
    c == '\U{202F}' || c == '\U{205F}' || c == '\U{3000}' || c == '\U{FEFF}'
  }

  predicate AllWhite(s: string) {
    forall i :: 0 <= i < |s| ==> IsWhite(s[i])
  }

  /** How many white-space characters `s` starts with. */
  function LeadingWhite(s: string): (n: nat)
    ensures n <= |s| && AllWhite(s[..n])
    ensures n < |s| ==> !IsWhite(s[n])
  {
    if s == [] || !IsWhite(s[0]) then 0
    else
      var m := LeadingWhite(s[1..]);
      m + 1
  }

  /** How many white-space characters `s` ends with. */
  function TrailingWhite(s: string): (n: nat)
    ensures n <= |s| && AllWhite(s[|s| - n..])
    ensures n < |s| ==> !IsWhite(s[|s| - n - 1])
  {
    if s == [] || !IsWhite(s[|s| - 1]) then 0
    else
      var t := s[..|s| - 1];
      var m := TrailingWhite(t);
      m + 1
  }

  /**
    `trim`: the result is the part of `s` left after removing its longest
    white-space prefix and then the longest white-space suffix of the rest;
    it neither starts nor ends with white space.
   */
  function Trim(s: string): (r: string)
    ensures var i := LeadingWhite(s);
      i + |r| <= |s| && r == s[i..i + |r|] && AllWhite(s[..i]) && AllWhite(s[i + |r|..])
    ensures r != [] ==> !IsWhite(r[0]) && !IsWhite(r[|r| - 1])
    ensures r == [] <==> AllWhite(s)
  {
    var i := LeadingWhite(s);
    var t := s[i..];
    var r := t[..|t| - TrailingWhite(t)];
    TrimmedMiddle(s, i, t, r);
    r
  }

  /** The facts `Trim` promises, for its own choice of prefix and suffix. */
  lemma TrimmedMiddle(s: string, i: nat, t: string, r: string)
    requires i == LeadingWhite(s) && t == s[i..] && r == t[..|t| - TrailingWhite(t)]
    ensures i + |r| <= |s| && r == s[i..i + |r|] && AllWhite(s[..i]) && AllWhite(s[i + |r|..])
    ensures r != [] ==> !IsWhite(r[0]) && !IsWhite(r[|r| - 1])
    ensures r == [] <==> AllWhite(s)
  {
    var j := TrailingWhite(t);
    assert s[i + |r|..] == t[|t| - j..];
    if r == [] {
      assert i == |s| by {
        if i < |s| {
          assert false;
        }
      }
      assert s == s[..i];
    } else {
      assert r[0] == s[i];
      assert r[|r| - 1] == t[|t| - j - 1];
    }
  }
}
