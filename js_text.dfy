/**
 * JavaScript's notion of white space, shared by the regular-expression
 * class `\s` and by `String.prototype.trim`: the WhiteSpace and
 * LineTerminator characters of ECMAScript. Strings are sequences of Unicode
 * scalar values here, where JavaScript counts UTF-16 code units.
 */
module JsText {

  predicate IsSpace(c: char)
  {
    || c == ' ' || c == '\t' || c == '\n' || c == '\r'
    || c == '\U{B}' || c == '\U{C}' || c == '\U{A0}' || c == '\U{1680}'
    || ('\U{2000}' <= c <= '\U{200A}')
    || c == '\U{2028}' || c == '\U{2029}' || c == '\U{202F}' || c == '\U{205F}'
    || c == '\U{3000}' || c == '\U{FEFF}'
  }

  predicate AllSpace(s: string)
  {
    forall i :: 0 <= i < |s| ==> IsSpace(s[i])
  }

  /** Drops leading white space. */
  function TrimStart(s: string): (r: string)
    ensures |r| <= |s| && r == s[|s| - |r|..]
    ensures AllSpace(s[..|s| - |r|])
    ensures r != [] ==> !IsSpace(r[0])
  {
    if s != [] && IsSpace(s[0]) then
      var r := TrimStart(s[1..]);
      assert s[1..][..|s| - 1 - |r|] == s[1..|s| - |r|];
      r
    else s
  }

  /** Drops trailing white space. */
  function TrimEnd(s: string): (r: string)
    ensures |r| <= |s| && r == s[..|r|]
    ensures AllSpace(s[|r|..])
    ensures r != [] ==> !IsSpace(r[|r| - 1])
  {
    if s != [] && IsSpace(s[|s| - 1]) then
      var r := TrimEnd(s[..|s| - 1]);
      assert s[..|s| - 1][|r|..] + [s[|s| - 1]] == s[|r|..];
      r
    else s
  }

  /** A suffix of a prefix of `s` is a slice of `s`. */
  lemma SuffixOfPrefix(s: string, t: string, r: string)
    requires |t| <= |s| && t == s[..|t|] && |r| <= |t| && r == t[|t| - |r|..]
    ensures r == s[|t| - |r|..|t|] && s[..|t| - |r|] == t[..|t| - |r|]
  {
  }

  /** Trimming both ends keeps the middle of `s`, between a white-space
      prefix and a white-space suffix. */
  lemma TrimBothEnds(s: string)
    ensures var t := TrimEnd(s); var r := TrimStart(t);
            && r == s[|t| - |r|..|t|]
            && AllSpace(s[..|t| - |r|]) && AllSpace(s[|t|..])
  {
    SuffixOfPrefix(s, TrimEnd(s), TrimStart(TrimEnd(s)));
  }

  /** A string cut into two all white-space pieces is all white space. */
  lemma AllSpaceConcat(s: string, k: int)
    requires 0 <= k <= |s| && AllSpace(s[..k]) && AllSpace(s[k..])
    ensures AllSpace(s)
  {
    forall i | 0 <= i < |s| ensures IsSpace(s[i]) {
      if i < k {
        assert s[i] == s[..k][i];
      } else {
        assert s[i] == s[k..][i - k];
      }
    }
  }

  /** `String.prototype.trim`: the middle of `s` between a white-space
      prefix and a white-space suffix; empty exactly when the string is all
      white space, and otherwise starting and ending with a visible character. */
  function Trim(s: string): (r: string)
    ensures var i := |TrimEnd(s)| - |r|;
            && 0 <= i && i + |r| <= |s| && r == s[i..i + |r|]
            && AllSpace(s[..i]) && AllSpace(s[i + |r|..])
    ensures r == [] <==> AllSpace(s)
    ensures r != [] ==> !IsSpace(r[0]) && !IsSpace(r[|r| - 1])
  {
    TrimBothEnds(s);
    var t := TrimEnd(s);
    var r := TrimStart(t);
    if r == [] then
      AllSpaceConcat(s, |t|);
      r
    else
      assert r[0] == s[|t| - |r|];
      r
  }
}
