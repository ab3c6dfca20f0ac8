/**
 * The part of JavaScript's `String.prototype.trim` that the task list relies on:
 * removing leading and trailing white space, and the test `s.trim() === ""`.
 */
module JsString {

  /**
   * The code points ECMAScript treats as white space or line terminators:
   * TAB, LF, VT, FF, CR, SPACE, NO-BREAK SPACE, the Unicode space separators
   * (category Zs), LINE SEPARATOR, PARAGRAPH SEPARATOR and the byte-order mark.
   */
  predicate IsWhitespace(c: char) {
    c == '\t' || c == '\n' || c == '\U{B}' || c == '\U{C}' || c == '\r' || c == ' '
    || c == '\U{A0}' || c == '\U{1680}' || ('\U{2000}' <= c <= '\U{200A}')
    || c == '\U{2028}' || c == '\U{2029}' || c == '\U{202F}' || c == '\U{205F}'
    || c == '\U{3000}' || c == '\U{FEFF}'
  }

  /** A string made of white space only (the empty string included). */
  predicate IsBlank(s: string) {
    forall i :: 0 <= i < |s| ==> IsWhitespace(s[i])
  }

  /** The number of white-space characters at the start of `s`. */
  function LeadingSpace(s: string): (n: nat)
    ensures n <= |s|
    ensures forall i :: 0 <= i < n ==> IsWhitespace(s[i])
    ensures n < |s| ==> !IsWhitespace(s[n])
  {
    if s == [] || !IsWhitespace(s[0]) then 0
    else
      var m := LeadingSpace(s[1..]);
      assert forall i :: 1 <= i < m + 1 ==> s[i] == s[1..][i - 1];
      m + 1
  }

  /** The number of white-space characters at the end of `s`. */
  function TrailingSpace(s: string): (n: nat)
    ensures n <= |s|
    ensures forall i :: |s| - n <= i < |s| ==> IsWhitespace(s[i])
    ensures n < |s| ==> !IsWhitespace(s[|s| - 1 - n])
  {
    if s == [] || !IsWhitespace(s[|s| - 1]) then 0
    else
      var m := TrailingSpace(s[..|s| - 1]);
      assert forall i :: |s| - 1 - m <= i < |s| - 1 ==> s[i] == s[..|s| - 1][i];
      m + 1
  }

  /** `s` with its leading white space removed. */
  function TrimStart(s: string): (r: string)
    ensures |r| <= |s| && r == s[|s| - |r|..]
    ensures forall i :: 0 <= i < |s| - |r| ==> IsWhitespace(s[i])
    ensures r == [] || !IsWhitespace(r[0])
  {
    s[LeadingSpace(s)..]
  }

  /** `s` with its trailing white space removed. */
  function TrimEnd(s: string): (r: string)
    ensures |r| <= |s| && r == s[..|r|]
    ensures forall i :: |r| <= i < |s| ==> IsWhitespace(s[i])
    ensures r == [] || !IsWhitespace(r[|r| - 1])
  {
    s[..|s| - TrailingSpace(s)]
  }

  /**
   * `s.trim()`: white space removed from both ends. What is left is the slice
   * of `s` that starts after the leading white space and ends before the
   * trailing white space.
   */
  function Trim(s: string): (r: string)
    ensures r == [] || (!IsWhitespace(r[0]) && !IsWhitespace(r[|r| - 1]))
    ensures var k := LeadingSpace(s);
      k + |r| <= |s| && r == s[k..k + |r|]
      && (forall i :: 0 <= i < k ==> IsWhitespace(s[i]))
      && (forall i :: k + |r| <= i < |s| ==> IsWhitespace(s[i]))
  {
    var k := LeadingSpace(s);
    var t := TrimStart(s);
    var r := TrimEnd(t);
    SliceOfSlice(s, k, t, r);
    SuffixAll(s, k, t, |r|, IsWhitespace);
    r
  }

  /** A prefix `r` of the suffix `t == s[k..]` is the slice of `s` from `k`. */
  lemma SliceOfSlice<T>(s: seq<T>, k: nat, t: seq<T>, r: seq<T>)
    requires k <= |s| && t == s[k..]
    requires |r| <= |t| && r == t[..|r|]
    ensures k + |r| <= |s| && r == s[k..k + |r|]
  {
  }

  /** What holds of every element of `t == s[k..]` from position `j` holds of `s` from `k + j`. */
  lemma SuffixAll<T>(s: seq<T>, k: nat, t: seq<T>, j: nat, p: T -> bool)
    requires k <= |s| && t == s[k..] && j <= |t|
    requires forall i :: j <= i < |t| ==> p(t[i])
    ensures forall i :: k + j <= i < |s| ==> p(s[i])
  {
    forall i | k + j <= i < |s| ensures p(s[i]) {
      assert s[i] == t[i - k];
    }
  }

  /** `s.trim() === ""` holds exactly for the strings made of white space only. */
  lemma TrimEmptyIffBlank(s: string)
    ensures Trim(s) == [] <==> IsBlank(s)
  {
    var k := LeadingSpace(s);
    if Trim(s) != [] {
      assert Trim(s)[0] == s[k];
    }
  }
}
