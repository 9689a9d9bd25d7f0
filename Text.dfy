/** Character classes and string helpers that the application takes from
    JavaScript: `String.prototype.trim`, the regular-expression class `\s`,
    `startsWith`, and `toLowerCase` on the ASCII letters. */
module Text {

  /** A line terminator in the sense of ECMAScript (the characters `.` does not match). */
  predicate IsLineTerminator(c: char)
  {
    c == '\n' || c == '\r' || c == '\U{2028}' || c == '\U{2029}'
  }

  /** ECMAScript WhiteSpace or LineTerminator: what `trim` removes and what `\s` matches. */
  predicate IsWhite(c: char)
  {
    || IsLineTerminator(c)
    || c == ' ' || c == '\t' || c == '\U{000B}' || c == '\U{000C}'
    || c == '\U{00A0}' || c == '\U{FEFF}' || c == '\U{1680}'
    || ('\U{2000}' <= c <= '\U{200A}')
    || c == '\U{202F}' || c == '\U{205F}' || c == '\U{3000}'
  }

  /** Every character of `s` from position `a` up to (not including) `b` is white. */
  predicate WhiteBetween(s: string, a: nat, b: nat)
    requires a <= b <= |s|
  {
    forall k :: a <= k < b ==> IsWhite(s[k])
  }

  predicate StartsWith(s: string, prefix: string)
  {
    |prefix| <= |s| && s[..|prefix|] == prefix
  }

  /** A string that differs from `prefix` at some position inside both does not start with it. */
  lemma DiffersAt(s: string, prefix: string, i: nat)
    requires i < |prefix| && i < |s| && s[i] != prefix[i]
    ensures !StartsWith(s, prefix)
  {
    if |prefix| <= |s| {
      assert s[..|prefix|][i] == s[i];
    }
  }

  /** The end of the run of white characters that starts at `i`. */
  function WhiteEnd(s: string, i: nat): (e: nat)
    requires i <= |s|
    ensures i <= e <= |s| && WhiteBetween(s, i, e)
    ensures e == |s| || !IsWhite(s[e])
    decreases |s| - i
  {
    if i == |s| || !IsWhite(s[i]) then i else WhiteEnd(s, i + 1)
  }

  /** The start of the run of white characters that ends at `j`, not going below `lo`. */
  function WhiteStart(s: string, lo: nat, j: nat): (b: nat)
    requires lo <= j <= |s|
    ensures lo <= b <= j && WhiteBetween(s, b, j)
    ensures b == lo || !IsWhite(s[b - 1])
    decreases j
  {
    if j == lo || !IsWhite(s[j - 1]) then j else WhiteStart(s, lo, j - 1)
  }

  /** `String.prototype.trim`: the text between the leading and the trailing white space. */
  function Trim(s: string): (r: string)
    ensures |r| <= |s|
    ensures r == [] || (!IsWhite(r[0]) && !IsWhite(r[|r| - 1]))
    ensures exists lo :: 0 <= lo <= |s| - |r| && s[lo..lo + |r|] == r
                         && WhiteBetween(s, 0, lo) && WhiteBetween(s, lo + |r|, |s|)
  {
    var lo := WhiteEnd(s, 0);
    var hi := WhiteStart(s, lo, |s|);
    var r := s[lo..hi];
    assert r != [] ==> r[0] == s[lo] && r[|r| - 1] == s[hi - 1];
    assert s[lo..lo + |r|] == r;
    r
  }

  /** Text that neither starts nor ends with white space is its own trim. */
  lemma TrimUnchanged(s: string)
    requires s != [] && !IsWhite(s[0]) && !IsWhite(s[|s| - 1])
    ensures Trim(s) == s
  {
    assert WhiteEnd(s, 0) == 0;
    assert WhiteStart(s, 0, |s|) == |s|;
    assert s[0..|s|] == s;
  }

  /** `toLowerCase` restricted to ASCII: `A`-`Z` become `a`-`z`, every other character is kept. */
  function LowerChar(c: char): (d: char)
    ensures ('A' <= c <= 'Z') ==> 'a' <= d <= 'z'
    ensures !('A' <= c <= 'Z') ==> d == c
  {
    if 'A' <= c <= 'Z' then (c as int - 'A' as int + 'a' as int) as char else c
  }

  function ToLower(s: string): (r: string)
    ensures |r| == |s|
    ensures forall k :: 0 <= k < |s| ==> r[k] == LowerChar(s[k])
  {
    if s == [] then [] else [LowerChar(s[0])] + ToLower(s[1..])
  }

  /** Lower-casing twice is lower-casing once. */
  lemma {:induction false} ToLowerIdempotent(s: string)
    ensures ToLower(ToLower(s)) == ToLower(s)
  {
    if s != [] {
      ToLowerIdempotent(s[1..]);
      assert ToLower(s)[1..] == ToLower(s[1..]);
    }
  }

  /** Case-insensitive equality on ASCII letters, as the `i` flag of a regular expression compares. */
  predicate EqualsIgnoreCase(a: string, b: string)
  {
    |a| == |b| && forall k :: 0 <= k < |a| ==> LowerChar(a[k]) == LowerChar(b[k])
  }
}
