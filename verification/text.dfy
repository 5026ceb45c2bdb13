/** String helpers shared by the viewer: JavaScript's `a || b` on strings,
    `Array.prototype.join`, `slice(0, n)` and `String.prototype.trim`. */
module Text {

  /** `s || fallback`: the empty string is falsy in JavaScript. */
  function OrElse(s: string, fallback: string): string {
    if s == "" then fallback else s
  }

  /** `xs.slice(0, n)`. */
  function Take<T>(xs: seq<T>, n: nat): seq<T> {
    if n <= |xs| then xs[..n] else xs
  }

  /** `parts.join(sep)`. */
  function Join(parts: seq<string>, sep: string): string
    decreases |parts|
  {
    if |parts| == 0 then ""
    else if |parts| == 1 then parts[0]
    else parts[0] + sep + Join(parts[1..], sep)
  }

  /** The characters `String.prototype.trim` strips: the ECMAScript WhiteSpace
      and LineTerminator code points. */
  predicate IsSpace(c: char) {
    c in {'\U{0009}', '\U{000A}', '\U{000B}', '\U{000C}', '\U{000D}', '\U{0020}',
          '\U{00A0}', '\U{1680}', '\U{2000}', '\U{2001}', '\U{2002}', '\U{2003}',
          '\U{2004}', '\U{2005}', '\U{2006}', '\U{2007}', '\U{2008}', '\U{2009}',
          '\U{200A}', '\U{2028}', '\U{2029}', '\U{202F}', '\U{205F}', '\U{3000}',
          '\U{FEFF}'}
  }

  predicate AllSpace(s: string) {
    forall t | 0 <= t < |s| :: IsSpace(s[t])
  }

  /** The first index at or after `k` that does not hold a space. */
  function SkipSpaces(s: string, k: nat): (i: nat)
    requires k <= |s|
    ensures k <= i <= |s|
    ensures forall t | k <= t < i :: IsSpace(s[t])
    ensures i < |s| ==> !IsSpace(s[i])
    decreases |s| - k
  {
    if k < |s| && IsSpace(s[k]) then SkipSpaces(s, k + 1) else k
  }

  /** The end of `s[lo..hi]` once its trailing spaces are dropped. */
  function SkipSpacesBack(s: string, lo: nat, hi: nat): (j: nat)
    requires lo <= hi <= |s|
    ensures lo <= j <= hi
    ensures forall t | j <= t < hi :: IsSpace(s[t])
    ensures lo < j ==> !IsSpace(s[j - 1])
    decreases hi - lo
  {
    if lo < hi && IsSpace(s[hi - 1]) then SkipSpacesBack(s, lo, hi - 1) else hi
  }

  /** `s.trim()`: the longest infix of `s` that neither starts nor ends with a
      space, obtained by dropping only spaces from both ends. */
  function Trim(s: string): (r: string)
    ensures |r| <= |s|
    ensures r == "" <==> AllSpace(s)
    ensures r != "" ==> !IsSpace(r[0]) && !IsSpace(r[|r| - 1])
  {
    var i := SkipSpaces(s, 0);
    var j := SkipSpacesBack(s, i, |s|);
    s[i..j]
  }

  /** Trimming is determined by the characters it keeps: surrounding any
      space-free-ended text with spaces and trimming gives the text back. */
  lemma {:induction false} TrimRecoversCore(a: string, m: string, b: string)
    requires AllSpace(a) && AllSpace(b)
    requires m != "" && !IsSpace(m[0]) && !IsSpace(m[|m| - 1])
    ensures Trim(a + m + b) == m
  {
    var s := a + m + b;
    assert s[|a|] == m[0] && !IsSpace(s[|a|]);
    assert forall t | 0 <= t < |a| :: s[t] == a[t] && IsSpace(s[t]);
    var i := SkipSpaces(s, 0);
    assert i == |a|;
    var j := SkipSpacesBack(s, i, |s|);
    assert s[|a| + |m| - 1] == m[|m| - 1] && !IsSpace(s[|a| + |m| - 1]);
    assert forall t | |a| + |m| <= t < |s| :: s[t] == b[t - |a| - |m|] && IsSpace(s[t]);
    assert j == |a| + |m|;
    assert s[i..j] == m;
  }
}
