/** The string primitives the core relies on: Python's `str.find`, `str.rfind`,
    `in`, `str.strip`, `startswith`/`endswith`, and JavaScript's `includes`,
    the `\s` class of regular expressions and ASCII `toLowerCase`. */
module Strings {

  /** `pat` occurs in `s` starting at index `k`. */
  predicate OccursAt(s: string, pat: string, k: int)
  {
    0 <= k && k + |pat| <= |s| && s[k..k + |pat|] == pat
  }

  /** Python's `s.find(pat, from)`: the first index at or after `from` where `pat`
      occurs, or -1 when there is none. */
  function Find(s: string, pat: string, from: nat): (r: int)
    requires from <= |s|
    ensures r == -1 || (from <= r && OccursAt(s, pat, r))
    ensures r == -1 ==> forall k :: from <= k ==> !OccursAt(s, pat, k)
    ensures r != -1 ==> forall k :: from <= k < r ==> !OccursAt(s, pat, k)
    decreases |s| - from
  {
    if from + |pat| > |s| then -1
    else if s[from..from + |pat|] == pat then from
    else Find(s, pat, from + 1)
  }

  /** The last index at or before `k` where `pat` occurs, or -1. */
  function FindLastFrom(s: string, pat: string, k: int): (r: int)
    requires k + |pat| <= |s|
    ensures r == -1 || (0 <= r <= k && OccursAt(s, pat, r))
    ensures forall j :: r < j <= k ==> !OccursAt(s, pat, j)
    decreases k + 1
  {
    if k < 0 then -1
    else if s[k..k + |pat|] == pat then k
    else FindLastFrom(s, pat, k - 1)
  }

  /** Python's `s.rfind(pat)`: the last index where `pat` occurs, or -1. */
  function RFind(s: string, pat: string): (r: int)
    ensures r == -1 || OccursAt(s, pat, r)
    ensures r == -1 ==> forall k :: !OccursAt(s, pat, k)
    ensures r != -1 ==> forall k :: r < k ==> !OccursAt(s, pat, k)
  {
    FindLastFrom(s, pat, |s| - |pat|)
  }

  /** Python's `pat in s` and JavaScript's `s.includes(pat)`. */
  predicate Contains(s: string, pat: string)
  {
    Find(s, pat, 0) >= 0
  }

  lemma ContainsIff(s: string, pat: string)
    ensures Contains(s, pat) <==> exists k :: OccursAt(s, pat, k)
  {
  }

  /** An occurrence inside a slice is an occurrence in the whole string. */
  lemma OccursInSlice(s: string, lo: nat, hi: nat, pat: string, k: int)
    requires lo <= hi <= |s| && OccursAt(s[lo..hi], pat, k)
    ensures OccursAt(s, pat, lo + k)
  {
    var t := s[lo..hi];
    forall j | 0 <= j < |pat| ensures pat[j] == s[lo + k..lo + k + |pat|][j] {
      assert pat[j] == t[k + j];
    }
  }

  /** For a one-character pattern, `find` gives the first index holding that character. */
  lemma FindChar(s: string, c: char)
    ensures var r := Find(s, [c], 0);
            r >= 0 ==> s[r] == c && forall k :: 0 <= k < r ==> s[k] != c
  {
    var r := Find(s, [c], 0);
    if r >= 0 {
      assert s[r..r + 1] == [s[r]];
      forall k | 0 <= k < r ensures s[k] != c {
        assert !OccursAt(s, [c], k);
        assert s[k..k + 1] == [s[k]];
      }
    }
  }

  predicate StartsWith(s: string, p: string)
  {
    |p| <= |s| && s[..|p|] == p
  }

  predicate EndsWith(s: string, p: string)
  {
    |p| <= |s| && s[|s| - |p|..] == p
  }

  /** The characters for which Python's `str.isspace()` holds, and so the ones
      `str.strip()` removes. */
  predicate IsPySpace(c: char)
  {
    || '\t' <= c <= '\r'
    || '\U{1C}' <= c <= ' '
    || c == '\U{85}' || c == '\U{A0}' || c == '\U{1680}'
    || '\U{2000}' <= c <= '\U{200A}'
    || c == '\U{2028}' || c == '\U{2029}' || c == '\U{202F}' || c == '\U{205F}' || c == '\U{3000}'
  }

  /** The index of the first character of `s` at or after `a` that is not
      whitespace, or `|s|`. */
  function SkipPySpace(s: string, a: nat): (r: nat)
    requires a <= |s|
    ensures a <= r <= |s|
    ensures forall i :: a <= i < r ==> IsPySpace(s[i])
    ensures r < |s| ==> !IsPySpace(s[r])
    decreases |s| - a
  {
    if a < |s| && IsPySpace(s[a]) then SkipPySpace(s, a + 1) else a
  }

  /** The end of `s[..b]` once trailing whitespace is dropped, but not below `a`. */
  function BackPySpace(s: string, a: nat, b: nat): (r: nat)
    requires a <= b <= |s|
    ensures a <= r <= b
    ensures forall i :: r <= i < b ==> IsPySpace(s[i])
    ensures r > a ==> !IsPySpace(s[r - 1])
    decreases b
  {
    if b > a && IsPySpace(s[b - 1]) then BackPySpace(s, a, b - 1) else b
  }

  /** Python's `s.strip()`: the slice of `s` without its leading and trailing whitespace. */
  function Strip(s: string): (r: string)
    ensures exists a, b :: 0 <= a <= b <= |s| && r == s[a..b] && StripBounds(s, a, b)
    ensures r == [] || (!IsPySpace(r[0]) && !IsPySpace(r[|r| - 1]))
  {
    var a := SkipPySpace(s, 0);
    var b := BackPySpace(s, a, |s|);
    assert StripBounds(s, a, b);
    s[a..b]
  }

  /** `s[a..b]` is what remains of `s` once its leading and trailing whitespace are removed. */
  ghost predicate StripBounds(s: string, a: int, b: int)
  {
    && 0 <= a <= b <= |s|
    && (forall i :: 0 <= i < a ==> IsPySpace(s[i]))
    && (forall i :: b <= i < |s| ==> IsPySpace(s[i]))
    && (a < b ==> !IsPySpace(s[a]) && !IsPySpace(s[b - 1]))
  }

  /** `r` is a contiguous slice of `s`. */
  ghost predicate IsSliceOf(r: string, s: string)
  {
    exists a, b :: 0 <= a <= b <= |s| && r == s[a..b]
  }

  /** The characters JavaScript's regular-expression class `\s` matches:
      the ECMAScript WhiteSpace and LineTerminator characters. */
  predicate IsJsSpace(c: char)
  {
    || '\t' <= c <= '\r'
    || c == ' ' || c == '\U{A0}' || c == '\U{1680}'
    || '\U{2000}' <= c <= '\U{200A}'
    || c == '\U{2028}' || c == '\U{2029}' || c == '\U{202F}' || c == '\U{205F}' || c == '\U{3000}'
    || c == '\U{FEFF}'
  }

  function LowerChar(c: char): char
  {
    if 'A' <= c <= 'Z' then (c as int + 32) as char else c
  }

  /** JavaScript's `s.toLowerCase()`, restricted to ASCII letters. */
  function ToLower(s: string): (r: string)
    ensures |r| == |s|
    ensures forall i :: 0 <= i < |s| ==> r[i] == LowerChar(s[i])
  {
    if s == [] then [] else [LowerChar(s[0])] + ToLower(s[1..])
  }
}
