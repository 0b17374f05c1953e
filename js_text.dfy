/**
 * The JavaScript string primitives the parser is built on: the `\s` and `\d`
 * character classes, `trim`, `indexOf` and `substring`.
 */
module JsText {

  /** JavaScript's `\s`: the ECMAScript WhiteSpace and LineTerminator code points. */
  predicate IsSpace(c: char)
  {
    c == ' ' || c == '\t' || c == '\n' || c == '\r' || c == '\U{B}' || c == '\U{C}'
    || c == '\U{A0}' || c == '\U{1680}' || ('\U{2000}' <= c <= '\U{200A}')
    || c == '\U{2028}' || c == '\U{2029}' || c == '\U{202F}' || c == '\U{205F}'
    || c == '\U{3000}' || c == '\U{FEFF}'
  }

  /** JavaScript's `\d`: the ASCII digits only. */
  predicate IsDigit(c: char)
  {
    '0' <= c <= '9'
  }

  predicate AllDigits(s: string)
  {
    forall k :: 0 <= k < |s| ==> IsDigit(s[k])
  }

  /** The end of the longest run of `inClass` characters that starts at `i`. */
  function RunEnd(s: string, i: nat, inClass: char -> bool): (j: nat)
    requires i <= |s|
    ensures i <= j <= |s|
    ensures forall k :: i <= k < j ==> inClass(s[k])
    ensures j < |s| ==> !inClass(s[j])
    decreases |s| - i
  {
    if i == |s| || !inClass(s[i]) then i else RunEnd(s, i + 1, inClass)
  }

  /** The start of the run of spaces that ends at `j`, not going below `lo`. */
  function SpaceRunStart(s: string, lo: nat, j: nat): (b: nat)
    requires lo <= j <= |s|
    ensures lo <= b <= j
    ensures forall k :: b <= k < j ==> IsSpace(s[k])
    ensures b > lo ==> !IsSpace(s[b - 1])
    decreases j
  {
    if j == lo || !IsSpace(s[j - 1]) then j else SpaceRunStart(s, lo, j - 1)
  }

  /** No whitespace at either end. */
  predicate IsTrimmed(s: string)
  {
    s == [] || (!IsSpace(s[0]) && !IsSpace(s[|s| - 1]))
  }

  /** Index of the first character `trim` keeps (|s| when s is all whitespace). */
  function TrimStart(s: string): nat
    ensures TrimStart(s) <= |s|
  {
    RunEnd(s, 0, IsSpace)
  }

  /** Index just past the last character `trim` keeps. */
  function TrimEnd(s: string): nat
    ensures TrimStart(s) <= TrimEnd(s) <= |s|
  {
    SpaceRunStart(s, TrimStart(s), |s|)
  }

  /** `String.prototype.trim`: drops the leading and trailing whitespace, and only that. */
  function Trim(s: string): (r: string)
    ensures IsTrimmed(r)
  {
    s[TrimStart(s)..TrimEnd(s)]
  }

  /** What trimming removes is whitespace, at the two ends. */
  lemma TrimDropsOnlySpaces(s: string)
    ensures Trim(s) == s[TrimStart(s)..TrimEnd(s)]
    ensures forall k :: 0 <= k < TrimStart(s) ==> IsSpace(s[k])
    ensures forall k :: TrimEnd(s) <= k < |s| ==> IsSpace(s[k])
  {
  }

  /** Trimming is the identity on trimmed text, so it is idempotent. */
  lemma TrimOfTrimmed(s: string)
    requires IsTrimmed(s)
    ensures Trim(s) == s
  {
    assert TrimStart(s) == 0;
    assert TrimEnd(s) == |s|;
  }

  /** Text made only of whitespace trims to the empty string. */
  lemma TrimOfSpaces(s: string)
    requires forall k :: 0 <= k < |s| ==> IsSpace(s[k])
    ensures Trim(s) == []
  {
    assert TrimStart(s) == |s|;
  }

  /** `trim` keeps exactly the part between a whitespace prefix and a whitespace suffix that starts and ends with non-whitespace. */
  lemma TrimCharacterised(s: string, a: nat, b: nat)
    requires a <= b <= |s|
    requires forall k :: 0 <= k < a ==> IsSpace(s[k])
    requires forall k :: b <= k < |s| ==> IsSpace(s[k])
    requires a < b ==> !IsSpace(s[a]) && !IsSpace(s[b - 1])
    ensures Trim(s) == s[a..b]
  {
    var i := TrimStart(s);
    if a < b {
      assert i == a;
      assert TrimEnd(s) == b;
    } else {
      assert i == |s|;
    }
  }

  /** Leading whitespace makes no difference to `trim`. */
  lemma TrimOfSpacePrefix(s: string, n: nat)
    requires n <= |s|
    requires forall k :: 0 <= k < n ==> IsSpace(s[k])
    ensures Trim(s[n..]) == Trim(s)
  {
    var t := s[n..];
    TrimDropsOnlySpaces(t);
    var a, b := TrimStart(t), TrimEnd(t);
    assert forall k :: 0 <= k < |t| ==> t[k] == s[n + k];
    assert Trim(t) == s[n + a..n + b];
    TrimCharacterised(s, n + a, n + b);
  }

  predicate OccursAt(s: string, pat: string, i: int)
  {
    0 <= i && i + |pat| <= |s| && s[i..i + |pat|] == pat
  }

  /** `s.indexOf(pat, i)`: the first occurrence at or after `i`, or -1. */
  function IndexOfFrom(s: string, pat: string, i: nat): (r: int)
    ensures r == -1 || (i <= r && OccursAt(s, pat, r))
    ensures forall k :: i <= k && (r == -1 || k < r) ==> !OccursAt(s, pat, k)
    decreases |s| - i
  {
    if i + |pat| > |s| then -1
    else if s[i..i + |pat|] == pat then i
    else IndexOfFrom(s, pat, i + 1)
  }

  /** `s.indexOf(pat)`. */
  function IndexOf(s: string, pat: string): (r: int)
    ensures r == -1 <==> forall k :: 0 <= k ==> !OccursAt(s, pat, k)
    ensures r != -1 ==> OccursAt(s, pat, r) && forall k :: 0 <= k < r ==> !OccursAt(s, pat, k)
  {
    IndexOfFrom(s, pat, 0)
  }

  function Clamp(x: int, len: nat): nat
  {
    if x < 0 then 0 else if x > len then len else x
  }

  /** `String.prototype.substring`: both bounds clamped to the string, swapped when out of order. */
  function Substring(s: string, start: int, end: int): (r: string)
    ensures |r| <= |s|
    ensures 0 <= start <= end <= |s| ==> r == s[start..end]
    ensures 0 <= end < start <= |s| ==> r == s[end..start]
    ensures 0 <= start <= |s| <= end ==> r == s[start..|s|]
    ensures start <= 0 && 0 <= end <= |s| ==> r == s[..end]
    ensures start <= 0 && |s| <= end ==> r == s
  {
    var a := Clamp(start, |s|);
    var b := Clamp(end, |s|);
    if a <= b then s[a..b] else s[b..a]
  }

  /** The order of the two bounds makes no difference. */
  lemma SubstringIsSymmetric(s: string, start: int, end: int)
    ensures Substring(s, start, end) == Substring(s, end, start)
  {
  }

  /** An occurrence of a non-empty pattern starts with the pattern's first character. */
  lemma OccursAtFirst(s: string, pat: string, i: int)
    requires OccursAt(s, pat, i) && pat != []
    ensures i < |s| && s[i] == pat[0]
  {
    assert s[i..i + |pat|][0] == s[i];
  }

  /** A run of `inClass` characters from `i` that stops at `j` is the longest one. */
  lemma RunEndAt(s: string, i: nat, j: nat, inClass: char -> bool)
    requires i <= j <= |s|
    requires forall k :: i <= k < j ==> inClass(s[k])
    requires j < |s| ==> !inClass(s[j])
    ensures RunEnd(s, i, inClass) == j
  {
  }
}
