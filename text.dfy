/** The few Python `str` operations the application relies on: `in`,
    `find`, slicing with out-of-order bounds, `startswith`, `endswith` and
    `strip()` with no arguments. */
module PyText {

  /** Python's `c.isspace()`, which picks out the characters `str.strip()`
      removes when it is called without arguments: the ASCII controls 9 to
      13 and 28 to 31, the space, U+0085, U+00A0, U+1680, U+2000 to U+200A,
      U+2028, U+2029, U+202F, U+205F and U+3000. */
  predicate IsSpace(c: char) {
    var n := c as int;
    || 9 <= n <= 13 || 28 <= n <= 32
    || n == 0x85 || n == 0xa0 || n == 0x1680
    || 0x2000 <= n <= 0x200a
    || n == 0x2028 || n == 0x2029 || n == 0x202f || n == 0x205f || n == 0x3000
  }

  /** Every character is whitespace (the empty string included). */
  predicate IsBlank(s: string) {
    forall i :: 0 <= i < |s| ==> IsSpace(s[i])
  }

  /** Neither end of `s` is whitespace. */
  predicate IsTrimmed(s: string) {
    s == [] || (!IsSpace(s[0]) && !IsSpace(s[|s| - 1]))
  }

  predicate OccursAt(text: string, pat: string, i: int) {
    0 <= i && i + |pat| <= |text| && text[i..i + |pat|] == pat
  }

  /** `pat in text`, stated without any search procedure. */
  ghost predicate Contains(text: string, pat: string) {
    exists i :: OccursAt(text, pat, i)
  }

  /** A string is found between any two others. */
  lemma ContainsMiddle(a: string, b: string, c: string)
    ensures Contains(a + b + c, b)
  {
    assert (a + b + c)[|a|..|a| + |b|] == b;
    assert OccursAt(a + b + c, b, |a|);
  }

  /** `i` is where `pat` occurs first in `text`. */
  predicate IsFirstOccurrence(text: string, pat: string, i: int) {
    OccursAt(text, pat, i) && forall j :: 0 <= j < i ==> !OccursAt(text, pat, j)
  }

  function FindFrom(text: string, pat: string, k: nat): (r: int)
    requires k <= |text|
    ensures r == -1 || (k <= r && OccursAt(text, pat, r))
    ensures forall i :: k <= i && (r == -1 || i < r) ==> !OccursAt(text, pat, i)
    decreases |text| - k
  {
    if k + |pat| > |text| then -1
    else if text[k..k + |pat|] == pat then k
    else FindFrom(text, pat, k + 1)
  }

  /** Python's `text.find(pat)`: the first index of `pat`, or -1. An empty
      pattern is found at 0. */
  function Find(text: string, pat: string): (r: int)
    ensures r == -1 <==> !Contains(text, pat)
    ensures r != -1 ==> IsFirstOccurrence(text, pat, r)
  {
    FindFrom(text, pat, 0)
  }

  /** Python's `pat in text`. */
  function In(pat: string, text: string): (b: bool)
    ensures b <==> Contains(text, pat)
  {
    Find(text, pat) != -1
  }

  /** A string has one first occurrence of a pattern, so `Find` returns it. */
  lemma FindIsFirstOccurrence(text: string, pat: string, i: int)
    requires IsFirstOccurrence(text, pat, i)
    ensures Find(text, pat) == i
  {
    var r := Find(text, pat);
    assert r != -1;
    if r < i {
      assert OccursAt(text, pat, r);
    } else if i < r {
      assert OccursAt(text, pat, i);
    }
  }

  /** Any occurrence lies at or after the first one. */
  lemma FindAtMost(text: string, pat: string, j: int)
    requires OccursAt(text, pat, j)
    ensures 0 <= Find(text, pat) <= j
  {
    assert Contains(text, pat);
  }

  /** Python's `s[lo:hi]` for non-negative bounds: both bounds are clamped to
      the length, and a stop before the start gives the empty string. */
  function Slice(s: string, lo: nat, hi: nat): (r: string)
    ensures lo <= hi <= |s| ==> r == s[lo..hi]
    ensures hi <= lo ==> r == []
    ensures lo <= |s| && |s| <= hi ==> r == s[lo..]
    ensures |s| <= lo ==> r == []
  {
    var a := if lo < |s| then lo else |s|;
    var b := if hi < |s| then hi else |s|;
    if b <= a then [] else s[a..b]
  }

  /** Concatenation regroups freely. */
  lemma AppendAssoc(a: string, b: string, c: string)
    ensures (a + b) + c == a + (b + c)
  {
  }

  /** Python's `s.startswith(p)`: `p` occurs at index 0. */
  predicate StartsWith(s: string, p: string): (b: bool)
    ensures b <==> OccursAt(s, p, 0)
  {
    |p| <= |s| && s[..|p|] == p
  }

  /** Python's `s.endswith(p)`: `p` occurs where it would end the string. */
  predicate EndsWith(s: string, p: string): (b: bool)
    ensures b <==> OccursAt(s, p, |s| - |p|)
  {
    |p| <= |s| && s[|s| - |p|..] == p
  }

  /** Every character of `s` from index `lo` up to `hi` is whitespace. */
  predicate SpacesBetween(s: string, lo: int, hi: int) {
    forall i :: lo <= i < hi && 0 <= i < |s| ==> IsSpace(s[i])
  }

  /** Python's `s.lstrip()`. */
  function TrimStart(s: string): (r: string)
    ensures |r| <= |s| && r == s[|s| - |r|..]
    ensures SpacesBetween(s, 0, |s| - |r|)
    ensures r == [] || !IsSpace(r[0])
  {
    if s != [] && IsSpace(s[0]) then
      var r := TrimStart(s[1..]);
      assert s[1..][|s| - 1 - |r|..] == s[|s| - |r|..];
      assert forall i :: 1 <= i < |s| ==> s[i] == s[1..][i - 1];
      r
    else s
  }

  /** Python's `s.rstrip()`. */
  function TrimEnd(s: string): (r: string)
    ensures |r| <= |s| && r == s[..|r|]
    ensures SpacesBetween(s, |r|, |s|)
    ensures r == [] || !IsSpace(r[|r| - 1])
  {
    if s != [] && IsSpace(s[|s| - 1]) then
      var r := TrimEnd(s[..|s| - 1]);
      assert s[..|s| - 1][..|r|] == s[..|r|];
      assert forall i :: 0 <= i < |s| - 1 ==> s[i] == s[..|s| - 1][i];
      r
    else s
  }

  /** `r` is `s` with a blank prefix of length `a` and a blank suffix removed. */
  predicate StrippedAt(s: string, r: string, a: int) {
    0 <= a && a + |r| <= |s| && r == s[a..a + |r|]
    && SpacesBetween(s, 0, a) && SpacesBetween(s, a + |r|, |s|)
  }

  /** Python's `s.strip()`: the middle of `s` with all leading and trailing
      whitespace removed; it is empty exactly when `s` is blank. */
  function Strip(s: string): (r: string)
    ensures IsTrimmed(r)
    ensures exists a :: StrippedAt(s, r, a)
    ensures r == [] <==> IsBlank(s)
  {
    StripTrims(s);
    StripCutsBlankEnds(s);
    StripEmptyIffBlank(s);
    TrimEnd(TrimStart(s))
  }

  /** Trimming both ends leaves no whitespace at either end. */
  lemma StripTrims(s: string)
    ensures IsTrimmed(TrimEnd(TrimStart(s)))
  {
    var t := TrimStart(s);
    var r := TrimEnd(t);
    assert r != [] ==> r[0] == t[0];
  }

  /** Trimming both ends cuts only whitespace. */
  lemma StripCutsBlankEnds(s: string)
    ensures StrippedAt(s, TrimEnd(TrimStart(s)), |s| - |TrimStart(s)|)
  {
    var t := TrimStart(s);
    PieceOfSuffix(s, t, TrimEnd(t));
  }

  /** A blank-ended prefix `r` of a suffix `t` of `s` left after a blank
      prefix is `s` stripped at the start of `t`. */
  lemma PieceOfSuffix(s: string, t: string, r: string)
    requires |t| <= |s| && t == s[|s| - |t|..] && SpacesBetween(s, 0, |s| - |t|)
    requires |r| <= |t| && r == t[..|r|] && SpacesBetween(t, |r|, |t|)
    ensures StrippedAt(s, r, |s| - |t|)
  {
    var a := |s| - |t|;
    assert r == s[a..a + |r|];
    forall i | a + |r| <= i < |s| ensures IsSpace(s[i]) {
      assert s[i] == t[i - a];
    }
  }

  /** Trimming both ends leaves nothing exactly when there is nothing else. */
  lemma StripEmptyIffBlank(s: string)
    ensures TrimEnd(TrimStart(s)) == [] <==> IsBlank(s)
  {
    var t := TrimStart(s);
    var r := TrimEnd(t);
    var a := |s| - |t|;
    if t != [] {
      assert !IsSpace(t[0]);
      assert r != [];
      assert s[a] == t[0];
    }
  }

  /** Stripping twice is stripping once. */
  lemma {:induction false} StripIdempotent(s: string)
    ensures Strip(Strip(s)) == Strip(s)
  {
    var r := Strip(s);
    assert TrimStart(r) == r;
    assert TrimEnd(r) == r;
  }

  /** A trimmed string is its own strip. */
  lemma StripOfTrimmed(s: string)
    requires IsTrimmed(s)
    ensures Strip(s) == s
  {
    assert TrimStart(s) == s;
    assert TrimEnd(s) == s;
  }
}
