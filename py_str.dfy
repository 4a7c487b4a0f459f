/**
 * The parts of Python's `str` that the service relies on: `find`, slicing
 * with a step of one, and `strip()` with no arguments. Strings are sequences
 * of code points, as Python's are.
 */
module PyStr {

  /** `pat` occurs in `s` starting at index `i`. */
  predicate OccursAt(s: string, pat: string, i: int) {
    0 <= i && i + |pat| <= |s| && s[i..i + |pat|] == pat
  }

  /** `pat` occurs somewhere in `s` (Python's `pat in s`). */
  ghost predicate Contains(s: string, pat: string) {
    exists i :: OccursAt(s, pat, i)
  }

  /** The first occurrence of `pat` at or after `i`, or -1. */
  function FindFrom(s: string, pat: string, i: nat): (r: int)
    decreases |s| - i
    ensures r == -1 || (i <= r && OccursAt(s, pat, r))
    ensures r == -1 ==> forall j :: i <= j ==> !OccursAt(s, pat, j)
    ensures r != -1 ==> forall j :: i <= j < r ==> !OccursAt(s, pat, j)
  {
    if i + |pat| > |s| then -1
    else if OccursAt(s, pat, i) then i
    else FindFrom(s, pat, i + 1)
  }

  /**
   * `s.find(pat)`: the index of the first occurrence of `pat`, or -1 when
   * there is none. An empty `pat` is found at index 0.
   */
  function PyFind(s: string, pat: string): (r: int)
    ensures -1 <= r <= |s|
    ensures r == -1 <==> !Contains(s, pat)
    ensures r != -1 ==> OccursAt(s, pat, r)
    ensures forall j :: 0 <= j < r ==> !OccursAt(s, pat, j)
  {
    FindFrom(s, pat, 0)
  }

  /**
   * How a slice bound is adjusted against a length `n`: a negative bound
   * counts from the end, and the result is clamped to [0, n].
   */
  function ClampIndex(i: int, n: nat): (r: nat)
    ensures r <= n
    ensures 0 <= i <= n ==> r == i
    ensures i < 0 && 0 <= i + n ==> r == i + n
    ensures i + n < 0 ==> r == 0
    ensures n < i ==> r == n
  {
    if i < 0 then (if i + n < 0 then 0 else i + n)
    else if i > n then n
    else i
  }

  /**
   * `s[start:stop]`: both bounds adjusted by `ClampIndex`; empty when the
   * adjusted stop does not exceed the adjusted start. Never fails.
   */
  function PySlice(s: string, start: int, stop: int): (r: string)
    ensures |r| <= |s|
    ensures ClampIndex(start, |s|) + |r| <= |s|
    ensures r == s[ClampIndex(start, |s|)..ClampIndex(start, |s|) + |r|]
    ensures ClampIndex(stop, |s|) <= ClampIndex(start, |s|) ==> r == []
    ensures ClampIndex(start, |s|) < ClampIndex(stop, |s|) ==>
              |r| == ClampIndex(stop, |s|) - ClampIndex(start, |s|)
    ensures 0 <= start <= stop <= |s| ==> r == s[start..stop]
  {
    var lo, hi := ClampIndex(start, |s|), ClampIndex(stop, |s|);
    if hi <= lo then [] else s[lo..hi]
  }

  /** Python's `str.isspace` for one code point. */
  predicate IsSpace(c: char) {
    || '\U{0009}' <= c <= '\U{000D}'
    || '\U{001C}' <= c <= '\U{0020}'
    || c == '\U{0085}' || c == '\U{00A0}' || c == '\U{1680}'
    || '\U{2000}' <= c <= '\U{200A}'
    || c == '\U{2028}' || c == '\U{2029}' || c == '\U{202F}'
    || c == '\U{205F}' || c == '\U{3000}'
  }

  /** `s.lstrip()`: the suffix of `s` left after dropping leading whitespace. */
  function LStrip(s: string): (r: string)
    ensures |r| <= |s| && r == s[|s| - |r|..]
    ensures forall k :: 0 <= k < |s| - |r| ==> IsSpace(s[k])
    ensures r == [] || !IsSpace(r[0])
  {
    if |s| > 0 && IsSpace(s[0]) then LStrip(s[1..]) else s
  }

  /** `s.rstrip()`: the prefix of `s` left after dropping trailing whitespace. */
  function RStrip(s: string): (r: string)
    ensures |r| <= |s| && r == s[..|r|]
    ensures forall k :: |r| <= k < |s| ==> IsSpace(s[k])
    ensures r == [] || !IsSpace(r[|r| - 1])
  {
    if |s| > 0 && IsSpace(s[|s| - 1]) then RStrip(s[..|s| - 1]) else s
  }

  /**
   * `r` is what remains of `s` once its whitespace ends are cut off: a
   * contiguous piece of `s`, surrounded only by whitespace, that neither
   * begins nor ends with whitespace.
   */
  ghost predicate IsStripOf(r: string, s: string) {
    exists i :: StrippedAt(r, s, i)
  }

  ghost predicate StrippedAt(r: string, s: string, i: int) {
    && 0 <= i && i + |r| <= |s|
    && s[i..i + |r|] == r
    && (forall k :: 0 <= k < i ==> IsSpace(s[k]))
    && (forall k :: i + |r| <= k < |s| ==> IsSpace(s[k]))
    && (r == [] || (!IsSpace(r[0]) && !IsSpace(r[|r| - 1])))
  }

  /** `s.strip()`. */
  function Strip(s: string): (r: string)
    ensures IsStripOf(r, s)
  {
    var l := LStrip(s);
    var r := RStrip(l);
    StripBothEnds(s, l, r);
    r
  }

  /**
   * Cutting leading whitespace off `s` to get `l`, then trailing whitespace
   * off `l` to get `r`, leaves a stripped piece of `s`.
   */
  lemma StripBothEnds(s: string, l: string, r: string)
    requires |l| <= |s| && l == s[|s| - |l|..]
    requires forall k :: 0 <= k < |s| - |l| ==> IsSpace(s[k])
    requires l == [] || !IsSpace(l[0])
    requires |r| <= |l| && r == l[..|r|]
    requires forall k :: |r| <= k < |l| ==> IsSpace(l[k])
    requires r == [] || !IsSpace(r[|r| - 1])
    ensures StrippedAt(r, s, |s| - |l|)
  {
    var i := |s| - |l|;
    assert s[i..i + |r|] == r;
    forall k | i + |r| <= k < |s|
      ensures IsSpace(s[k])
    {
      assert s[k] == l[k - i];
    }
    if r != [] {
      assert r[0] == l[0];
    }
  }

  /** There is only one way to cut the whitespace ends off a string. */
  lemma StripOfUnique(r1: string, r2: string, s: string)
    requires IsStripOf(r1, s) && IsStripOf(r2, s)
    ensures r1 == r2
  {
    var i1 :| StrippedAt(r1, s, i1);
    var i2 :| StrippedAt(r2, s, i2);
    if r1 != [] && r2 != [] {
      assert s[i1] == r1[0] && s[i2] == r2[0];
      assert i1 == i2;
      var j1, j2 := i1 + |r1|, i2 + |r2|;
      assert s[j1 - 1] == r1[|r1| - 1] && s[j2 - 1] == r2[|r2| - 1];
      assert j1 == j2;
    }
  }

  /** `Strip` is the one function meeting `IsStripOf`. */
  lemma StripCharacterized(r: string, s: string)
    requires IsStripOf(r, s)
    ensures Strip(s) == r
  {
    StripOfUnique(Strip(s), r, s);
  }

  /** Stripping twice is stripping once. */
  lemma StripIdempotent(s: string)
    ensures Strip(Strip(s)) == Strip(s)
  {
    var r := Strip(s);
    assert StrippedAt(r, r, 0) by {
      var i :| StrippedAt(r, s, i);
    }
    StripCharacterized(r, r);
  }

  /**
   * When the first code point of `m` appears nowhere else in `m`, no
   * occurrence of `m` can straddle a boundary into a copy of `m`; so if `x`
   * does not contain `m`, the first `m` in `x + m + y` is the one right
   * after `x`.
   */
  lemma {:induction false} FindAfterPrefix(x: string, m: string, y: string)
    requires |m| > 0
    requires forall k :: 0 < k < |m| ==> m[k] != m[0]
    requires !Contains(x, m)
    ensures PyFind(x + m + y, m) == |x|
  {
    var t := x + m + y;
    assert t[|x|..|x| + |m|] == m;
    assert OccursAt(t, m, |x|);
    forall j | 0 <= j < |x|
      ensures !OccursAt(t, m, j)
    {
      if j + |m| <= |x| {
        assert t[j..j + |m|] == x[j..j + |m|];
        assert !OccursAt(x, m, j);
      } else {
        var k := |x| - j;
        assert t[|x|] == m[0] != m[k];
      }
    }
  }

  /**
   * A piece of `s` lying wholly before `bound` contains no occurrence of a
   * non-empty `pat` when `s` has none starting before `bound`.
   */
  lemma PieceAvoids(s: string, pat: string, lo: nat, n: nat, bound: int)
    requires |pat| > 0
    requires lo + n <= |s| && lo + n <= bound
    requires forall j :: 0 <= j < bound ==> !OccursAt(s, pat, j)
    ensures !Contains(s[lo..lo + n], pat)
  {
    var piece := s[lo..lo + n];
    forall p | OccursAt(piece, pat, p)
      ensures OccursAt(s, pat, lo + p)
    {
      forall k | 0 <= k < |pat|
        ensures s[lo + p..lo + p + |pat|][k] == pat[k]
      {
        assert pat[k] == piece[p + k];
      }
    }
  }

  /** Stripping cannot create an occurrence of a pattern. */
  lemma StripAvoids(s: string, pat: string)
    requires |pat| > 0
    requires !Contains(s, pat)
    ensures !Contains(Strip(s), pat)
  {
    var r := Strip(s);
    var i :| StrippedAt(r, s, i);
    PieceAvoids(s, pat, i, |r|, |s|);
  }
}
