/** Python's `s[start:end]` (step 1) on a sequence, with the language's
    rules for negative and out-of-range bounds. */
module PySlice {
  import opened Basics

  /** Normalise one slice bound against a length `n`: a negative bound
      counts from the end, and the result is clamped into `0..n`. */
  function Bound(i: int, n: nat): (r: nat)
    ensures r <= n
    ensures 0 <= i <= n ==> r == i
    ensures i > n ==> r == n
    ensures i < 0 && 0 <= n + i ==> r == n + i
    ensures n + i < 0 ==> r == 0
  {
    if i < 0 then Max(0, n + i) else Min(i, n)
  }

  /** `s[start:end]`. */
  function Slice<T>(s: seq<T>, start: int, end: int): (r: seq<T>)
    ensures |r| == Max(0, Bound(end, |s|) - Bound(start, |s|))
    ensures forall k :: 0 <= k < |r| ==> r[k] == s[Bound(start, |s|) + k]
  {
    var lo := Bound(start, |s|);
    var hi := Bound(end, |s|);
    if hi <= lo then [] else s[lo..hi]
  }

  /** Reference reading of a slice: position `k` of `s` is kept exactly when
      it lies between the normalised bounds, and it lands at offset
      `k - lo` of the result. */
  lemma SliceKeepsExactlyTheWindow<T>(s: seq<T>, start: int, end: int, k: int)
    requires 0 <= k < |s|
    ensures var lo, hi := Bound(start, |s|), Bound(end, |s|);
            (lo <= k < hi) <==> (0 <= k - lo < |Slice(s, start, end)|)
    ensures var lo := Bound(start, |s|);
            0 <= k - lo < |Slice(s, start, end)| ==> Slice(s, start, end)[k - lo] == s[k]
  {
  }

  /** A slice is a contiguous run of its source. */
  lemma SliceIsContiguous<T>(s: seq<T>, start: int, end: int)
    ensures var r, lo := Slice(s, start, end), Bound(start, |s|);
            lo + |r| <= |s| && r == s[lo..lo + |r|]
  {
  }
}
