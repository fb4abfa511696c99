/**
 * Python's basic slicing `s[start:stop]` (step 1), as used on lists and on
 * NumPy arrays along their first axis. A missing bound defaults to the start or
 * the end; a negative bound counts from the end; every bound is then clamped to
 * `0 .. len(s)`, and an empty range yields the empty sequence. No index error is
 * ever raised.
 */
module PySlice {
  import opened Wrappers

  /** The position a slice bound `i` denotes in a sequence of length `n`. */
  function Clamp(i: int, n: nat): (r: nat)
    ensures r <= n
  {
    if i < 0 then (if n + i < 0 then 0 else n + i)
    else if i > n then n
    else i
  }

  /** `s[start:stop]`; `None` stands for an omitted bound. */
  function Slice<T>(s: seq<T>, start: Option<int>, stop: Option<int>): (r: seq<T>)
    ensures |r| <= |s|
  {
    var lo := if start.Some? then Clamp(start.value, |s|) else 0;
    var hi := if stop.Some? then Clamp(stop.value, |s|) else |s|;
    if lo < hi then s[lo..hi] else []
  }

  /** Inside the bounds a slice is the plain subsequence. */
  lemma SliceWithin<T>(s: seq<T>, lo: int, hi: int)
    requires 0 <= lo <= hi <= |s|
    ensures Slice(s, Some(lo), Some(hi)) == s[lo..hi]
    ensures Slice(s, None, Some(hi)) == s[..hi]
  {
  }

  /** An omitted start bound is the bound 0. */
  lemma SliceFromStart<T>(s: seq<T>, stop: Option<int>)
    ensures Slice(s, None, stop) == Slice(s, Some(0), stop)
  {
  }

  /**
   * Two slices that meet at bound `b` join into one, whatever the signs of the
   * bounds, as long as the positions they denote are in order.
   */
  lemma SliceConcat<T>(s: seq<T>, a: int, b: int, c: int)
    requires Clamp(a, |s|) <= Clamp(b, |s|) <= Clamp(c, |s|)
    ensures Slice(s, Some(a), Some(b)) + Slice(s, Some(b), Some(c)) == Slice(s, Some(a), Some(c))
  {
    var lo, mid, hi := Clamp(a, |s|), Clamp(b, |s|), Clamp(c, |s|);
    assert s[lo..hi] == s[lo..mid] + s[mid..hi];
  }

  /** `s[-k:]` for `0 < k <= len(s)` is the last `k` elements. */
  lemma SliceLast<T>(s: seq<T>, k: int)
    requires 0 < k <= |s|
    ensures Slice(s, Some(-k), None) == s[|s| - k..]
  {
  }

  /** A slice with only a start bound is always a suffix of the sequence. */
  lemma SliceFromIsSuffix<T>(s: seq<T>, start: int)
    ensures var r := Slice(s, Some(start), None); r == s[|s| - |r|..]
  {
  }
}
