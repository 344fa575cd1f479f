/** Python's `s[start:stop]` on strings, with a step of one. */
module Slicing {

  /** A slice bound normalised against a string of length `n`: a negative
      bound counts from the end, and the result is clamped to [0, n]. */
  function SliceBound(i: int, n: nat): (k: nat)
    ensures k <= n
    ensures 0 <= i <= n ==> k == i
    ensures i < 0 && 0 <= i + n ==> k == i + n
    ensures i + n < 0 ==> k == 0
    ensures n < i ==> k == n
  {
    var j := if i < 0 then i + n else i;
    if j < 0 then 0 else if j > n then n else j
  }

  /** `s[start:stop]`: the characters from the normalised start up to, not
      including, the normalised stop; empty when the normalised start is at
      or after the normalised stop. */
  function Slice(s: string, start: int, stop: int): (r: string)
    ensures var lo, hi := SliceBound(start, |s|), SliceBound(stop, |s|);
      |r| == (if lo < hi then hi - lo else 0) &&
      forall k :: 0 <= k < |r| ==> r[k] == s[lo + k]
  {
    var lo, hi := SliceBound(start, |s|), SliceBound(stop, |s|);
    if lo < hi then s[lo..hi] else []
  }

  /** Within bounds and ascending, the slice is the ordinary subsequence,
      of length stop - start. */
  lemma SliceInBounds(s: string, start: int, stop: int)
    requires 0 <= start <= stop <= |s|
    ensures Slice(s, start, stop) == s[start..stop]
    ensures |Slice(s, start, stop)| == stop - start
  {
  }

  /** Non-negative bounds with start at or after stop give the empty
      string, not an error. */
  lemma SliceDescendingIsEmpty(s: string, start: int, stop: int)
    requires 0 <= stop <= start
    ensures Slice(s, start, stop) == []
  {
  }

  /** A stop of -1 means "up to, not including, the last character". */
  lemma SliceStopMinusOne(s: string, start: int)
    requires 0 <= start < |s| - 1
    ensures Slice(s, start, -1) == s[start..|s| - 1]
  {
  }

  /** Any slice is the contiguous piece of the string that begins at the
      normalised start. */
  lemma SliceIsInfix(s: string, start: int, stop: int)
    ensures var lo := SliceBound(start, |s|);
      lo + |Slice(s, start, stop)| <= |s| && Slice(s, start, stop) == s[lo..lo + |Slice(s, start, stop)|]
  {
  }
}
