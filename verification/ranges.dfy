/** Half-open ranges and their chaining (`next_range`, `opt_range`). */
module Ranges {
  import opened Results

  /** `start..end`. */
  datatype Range<T> = Range(start: T, end: T)

  /** `next_range(prev, length)`: the range of `length` items right after `prev`. */
  function NextRange(prev: Range<int>, length: int): (r: Range<int>)
    ensures r.start == prev.end
    ensures r.end - r.start == length
  {
    Range(prev.end, prev.end + length)
  }

  /** `opt_range`: both bounds wrapped in `Some`, so the bounds are recovered
      unchanged. */
  function OptRange<T>(r: Range<T>): (o: Range<Option<T>>)
    ensures o.start.Some? && o.end.Some?
    ensures Range(o.start.value, o.end.value) == r
  {
    Range(Some(r.start), Some(r.end))
  }

  function Sum(lengths: seq<int>): int {
    if |lengths| == 0 then 0 else Sum(lengths[..|lengths| - 1]) + lengths[|lengths| - 1]
  }

  /** Laying out consecutive blocks with `next_range`, starting after
      `first`: block `i` has length `lengths[i]`, each block starts where
      the previous one ends, and the last one ends at
      `first.end + Sum(lengths)`. */
  method ChainRanges(first: Range<int>, lengths: seq<int>) returns (rs: seq<Range<int>>)
    ensures |rs| == |lengths|
    ensures forall i :: 0 <= i < |rs| ==> rs[i].end - rs[i].start == lengths[i]
    ensures |rs| > 0 ==> rs[0].start == first.end
    ensures forall i :: 0 < i < |rs| ==> rs[i].start == rs[i - 1].end
    ensures |rs| > 0 ==> rs[|rs| - 1].end == first.end + Sum(lengths)
  {
    rs := [];
    var prev := first;
    var n := 0;
    while n < |lengths|
      invariant n == |rs| <= |lengths|
      invariant prev.end == first.end + Sum(lengths[..n])
      invariant forall i :: 0 <= i < n ==> rs[i].end - rs[i].start == lengths[i]
      invariant n > 0 ==> rs[0].start == first.end
      invariant forall i :: 0 < i < n ==> rs[i].start == rs[i - 1].end
      invariant n > 0 ==> prev == rs[n - 1]
    {
      assert lengths[..n + 1][..n] == lengths[..n];
      prev := NextRange(prev, lengths[n]);
      rs := rs + [prev];
      n := n + 1;
    }
    assert lengths[..n] == lengths;
  }
}
