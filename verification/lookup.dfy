/** The interning table `LookupBuilder`: ids are numbered 0, 1, 2, ... in
    the order they are first seen. */
module Lookup {

  /** `forward` maps an id to its number; `backward` lists the ids by number. */
  datatype LookupBuilder<I> = LookupBuilder(forward: map<I, nat>, backward: seq<I>)

  /** `forward` and `backward` are inverse to each other. */
  ghost predicate Valid<I>(b: LookupBuilder<I>) {
    && (forall id :: id in b.forward ==>
          b.forward[id] < |b.backward| && b.backward[b.forward[id]] == id)
    && (forall k :: 0 <= k < |b.backward| ==>
          b.backward[k] in b.forward && b.forward[b.backward[k]] == k)
  }

  /** No id appears twice in a sequence. */
  ghost predicate Distinct<I>(s: seq<I>) {
    forall j, k :: 0 <= j < k < |s| ==> s[j] != s[k]
  }

  /** A valid table numbers each id once. */
  lemma ValidBackwardDistinct<I>(b: LookupBuilder<I>)
    requires Valid(b)
    ensures Distinct(b.backward)
    ensures forall id :: id in b.forward <==> id in b.backward
  {
    forall j, k | 0 <= j < k < |b.backward|
      ensures b.backward[j] != b.backward[k]
    {
      assert b.forward[b.backward[j]] == j && b.forward[b.backward[k]] == k;
    }
  }

  /** `LookupBuilder::new`. */
  function New<I>(): (b: LookupBuilder<I>)
    ensures Valid(b) && |b.backward| == 0 && |b.forward| == 0
  {
    LookupBuilder(map[], [])
  }

  /** `LookupBuilder::forward`: the number of `id`, allocating the next
      number when `id` has none yet. */
  function Forward<I(==)>(b: LookupBuilder<I>, id: I): (r: (LookupBuilder<I>, nat))
    requires Valid(b)
    ensures Valid(r.0)
    ensures r.1 < |r.0.backward| && r.0.backward[r.1] == id
    ensures id in b.forward ==> r == (b, b.forward[id])
    ensures id !in b.forward ==> r.0.backward == b.backward + [id] && r.1 == |b.backward|
    ensures r.0.forward.Keys == b.forward.Keys + {id}
  {
    if id in b.forward then (b, b.forward[id])
    else
      var n := |b.backward|;
      (LookupBuilder(b.forward[id := n], b.backward + [id]), n)
  }

  /** Asking again for the same id changes nothing and gives the same number. */
  lemma ForwardIdempotent<I>(b: LookupBuilder<I>, id: I)
    requires Valid(b)
    ensures var (b', n) := Forward(b, id);
            Forward(b', id) == (b', n)
  {
  }

  /** The ids of `ids` without repeats, in order of first occurrence. */
  function FirstOccurrences<I(==)>(ids: seq<I>): seq<I> {
    if |ids| == 0 then []
    else
      var prefix := FirstOccurrences(ids[..|ids| - 1]);
      if ids[|ids| - 1] in prefix then prefix else prefix + [ids[|ids| - 1]]
  }

  /** `b` is what interning `ids` produced, with `nums` the numbers returned. */
  ghost predicate Interned<I>(b: LookupBuilder<I>, ids: seq<I>, nums: seq<nat>) {
    && Valid(b)
    && |nums| == |ids|
    && (forall k :: 0 <= k < |ids| ==> nums[k] < |b.backward| && b.backward[nums[k]] == ids[k])
    && b.backward == FirstOccurrences(ids)
  }

  /** `backward` grows to the first occurrences of the longer sequence. */
  lemma FirstOccurrencesStep<I>(b: LookupBuilder<I>, ids: seq<I>, id: I)
    requires Valid(b) && b.backward == FirstOccurrences(ids)
    ensures Forward(b, id).0.backward == FirstOccurrences(ids + [id])
  {
    ValidBackwardDistinct(b);
    assert (ids + [id])[..|ids|] == ids;
  }

  /** One more `forward` call keeps `Interned` for the longer sequence. */
  lemma ForwardStep<I>(b: LookupBuilder<I>, ids: seq<I>, nums: seq<nat>, id: I)
    requires Interned(b, ids, nums)
    ensures var (b', n) := Forward(b, id); Interned(b', ids + [id], nums + [n])
  {
    var (b', n) := Forward(b, id);
    var ids', nums' := ids + [id], nums + [n];
    FirstOccurrencesStep(b, ids, id);
    assert b'.backward[..|b.backward|] == b.backward;
    forall k | 0 <= k < |ids'|
      ensures nums'[k] < |b'.backward| && b'.backward[nums'[k]] == ids'[k]
    {
      if k < |ids| {
        assert nums'[k] == nums[k] && ids'[k] == ids[k];
        assert b'.backward[nums[k]] == b.backward[nums[k]];
      }
    }
  }

  /** Numbers that index a consistent table agree exactly when their ids do. */
  lemma NumbersMatchIds<I>(b: LookupBuilder<I>, ids: seq<I>, nums: seq<nat>)
    requires Valid(b) && |nums| == |ids|
    requires forall k :: 0 <= k < |ids| ==> nums[k] < |b.backward| && b.backward[nums[k]] == ids[k]
    ensures forall j, k :: 0 <= j < |ids| && 0 <= k < |ids| ==> (nums[j] == nums[k] <==> ids[j] == ids[k])
  {
    forall j, k | 0 <= j < |ids| && 0 <= k < |ids| && ids[j] == ids[k]
      ensures nums[j] == nums[k]
    {
      assert b.forward[b.backward[nums[j]]] == nums[j];
      assert b.forward[b.backward[nums[k]]] == nums[k];
    }
  }

  /** Interning a whole sequence from a fresh table: each id gets the number
      whose `backward` entry is that id, two ids get the same number exactly
      when they are equal, and `backward` lists the ids in order of first
      occurrence. */
  method ForwardAll<I(==)>(ids: seq<I>) returns (b: LookupBuilder<I>, nums: seq<nat>)
    ensures Valid(b)
    ensures |nums| == |ids|
    ensures forall k :: 0 <= k < |ids| ==> nums[k] < |b.backward| && b.backward[nums[k]] == ids[k]
    ensures forall j, k :: 0 <= j < |ids| && 0 <= k < |ids| ==> (nums[j] == nums[k] <==> ids[j] == ids[k])
    ensures b.backward == FirstOccurrences(ids)
  {
    b, nums := New(), [];
    var n := 0;
    while n < |ids|
      invariant 0 <= n <= |ids|
      invariant Interned(b, ids[..n], nums)
    {
      ForwardStep(b, ids[..n], nums, ids[n]);
      assert ids[..n + 1] == ids[..n] + [ids[n]];
      var step := Forward(b, ids[n]);
      b, nums := step.0, nums + [step.1];
      n := n + 1;
    }
    assert ids[..n] == ids;
    NumbersMatchIds(b, ids, nums);
  }
}
