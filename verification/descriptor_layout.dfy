/** Descriptor-set layout numbering (`set_layout_bindings`). Descriptor
    types `T` and shader stage flags `S` are opaque. */
module DescriptorLayout {
  import opened MachineInts

  /** `pso::DescriptorSetLayoutBinding`. */
  datatype LayoutBinding<T, S> =
    LayoutBinding(binding: nat, ty: T, count: nat, stageFlags: S, immutableSamplers: bool)

  /** One input item: a descriptor type and its stage flags, wanted `times` times. */
  datatype BindingGroup<T, S> = BindingGroup(times: nat, ty: T, stageFlags: S)

  /** The number of bindings all groups ask for. */
  function TotalTimes<T, S>(groups: seq<BindingGroup<T, S>>): nat {
    if |groups| == 0 then 0 else groups[0].times + TotalTimes(groups[1..])
  }

  /** The `flat_map` step: each group's pair repeated `times` times, in order. */
  function Expand<T, S>(groups: seq<BindingGroup<T, S>>): (r: seq<(T, S)>)
    ensures |r| == TotalTimes(groups)
  {
    if |groups| == 0 then []
    else seq(groups[0].times, _ => (groups[0].ty, groups[0].stageFlags)) + Expand(groups[1..])
  }

  /** `set_layout_bindings`: number the expanded pairs 0, 1, 2, ... (as
      `u32`), each with descriptor count 1 and no immutable samplers. */
  function SetLayoutBindings<T, S>(groups: seq<BindingGroup<T, S>>): (r: seq<LayoutBinding<T, S>>)
    ensures |r| == TotalTimes(groups)
    ensures forall k :: 0 <= k < |r| ==>
              r[k].binding == AsU32(k) && r[k].count == 1 && !r[k].immutableSamplers
  {
    var pairs := Expand(groups);
    seq(|pairs|, k requires 0 <= k < |pairs| =>
      LayoutBinding(AsU32(k), pairs[k].0, 1, pairs[k].1, false))
  }

  /** The bindings of the groups before `i` number `TotalTimes(groups[..i])`. */
  lemma PrefixTimes<T, S>(groups: seq<BindingGroup<T, S>>, i: nat)
    requires 0 < i <= |groups|
    ensures TotalTimes(groups[..i]) == groups[0].times + TotalTimes(groups[1..][..i - 1])
  {
    assert groups[..i][1..] == groups[1..][..i - 1];
  }

  /** Copy `j` of group `i` sits at position `TotalTimes(groups[..i]) + j`
      of the expansion. */
  lemma {:induction false} ExpandBlock<T, S>(groups: seq<BindingGroup<T, S>>, i: nat, j: nat)
    requires i < |groups| && j < groups[i].times
    ensures TotalTimes(groups[..i]) + j < TotalTimes(groups)
    ensures Expand(groups)[TotalTimes(groups[..i]) + j] == (groups[i].ty, groups[i].stageFlags)
    decreases i
  {
    if i > 0 {
      PrefixTimes(groups, i);
      ExpandBlock(groups[1..], i - 1, j);
    }
  }

  /** Group `i`'s bindings are consecutive, in input order: its `j`-th copy
      is entry `TotalTimes(groups[..i]) + j`, carrying the group's type and
      stage flags and that position as its binding number. */
  lemma SetLayoutBindingsBlock<T, S>(groups: seq<BindingGroup<T, S>>, i: nat, j: nat)
    requires i < |groups| && j < groups[i].times
    ensures var k := TotalTimes(groups[..i]) + j;
            && k < |SetLayoutBindings(groups)|
            && SetLayoutBindings(groups)[k]
               == LayoutBinding(AsU32(k), groups[i].ty, 1, groups[i].stageFlags, false)
  {
    ExpandBlock(groups, i, j);
  }

  /** Conversely, every entry is a copy of some group: entry `k` is copy
      `j` of group `i` for some `i` and `j < groups[i].times`. That owner is
      unique by `SetLayoutBindingsOwnerUnique`. */
  lemma {:induction false} SetLayoutBindingsOwner<T, S>(groups: seq<BindingGroup<T, S>>, k: nat)
    returns (i: nat, j: nat)
    requires k < TotalTimes(groups)
    ensures i < |groups| && j < groups[i].times
    ensures k == TotalTimes(groups[..i]) + j
    decreases |groups|
  {
    if k < groups[0].times {
      i, j := 0, k;
    } else {
      var i', j' := SetLayoutBindingsOwner(groups[1..], k - groups[0].times);
      i, j := i' + 1, j';
      PrefixTimes(groups, i);
    }
  }

  /** No entry belongs to two groups: two (group, copy) positions that land
      on the same entry are the same position. */
  lemma {:induction false} SetLayoutBindingsOwnerUnique<T, S>(
    groups: seq<BindingGroup<T, S>>, i: nat, j: nat, i': nat, j': nat)
    requires i < |groups| && j < groups[i].times
    requires i' < |groups| && j' < groups[i'].times
    requires TotalTimes(groups[..i]) + j == TotalTimes(groups[..i']) + j'
    ensures i == i' && j == j'
    decreases i + i'
  {
    if i > 0 && i' > 0 {
      PrefixTimes(groups, i);
      PrefixTimes(groups, i');
      SetLayoutBindingsOwnerUnique(groups[1..], i - 1, j, i' - 1, j');
    } else if i > 0 {
      PrefixTimes(groups, i);
    } else if i' > 0 {
      PrefixTimes(groups, i');
    }
  }
}
