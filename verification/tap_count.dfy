/** `TapCountIterator`: an iterator adaptor that bumps a counter on every
    `next` / `next_back` call and passes the inner iterator's items through.
    The inner iterator is a finite double-ended iterator, represented by the
    items it still has to yield. */
module TapCount {
  import opened Results

  datatype TapCountIterator<T> = TapCountIterator(remaining: seq<T>, counter: nat)

  /** The adaptor after one call, and the item that call yielded. */
  datatype Step<T> = Step(iter: TapCountIterator<T>, item: Option<T>)

  /** `Iterator::next`: count the call, then take the inner front item. */
  function Next<T>(it: TapCountIterator<T>): (r: Step<T>)
    ensures r.iter.counter == it.counter + 1
    ensures |it.remaining| == 0 ==> r.item.None? && r.iter.remaining == []
    ensures |it.remaining| > 0 ==>
              r.item == Some(it.remaining[0]) && r.iter.remaining == it.remaining[1..]
  {
    var counter := it.counter + 1;
    if |it.remaining| == 0 then Step(TapCountIterator([], counter), None)
    else Step(TapCountIterator(it.remaining[1..], counter), Some(it.remaining[0]))
  }

  /** `DoubleEndedIterator::next_back`: count the call, then take the inner
      back item. */
  function NextBack<T>(it: TapCountIterator<T>): (r: Step<T>)
    ensures r.iter.counter == it.counter + 1
    ensures |it.remaining| == 0 ==> r.item.None? && r.iter.remaining == []
    ensures |it.remaining| > 0 ==>
              && r.item == Some(it.remaining[|it.remaining| - 1])
              && r.iter.remaining == it.remaining[..|it.remaining| - 1]
  {
    var counter := it.counter + 1;
    var n := |it.remaining|;
    if n == 0 then Step(TapCountIterator([], counter), None)
    else Step(TapCountIterator(it.remaining[..n - 1], counter), Some(it.remaining[n - 1]))
  }

  /** Consuming the adaptor with a `for` loop: the items come out unchanged
      and in order, and the counter grows by one more than the number of
      items, because the final `None` is counted too. */
  method Collect<T>(it: TapCountIterator<T>) returns (items: seq<T>, rest: TapCountIterator<T>)
    ensures items == it.remaining
    ensures rest.remaining == []
    ensures rest.counter == it.counter + |it.remaining| + 1
  {
    items := [];
    var step := Next(it);
    while step.item.Some?
      invariant step.item.Some? ==> items + [step.item.value] + step.iter.remaining == it.remaining
      invariant step.item.None? ==> items == it.remaining && step.iter.remaining == []
      invariant step.iter.counter == it.counter + |items| + 1
      decreases |step.iter.remaining| + (if step.item.Some? then 1 else 0)
    {
      items := items + [step.item.value];
      step := Next(step.iter);
    }
    rest := step.iter;
  }

  /** A run of calls: `true` for `next`, `false` for `next_back`. */
  function Drive<T>(it: TapCountIterator<T>, calls: seq<bool>): TapCountIterator<T>
    decreases |calls|
  {
    if |calls| == 0 then it
    else
      var step := if calls[0] then Next(it) else NextBack(it);
      Drive(step.iter, calls[1..])
  }

  /** Any run of calls, from either end, raises the counter by exactly the
      number of calls, whether or not they yielded an item, and leaves a
      contiguous middle part of the inner items. */
  lemma {:induction false} DriveCountsCalls<T>(it: TapCountIterator<T>, calls: seq<bool>)
    ensures Drive(it, calls).counter == it.counter + |calls|
    ensures exists a, b :: 0 <= a <= b <= |it.remaining| && Drive(it, calls).remaining == it.remaining[a..b]
    ensures |Drive(it, calls).remaining| == if |calls| <= |it.remaining| then |it.remaining| - |calls| else 0
    decreases |calls|
  {
    if |calls| > 0 {
      var step := if calls[0] then Next(it) else NextBack(it);
      DriveCountsCalls(step.iter, calls[1..]);
      var a, b :| 0 <= a <= b <= |step.iter.remaining|
                  && Drive(step.iter, calls[1..]).remaining == step.iter.remaining[a..b];
      var rest := Drive(it, calls).remaining;
      assert rest == step.iter.remaining[a..b];
      if |it.remaining| == 0 {
        assert rest == it.remaining[0..0];
      } else if calls[0] {
        assert step.iter.remaining == it.remaining[1..];
        assert it.remaining[1..][a..b] == it.remaining[a + 1..b + 1];
      } else {
        assert step.iter.remaining == it.remaining[..|it.remaining| - 1];
        assert it.remaining[..|it.remaining| - 1][a..b] == it.remaining[a..b];
      }
    } else {
      assert Drive(it, calls).remaining == it.remaining[0..|it.remaining|];
    }
  }
}
