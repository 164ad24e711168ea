/** Vertex input layout numbering (`push_vertex_desc`, `vertex_desc`).
    Vertex elements are opaque values of type `E`. */
module VertexLayout {
  import opened MachineInts

  datatype InstanceRate = PerVertex | PerInstance(step: nat)

  /** `pso::VertexBufferDesc`. */
  datatype VertexBufferDesc = VertexBufferDesc(binding: nat, stride: nat, rate: InstanceRate)

  /** `pso::AttributeDesc`. */
  datatype AttributeDesc<E> = AttributeDesc(location: nat, binding: nat, element: E)

  /** A vertex format as its input description presents it: its elements,
      in order, and its stride. */
  datatype VertexFormat<E> = VertexFormat(elements: seq<E>, stride: nat)

  /** The location the next attribute gets: one past the last attribute's,
      or 0 for an empty list. */
  function NextLocation<E>(attributes: seq<AttributeDesc<E>>): nat {
    if |attributes| == 0 then 0 else attributes[|attributes| - 1].location + 1
  }

  /** `push_vertex_desc`: append one vertex buffer bound at the current
      buffer count, and one attribute per element on consecutive locations.
      The source's `u32` location counter must not overflow. */
  method PushVertexDesc<E>(
    elements: seq<E>, stride: nat, rate: InstanceRate,
    buffers: seq<VertexBufferDesc>, attributes: seq<AttributeDesc<E>>)
    returns (buffers': seq<VertexBufferDesc>, attributes': seq<AttributeDesc<E>>)
    requires NextLocation(attributes) + |elements| <= U32_MAX
    ensures buffers' == buffers + [VertexBufferDesc(AsU32(|buffers|), stride, rate)]
    ensures |attributes'| == |attributes| + |elements|
    ensures attributes'[..|attributes|] == attributes
    ensures forall j :: 0 <= j < |elements| ==>
              attributes'[|attributes| + j]
              == AttributeDesc(NextLocation(attributes) + j, AsU32(|buffers|), elements[j])
  {
    var index := AsU32(|buffers|);
    buffers' := buffers + [VertexBufferDesc(index, stride, rate)];
    var location := NextLocation(attributes);
    attributes' := attributes;
    var n := 0;
    while n < |elements|
      invariant 0 <= n <= |elements|
      invariant location == NextLocation(attributes) + n
      invariant |attributes'| == |attributes| + n
      invariant attributes'[..|attributes|] == attributes
      invariant forall j :: 0 <= j < n ==>
                  attributes'[|attributes| + j]
                  == AttributeDesc(NextLocation(attributes) + j, index, elements[j])
    {
      attributes' := attributes' + [AttributeDesc(location, index, elements[n])];
      location := location + 1;
      n := n + 1;
    }
  }

  /** The number of elements of all formats together. */
  function TotalElements<E>(formats: seq<(VertexFormat<E>, InstanceRate)>): nat {
    if |formats| == 0 then 0
    else TotalElements(formats[..|formats| - 1]) + |formats[|formats| - 1].0.elements|
  }

  /** Format `i`'s elements come before the end of any longer prefix. */
  lemma {:induction false} TotalElementsPrefix<E>(
    formats: seq<(VertexFormat<E>, InstanceRate)>, i: nat, n: nat)
    requires i < n <= |formats|
    ensures TotalElements(formats[..i]) + |formats[i].0.elements| <= TotalElements(formats[..n])
    decreases n
  {
    assert formats[..n][..n - 1] == formats[..n - 1];
    if i < n - 1 {
      TotalElementsPrefix(formats, i, n - 1);
    } else {
      assert formats[..n - 1] == formats[..i];
    }
  }

  /** Element `j` of format `i` is attribute number `TotalElements(formats[..i]) + j`,
      at that same location and bound to buffer `i`. */
  ghost predicate AttributeFor<E>(
    attributes: seq<AttributeDesc<E>>, formats: seq<(VertexFormat<E>, InstanceRate)>, i: int, j: int)
    requires 0 <= i < |formats| && 0 <= j < |formats[i].0.elements|
  {
    var k := TotalElements(formats[..i]) + j;
    k < |attributes| && attributes[k] == AttributeDesc(k, AsU32(i), formats[i].0.elements[j])
  }

  /** `buffers` and `attributes` describe the first `n` formats: buffer `i`
      is bound at `i` with format `i`'s stride and rate, and the attributes
      sit on locations 0, 1, 2, ..., one per element, in order. */
  ghost predicate Described<E>(
    formats: seq<(VertexFormat<E>, InstanceRate)>, n: nat,
    buffers: seq<VertexBufferDesc>, attributes: seq<AttributeDesc<E>>)
    requires n <= |formats|
  {
    && |buffers| == n
    && (forall i :: 0 <= i < n ==>
          buffers[i] == VertexBufferDesc(AsU32(i), formats[i].0.stride, formats[i].1))
    && |attributes| == TotalElements(formats[..n])
    && (forall k :: 0 <= k < |attributes| ==> attributes[k].location == k)
    && (forall i, j :: 0 <= i < n && 0 <= j < |formats[i].0.elements| ==>
          AttributeFor(attributes, formats, i, j))
  }

  /** With locations 0, 1, 2, ..., the next location is the attribute count. */
  lemma NextLocationIsCount<E>(attributes: seq<AttributeDesc<E>>)
    requires forall k :: 0 <= k < |attributes| ==> attributes[k].location == k
    ensures NextLocation(attributes) == |attributes|
  {
  }

  /** Pushing format `n` onto a description of the first `n` formats
      describes the first `n + 1`. */
  lemma DescribedStep<E>(
    formats: seq<(VertexFormat<E>, InstanceRate)>, n: nat,
    buffers: seq<VertexBufferDesc>, attributes: seq<AttributeDesc<E>>,
    attributes': seq<AttributeDesc<E>>)
    requires n < |formats| && Described(formats, n, buffers, attributes)
    requires |attributes'| == |attributes| + |formats[n].0.elements|
    requires attributes'[..|attributes|] == attributes
    requires forall j :: 0 <= j < |formats[n].0.elements| ==>
               attributes'[|attributes| + j]
               == AttributeDesc(|attributes| + j, AsU32(n), formats[n].0.elements[j])
    ensures Described(formats, n + 1,
                      buffers + [VertexBufferDesc(AsU32(n), formats[n].0.stride, formats[n].1)],
                      attributes')
  {
    assert formats[..n + 1][..n] == formats[..n];
    forall k | |attributes| <= k < |attributes'|
      ensures attributes'[k].location == k
    {
      var j := k - |attributes|;
      assert attributes'[|attributes| + j]
             == AttributeDesc(|attributes| + j, AsU32(n), formats[n].0.elements[j]);
    }
    forall k | 0 <= k < |attributes|
      ensures attributes'[k] == attributes[k]
    {
      assert attributes'[..|attributes|][k] == attributes'[k];
    }
    forall i, j | 0 <= i <= n && 0 <= j < |formats[i].0.elements|
      ensures AttributeFor(attributes', formats, i, j)
    {
      if i < n {
        TotalElementsPrefix(formats, i, n);
        assert AttributeFor(attributes, formats, i, j);
      }
    }
  }

  /** `vertex_desc`: buffer `i` is bound at `i` with format `i`'s stride and
      rate, and the attributes list every element of every format in order,
      on locations 0, 1, 2, ..., each bound to its format's buffer. */
  method VertexDesc<E>(formats: seq<(VertexFormat<E>, InstanceRate)>)
    returns (buffers: seq<VertexBufferDesc>, attributes: seq<AttributeDesc<E>>)
    requires TotalElements(formats) <= U32_MAX
    ensures |buffers| == |formats|
    ensures forall i :: 0 <= i < |formats| ==>
              buffers[i] == VertexBufferDesc(AsU32(i), formats[i].0.stride, formats[i].1)
    ensures |attributes| == TotalElements(formats)
    ensures forall k :: 0 <= k < |attributes| ==> attributes[k].location == k
    ensures forall i, j :: 0 <= i < |formats| && 0 <= j < |formats[i].0.elements| ==>
              AttributeFor(attributes, formats, i, j)
  {
    buffers, attributes := [], [];
    var n := 0;
    while n < |formats|
      invariant 0 <= n <= |formats|
      invariant Described(formats, n, buffers, attributes)
    {
      TotalElementsPrefix(formats, n, |formats|);
      assert formats[..|formats|] == formats;
      NextLocationIsCount(attributes);
      var (format, rate) := formats[n];
      var attributes' := attributes;
      buffers, attributes' := PushVertexDesc(format.elements, format.stride, rate, buffers, attributes);
      DescribedStep(formats, n, buffers[..n], attributes, attributes');
      assert buffers[..n] + [buffers[n]] == buffers;
      attributes := attributes';
      n := n + 1;
    }
    assert formats[..n] == formats;
  }
}
