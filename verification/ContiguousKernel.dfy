/** Materialising a view: the div/mod kernel, its launch, and the flat host copies. */
module ContiguousKernel {
  import opened Wrappers
  import opened Strides
  import opened TensorView
  import opened ViewLayout

  const BLOCK := 256
  const WRAP := 0x1_0000_0000
  const MAX_DIMS := 8

  // ---------------------------------------------------------------- one thread

  /** Offset of the l-th element relative to the data pointer. */
  function SourceIndex(l: int, shape: seq<int>, strides: seq<int>): int
    requires AllPositive(shape) && |shape| == |strides|
  {
    Dot(Unravel(l, shape), strides)
  }

  lemma SourceIndexStep(l: int, shape: seq<int>, strides: seq<int>)
    requires AllPositive(shape) && |shape| == |strides| && shape != []
    ensures var n := |shape| - 1;
            AllPositive(shape[..n])
            && SourceIndex(l, shape, strides)
               == SourceIndex(l / shape[n], shape[..n], strides[..n]) + l % shape[n] * strides[n]
  {
    LastPositive(shape);
    var n := |shape| - 1;
    var idx := Unravel(l, shape);
    assert idx[..n] == Unravel(l / shape[n], shape[..n]);
  }

  /** The loop of the kernel, from the last axis to the first. */
  method LocateSource(linearIdx: int, shape: seq<int>, strides: seq<int>) returns (srcIdx: int)
    requires AllPositive(shape) && |shape| == |strides| && linearIdx >= 0
    ensures srcIdx == SourceIndex(linearIdx, shape, strides)
  {
    srcIdx := 0;
    var temp := linearIdx;
    var i := |shape| - 1;
    assert shape[..i + 1] == shape && strides[..i + 1] == strides;
    hide SourceIndex;
    while i >= 0
      invariant -1 <= i < |shape| && AllPositive(shape[..i + 1])
      invariant SourceIndex(temp, shape[..i + 1], strides[..i + 1]) + srcIdx == SourceIndex(linearIdx, shape, strides)
    {
      SourceIndexStep(temp, shape[..i + 1], strides[..i + 1]);
      assert shape[..i + 1][..i] == shape[..i] && strides[..i + 1][..i] == strides[..i];
      var coord := temp % shape[i];
      temp := temp / shape[i];
      srcIdx := srcIdx + coord * strides[i];
      i := i - 1;
    }
    assert SourceIndex(temp, [], []) == 0 by { SourceIndexEmpty(temp); }
    assert shape[..0] == [] && strides[..0] == [];
  }

  lemma SourceIndexEmpty(l: int)
    ensures SourceIndex(l, [], []) == 0
  {}

  // ---------------------------------------------------------------- the launch

  datatype ThreadId = ThreadId(blockIdx: int, threadIdx: int)

  function GridSize(numel: int): int { (numel + BLOCK - 1) / BLOCK }

  /** No block of the launch is without an element. */
  lemma GridIsLeast(numel: int)
    requires numel >= 1
    ensures GridSize(numel) >= 1 && (GridSize(numel) - 1) * 256 < numel <= GridSize(numel) * 256
  {}

  predicate InLaunch(id: ThreadId, numel: int) { 0 <= id.blockIdx < GridSize(numel) && 0 <= id.threadIdx < BLOCK }

  /** The index is computed in 32-bit unsigned arithmetic before it is widened. */
  function LinearIndex(id: ThreadId): int { (id.blockIdx * BLOCK + id.threadIdx) % WRAP }

  function ThreadFor(l: int): ThreadId { ThreadId(l / BLOCK, l % BLOCK) }

  lemma ThreadForWrites(l: int, numel: int)
    requires 0 <= l < numel && l < WRAP
    ensures InLaunch(ThreadFor(l), numel) && LinearIndex(ThreadFor(l)) == l
  {}

  /** Up to 2^32 elements, every destination is written by exactly one thread of the launch ... */
  lemma WrittenByOneThread(l: int, numel: int, id: ThreadId)
    requires 0 <= l < numel <= WRAP && InLaunch(id, numel)
    ensures InLaunch(ThreadFor(l), numel)
    ensures LinearIndex(id) == l <==> id == ThreadFor(l)
  {
    ThreadForWrites(l, numel);
  }

  ghost predicate Written(l: int, numel: int) { exists id :: InLaunch(id, numel) && LinearIndex(id) == l }

  /** ... and beyond that some destination is written by none. */
  lemma LaunchCoversIff(numel: int)
    requires numel >= 0
    ensures (forall l :: 0 <= l < numel ==> Written(l, numel)) <==> numel <= 0x1_0000_0000
  {
    if numel <= WRAP {
      forall l | 0 <= l < numel ensures Written(l, numel) {
        ThreadForWrites(l, numel);
      }
    } else {
      assert !Written(WRAP, numel);
    }
  }

  /** Elements of a view in row-major order, read through its data pointer. */
  function Element<T>(memory: seq<T>, v: View, l: int): T
    requires Embeds(v) && |memory| == v.extent && 0 <= l < Numel(v)
  {
    ElementInside(v, l);
    memory[Address(v, Unravel(l, v.shape))]
  }

  lemma ElementInside(v: View, l: int)
    requires Embeds(v) && 0 <= l < Numel(v)
    ensures AllPositive(v.shape) && IsIndex(Unravel(l, v.shape), v.shape)
    ensures 0 <= Address(v, Unravel(l, v.shape)) < v.extent
  {
    ProductPositive(v.shape);
    RavelUnravel(l, v.shape);
  }

  /** All threads of the launch, in whatever order the device runs them. */
  method Launch<T>(src: seq<T>, v: View, dst: array<T>, schedule: seq<ThreadId>)
    requires Embeds(v) && |src| == v.extent && Numel(v) <= dst.Length && Numel(v) <= WRAP
    requires forall id :: id in schedule <==> InLaunch(id, Numel(v))
    modifies dst
    ensures forall l :: 0 <= l < Numel(v) ==> dst[l] == Element(src, v, l)
    ensures forall l :: 0 <= l < dst.Length && Numel(v) <= l ==> dst[l] == old(dst[l])
  {
    hide Embeds, Element, Address, Numel, LinearIndex, InLaunch;
    var n := 0;
    while n < |schedule|
      invariant 0 <= n <= |schedule|
      invariant forall l :: 0 <= l < Numel(v) && ThreadFor(l) in schedule[..n] ==> dst[l] == Element(src, v, l)
      invariant forall l :: 0 <= l < dst.Length && Numel(v) <= l ==> dst[l] == old(dst[l])
    {
      var linearIdx := LinearIndex(schedule[n]);
      LinearNonNegative(schedule[n]);
      if linearIdx < Numel(v) {
        LaunchReads(src, v, linearIdx);
        var srcIdx := LocateSource(linearIdx, v.shape, v.strides);
        dst[linearIdx] := src[v.offset + srcIdx];
      }
      forall l | 0 <= l < Numel(v) && ThreadFor(l) in schedule[..n + 1] ensures dst[l] == Element(src, v, l) {
        assert schedule[n] in schedule;
        WrittenByOneThread(l, Numel(v), schedule[n]);
      }
      n := n + 1;
    }
    assert schedule[..n] == schedule;
    forall l | 0 <= l < Numel(v) ensures dst[l] == Element(src, v, l) {
      ThreadForWrites(l, Numel(v));
    }
  }

  lemma LinearNonNegative(id: ThreadId)
    ensures 0 <= LinearIndex(id)
  {}

  lemma LaunchReads<T>(src: seq<T>, v: View, l: int)
    requires Embeds(v) && |src| == v.extent && 0 <= l < Numel(v)
    ensures AllPositive(v.shape) && |v.shape| == |v.strides|
    ensures 0 <= v.offset + SourceIndex(l, v.shape, v.strides) < |src|
    ensures src[v.offset + SourceIndex(l, v.shape, v.strides)] == Element(src, v, l)
  {
    ElementInside(v, l);
  }

  // ---------------------------------------------------------------- contiguous()

  /** A view together with the contents of its buffer. */
  datatype Tensor<T> = Tensor(view: View, buffer: seq<T>) {
    ghost predicate Valid() { Embeds(view) && |buffer| == view.extent }

    ghost function At(idx: seq<int>): T
      requires Valid() && IsIndex(idx, view.shape)
    {
      buffer[Address(view, idx)]
    }
  }

  /** contiguous(): the same tensor when it is contiguous already, else a row-major copy.  The empty
      grid of a view without elements cannot be launched. */
  method Contiguous<T(0)>(t: Tensor<T>, schedule: seq<ThreadId>) returns (r: Result<Tensor<T>, Error>)
    requires t.Valid() && (RowMajor(t.view) || (|t.view.shape| <= MAX_DIMS && Numel(t.view) <= WRAP))
    requires RowMajor(t.view) || forall id :: id in schedule <==> InLaunch(id, Numel(t.view))
    ensures r.Failure? <==> !RowMajor(t.view) && Numel(t.view) == 0
    ensures RowMajor(t.view) ==> r == Success(t)
    ensures r.Success? ==>
              var c := r.value;
              && c.Valid() && RowMajor(c.view) && c.view.shape == t.view.shape
              && (!RowMajor(t.view) ==> c.view.offset == 0 && |c.buffer| == Numel(t.view))
              && forall idx :: IsIndex(idx, t.view.shape) ==> c.At(idx) == t.At(idx)
  {
    ContiguousIff(t.view);
    ContiguousIff(Fresh(t.view.shape));
    if IsContiguous(t.view) {
      return Success(t);
    }
    ProductPositive(t.view.shape);
    if Numel(t.view) == 0 {
      return Failure(LaunchFailed);
    }
    var dst := new T[Numel(t.view)];
    Launch(t.buffer, t.view, dst, schedule);
    var c := Tensor(Fresh(t.view.shape), dst[..]);
    FreshEmbeds(t.view.shape);
    forall idx | IsIndex(idx, t.view.shape) ensures c.At(idx) == t.At(idx) {
      CopyHasElement(t.view, idx, Ravel(idx, t.view.shape));
      assert c.At(idx) == dst[Ravel(idx, t.view.shape)];
    }
    return Success(c);
  }

  lemma CopyHasElement(v: View, idx: seq<int>, l: int)
    requires Embeds(v) && IsIndex(idx, v.shape) && l == Ravel(idx, v.shape)
    ensures 0 <= l < Numel(v) && AllPositive(v.shape) && Unravel(l, v.shape) == idx
    ensures Address(Fresh(v.shape), idx) == l
  {
    RavelBound(idx, v.shape);
    ProductPositive(v.shape);
    UnravelRavel(idx, v.shape);
    ContiguousAddress(Fresh(v.shape), idx);
  }

  // ---------------------------------------------------------------- flat transfers

  /** to_host: a flat copy of numel elements from the data pointer; it is the view's row-major sequence. */
  method ToHost<T>(t: Tensor<T>, host: array<T>, count: int) returns (r: Result<int, Error>)
    requires t.Valid() && count == host.Length
    modifies host
    ensures r == (if !RowMajor(t.view) then Failure(NotContiguous)
                  else if count != Numel(t.view) then Failure(SizeMismatch) else Success(count))
    ensures r.Success? ==> forall l :: 0 <= l < count ==> host[l] == Element(t.buffer, t.view, l)
    ensures r.Failure? ==> host[..] == old(host[..])
  {
    ContiguousIff(t.view);
    if !IsContiguous(t.view) {
      return Failure(NotContiguous);
    }
    if count != Numel(t.view) {
      return Failure(SizeMismatch);
    }
    RangeInside(t.view);
    forall l | 0 <= l < count {
      host[l] := t.buffer[t.view.offset + l];
    }
    forall l | 0 <= l < count ensures host[l] == Element(t.buffer, t.view, l) {
      FlatElement(t.view, l);
    }
    return Success(count);
  }

  lemma FlatElement(v: View, l: int)
    requires Embeds(v) && IsContiguous(v) && 0 <= l < Numel(v)
    ensures 0 <= v.offset + l < v.extent
    ensures AllPositive(v.shape) && Address(v, Unravel(l, v.shape)) == v.offset + l
  {
    ElementInside(v, l);
    ContiguousIsRange(v, l);
  }

  lemma RangeInside(v: View)
    requires Embeds(v) && IsContiguous(v)
    ensures Numel(v) > 0 ==> 0 <= v.offset && v.offset + Numel(v) <= v.extent
  {
    if Numel(v) > 0 {
      FlatElement(v, 0);
      FlatElement(v, Numel(v) - 1);
    }
  }

  /** to_device: the flat copy in the other direction changes exactly the elements of the view. */
  method ToDevice<T>(v: View, buffer: array<T>, host: seq<T>) returns (r: Result<int, Error>)
    requires Embeds(v) && buffer.Length == v.extent
    modifies buffer
    ensures r == (if !RowMajor(v) then Failure(NotContiguous)
                  else if |host| != Numel(v) then Failure(SizeMismatch) else Success(|host|))
    ensures r.Success? ==> forall l :: 0 <= l < |host| ==> Element(buffer[..], v, l) == host[l]
    ensures forall a :: 0 <= a < buffer.Length
                        && (r.Failure? || forall idx :: IsIndex(idx, v.shape) ==> Address(v, idx) != a) ==>
              buffer[a] == old(buffer[a])
  {
    ContiguousIff(v);
    if !IsContiguous(v) {
      return Failure(NotContiguous);
    }
    if |host| != Numel(v) {
      return Failure(SizeMismatch);
    }
    RangeInside(v);
    forall l | 0 <= l < |host| {
      buffer[v.offset + l] := host[l];
    }
    forall l | 0 <= l < |host| ensures Element(buffer[..], v, l) == host[l] {
      FlatElement(v, l);
    }
    forall a | 0 <= a < buffer.Length && buffer[a] != old(buffer[a])
      ensures exists idx :: IsIndex(idx, v.shape) && Address(v, idx) == a
    {
      ElementInside(v, a - v.offset);
      FlatElement(v, a - v.offset);
    }
    return Success(|host|);
  }
}
