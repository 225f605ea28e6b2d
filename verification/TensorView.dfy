/** Strided views of a device buffer and the operations that make new ones without copying. */
module TensorView {
  import opened Arithmetic
  import opened Wrappers
  import opened Strides

  /** `extent` is the number of elements of the underlying buffer. */
  datatype View = View(extent: int, shape: seq<int>, strides: seq<int>, offset: int)

  predicate WellFormed(v: View) { |v.shape| == |v.strides| && IsShape(v.shape) }

  function Numel(v: View): int { Product(v.shape) }

  predicate IsContiguous(v: View) { v.strides == Contiguous(v.shape) }

  /** Buffer position of the element at a multi-index. */
  function Address(v: View, idx: seq<int>): int
    requires |idx| == |v.strides|
  {
    v.offset + Dot(idx, v.strides)
  }

  // ---------------------------------------------------------------- view operations

  datatype Op =
    | Transpose(dim0: int, dim1: int)
    | Permute(dims: seq<int>)
    | Slice(dim: int, start: int, length: int)
    | Reshape(newShape: seq<int>)

  /** A newly allocated tensor. */
  function Fresh(shape: seq<int>): View { View(Product(shape), shape, Contiguous(shape), 0) }

  function Swap(s: seq<int>, i: int, j: int): seq<int>
    requires 0 <= i < |s| && 0 <= j < |s|
  {
    s[i := s[j]][j := s[i]]
  }

  function Gather(s: seq<int>, dims: seq<int>): (r: seq<int>)
    requires forall i :: 0 <= i < |dims| ==> 0 <= dims[i] < |s|
    ensures |r| == |dims|
  {
    seq(|dims|, i requires 0 <= i < |dims| => s[dims[i]])
  }

  predicate InRange(dims: seq<int>, n: nat) { |dims| == n && forall i :: 0 <= i < n ==> 0 <= dims[i] < n }

  /** No dimension of more than one element is listed twice. */
  predicate NoneTwice(shape: seq<int>, dims: seq<int>)
    requires InRange(dims, |shape|)
  {
    forall i, j :: 0 <= i < j < |dims| && dims[i] == dims[j] ==> shape[dims[i]] <= 1
  }

  /** What the source demands of its callers, with what its assertions leave open settled exactly: a permute
      may list a dimension twice if it has only one element, and a slice may start below 0 if it is empty. */
  predicate Legal(v: View, op: Op) {
    match op
    case Transpose(d0, d1) => 0 <= d0 < |v.shape| && 0 <= d1 < |v.shape|
    case Permute(dims) =>
      InRange(dims, |v.shape|) && NoneTwice(v.shape, dims)
      && (AllPositive(v.shape) || !AllPositive(Gather(v.shape, dims)))
    case Slice(dim, start, length) =>
      0 <= dim < |v.shape| && 0 <= length && start + length <= v.shape[dim]
      && (start >= 0 || !AllPositive(v.shape[dim := length]))
    case Reshape(newShape) => IsShape(newShape) && Product(newShape) == Numel(v)
  }

  /** The result of permute for any list of dimensions of the right length: its only assertion. */
  function Permuted(v: View, dims: seq<int>): View
    requires WellFormed(v) && InRange(dims, |v.shape|)
  {
    v.(shape := Gather(v.shape, dims), strides := Gather(v.strides, dims))
  }

  datatype Error = NotContiguous | SizeMismatch | LaunchFailed

  /** The new view; reshape of a view that is not contiguous is refused. */
  function Apply(v: View, op: Op): Result<View, Error>
    requires WellFormed(v) && Legal(v, op)
  {
    match op
    case Transpose(d0, d1) => Success(v.(shape := Swap(v.shape, d0, d1), strides := Swap(v.strides, d0, d1)))
    case Permute(dims) => Success(Permuted(v, dims))
    case Slice(dim, start, length) =>
      Success(v.(shape := v.shape[dim := length], offset := v.offset + start * v.strides[dim]))
    case Reshape(newShape) =>
      if IsContiguous(v) then Success(v.(shape := newShape, strides := Contiguous(newShape)))
      else Failure(NotContiguous)
  }

  /** w comes from v by a chain of legal operations, none of them refused. */
  ghost predicate Derives(v: View, ops: seq<Op>, w: View)
    decreases |ops|
  {
    if ops == [] then w == v
    else WellFormed(v) && Legal(v, ops[0]) && Apply(v, ops[0]).Success? && Derives(Apply(v, ops[0]).value, ops[1..], w)
  }

  // ---------------------------------------------------------------- what a view must satisfy

  /** Each multi-index names its own element of the buffer. */
  ghost predicate Embeds(v: View) {
    && WellFormed(v)
    && (forall idx :: IsIndex(idx, v.shape) ==> 0 <= Address(v, idx) < v.extent)
    && (forall idx, idx' | IsIndex(idx, v.shape) && IsIndex(idx', v.shape) && Address(v, idx) == Address(v, idx') ::
          idx == idx')
  }

  lemma ContiguousAddress(v: View, idx: seq<int>)
    requires WellFormed(v) && IsContiguous(v) && IsIndex(idx, v.shape)
    ensures Address(v, idx) == v.offset + Ravel(idx, v.shape)
    ensures v.offset <= Address(v, idx) < v.offset + Numel(v)
  {
    DotIsRavel(idx, v.shape);
    RavelBound(idx, v.shape);
  }

  lemma ContiguousInjective(v: View)
    requires WellFormed(v) && IsContiguous(v)
    ensures forall idx, idx' | IsIndex(idx, v.shape) && IsIndex(idx', v.shape) && Address(v, idx) == Address(v, idx') ::
              idx == idx'
  {
    forall idx, idx' | IsIndex(idx, v.shape) && IsIndex(idx', v.shape) && Address(v, idx) == Address(v, idx')
      ensures idx == idx'
    {
      ContiguousAddress(v, idx);
      ContiguousAddress(v, idx');
      RavelInjective(idx, idx', v.shape);
    }
  }

  lemma FreshEmbeds(shape: seq<int>)
    requires IsShape(shape)
    ensures Embeds(Fresh(shape))
  {
    var v := Fresh(shape);
    forall idx | IsIndex(idx, v.shape) ensures 0 <= Address(v, idx) < v.extent {
      ContiguousAddress(v, idx);
    }
    ContiguousInjective(v);
  }

  // ---------------------------------------------------------------- where the elements of a new view come from

  /** The index of the original view that an index of the permuted one stands for: coordinates of the same
      dimension are added up, a dimension that is not listed stays at 0. */
  function Collect(n: nat, dims: seq<int>, idx: seq<int>): (p: seq<int>)
    requires |dims| == |idx| && forall i :: 0 <= i < |dims| ==> 0 <= dims[i] < n
    ensures |p| == n
  {
    if dims == [] then seq(n, _ => 0)
    else
      var k := |dims| - 1;
      var p := Collect(n, dims[..k], idx[..k]);
      p[dims[k] := p[dims[k]] + idx[k]]
  }

  /** The parent index of an index of the new view. */
  ghost function Parent(v: View, op: Op, idx: seq<int>): (p: seq<int>)
    requires WellFormed(v) && Legal(v, op) && Apply(v, op).Success? && IsIndex(idx, Apply(v, op).value.shape)
    ensures |p| == |v.shape|
  {
    match op
    case Transpose(d0, d1) => Swap(idx, d0, d1)
    case Permute(dims) => Collect(|v.shape|, dims, idx)
    case Slice(dim, start, _) => idx[dim := idx[dim] + start]
    case Reshape(newShape) =>
      RavelBound(idx, newShape);
      ProductPositive(v.shape);
      Unravel(Ravel(idx, newShape), v.shape)
  }

  /** For every operation: the element of the new view is the element of the old view at the parent
      index, and different indices have different parents. */
  ghost predicate Selects(v: View, op: Op, idx: seq<int>)
    requires WellFormed(v) && Legal(v, op) && Apply(v, op).Success? && IsIndex(idx, Apply(v, op).value.shape)
  {
    var w := Apply(v, op).value;
    WellFormed(w) && IsIndex(Parent(v, op, idx), v.shape) && Address(w, idx) == Address(v, Parent(v, op, idx))
  }

  lemma {:induction false} DotShift(idx: seq<int>, s: seq<int>, dim: nat, start: int)
    requires |idx| == |s| && dim < |s|
    ensures Dot(idx[dim := idx[dim] + start], s) == Dot(idx, s) + start * s[dim]
    decreases |s|
  {
    var n := |s| - 1;
    var shifted := idx[dim := idx[dim] + start];
    if dim < n {
      DotShift(idx[..n], s[..n], dim, start);
      assert shifted[..n] == idx[..n][dim := idx[..n][dim] + start];
    } else {
      assert shifted[..n] == idx[..n];
      MulDistributes(idx[n], start, s[n]);
    }
  }

  lemma {:induction false} DotZeros(n: nat, s: seq<int>)
    requires |s| == n
    ensures Dot(seq(n, _ => 0), s) == 0
  {
    if n > 0 {
      DotZeros(n - 1, s[..n - 1]);
      assert seq(n, _ => 0)[..n - 1] == seq(n - 1, _ => 0);
    }
  }

  lemma {:induction false} DotCollect(s: seq<int>, dims: seq<int>, idx: seq<int>)
    requires |dims| == |idx| && forall i :: 0 <= i < |dims| ==> 0 <= dims[i] < |s|
    ensures Dot(Collect(|s|, dims, idx), s) == Dot(idx, Gather(s, dims))
    decreases |dims|
  {
    if dims == [] {
      DotZeros(|s|, s);
    } else {
      var k := |dims| - 1;
      DotCollect(s, dims[..k], idx[..k]);
      assert Gather(s, dims)[..k] == Gather(s, dims[..k]);
      DotShift(Collect(|s|, dims[..k], idx[..k]), s, dims[k], idx[k]);
    }
  }

  /** Coordinate d adds up nothing when all its entries are 0, and is entry i when all others are. */
  lemma {:induction false} CollectAt(n: nat, dims: seq<int>, idx: seq<int>, d: nat, i: int)
    requires |dims| == |idx| && forall k :: 0 <= k < |dims| ==> 0 <= dims[k] < n
    requires d < n && forall k :: 0 <= k < |dims| && dims[k] == d && k != i ==> idx[k] == 0
    ensures Collect(n, dims, idx)[d] == if 0 <= i < |dims| && dims[i] == d then idx[i] else 0
    decreases |dims|
  {
    if dims != [] {
      CollectAt(n, dims[..|dims| - 1], idx[..|dims| - 1], d, i);
    }
  }

  lemma PermutedAddress(v: View, dims: seq<int>, idx: seq<int>)
    requires WellFormed(v) && InRange(dims, |v.shape|) && |idx| == |dims|
    ensures Address(Permuted(v, dims), idx) == Address(v, Collect(|v.shape|, dims, idx))
  {
    DotCollect(v.strides, dims, idx);
  }

  /** Without such a repetition every index collects to an index of the view, which determines it. */
  lemma CollectIsIndex(v: View, dims: seq<int>, idx: seq<int>)
    requires WellFormed(v) && AllPositive(v.shape) && InRange(dims, |v.shape|) && NoneTwice(v.shape, dims)
    requires IsIndex(idx, Gather(v.shape, dims))
    ensures var p := Collect(|v.shape|, dims, idx);
            IsIndex(p, v.shape) && forall i :: 0 <= i < |dims| ==> idx[i] == p[dims[i]]
  {
    var n := |v.shape|;
    var p := Collect(n, dims, idx);
    forall d | 0 <= d < n ensures 0 <= p[d] < v.shape[d] {
      if i :| 0 <= i < n && dims[i] == d {
        OthersZero(v, dims, idx, i);
        CollectAt(n, dims, idx, d, i);
      } else {
        CollectAt(n, dims, idx, d, -1);
      }
    }
    forall i | 0 <= i < |dims| ensures idx[i] == p[dims[i]] {
      OthersZero(v, dims, idx, i);
      CollectAt(n, dims, idx, dims[i], i);
    }
  }

  lemma OthersZero(v: View, dims: seq<int>, idx: seq<int>, i: nat)
    requires WellFormed(v) && InRange(dims, |v.shape|) && NoneTwice(v.shape, dims)
    requires IsIndex(idx, Gather(v.shape, dims)) && i < |dims|
    ensures forall k :: 0 <= k < |dims| && dims[k] == dims[i] && k != i ==> idx[k] == 0
  {
    forall k | 0 <= k < |dims| && dims[k] == dims[i] && k != i ensures idx[k] == 0 {
      assert v.shape[dims[k]] <= 1;
    }
  }

  lemma PermuteSelects(v: View, dims: seq<int>, idx: seq<int>)
    requires WellFormed(v) && Legal(v, Permute(dims)) && IsIndex(idx, Gather(v.shape, dims))
    ensures Selects(v, Permute(dims), idx)
    ensures forall i :: 0 <= i < |dims| ==> idx[i] == Parent(v, Permute(dims), idx)[dims[i]]
  {
    hide Dot, Product, Contiguous;
    assert AllPositive(Gather(v.shape, dims));
    CollectIsIndex(v, dims, idx);
    PermutedAddress(v, dims, idx);
  }

  function SwappedRange(n: nat, i: int, j: int): (dims: seq<int>)
    requires 0 <= i < n && 0 <= j < n
    ensures |dims| == n && forall k :: 0 <= k < n ==> dims[k] == if k == i then j else if k == j then i else k
  {
    seq(n, k => if k == i then j else if k == j then i else k)
  }

  /** Swapping two dimensions is listing them the other way round. */
  lemma SwapIsGather(s: seq<int>, i: int, j: int)
    requires 0 <= i < |s| && 0 <= j < |s|
    ensures Swap(s, i, j) == Gather(s, SwappedRange(|s|, i, j))
  {}

  lemma SwapIsCollect(s: seq<int>, i: int, j: int)
    requires 0 <= i < |s| && 0 <= j < |s|
    ensures Swap(s, i, j) == Collect(|s|, SwappedRange(|s|, i, j), s)
  {
    hide Collect, SwappedRange;
    var dims := SwappedRange(|s|, i, j);
    forall d | 0 <= d < |s| ensures Collect(|s|, dims, s)[d] == Swap(s, i, j)[d] {
      CollectAt(|s|, dims, s, d, dims[d]);
    }
  }

  lemma TransposeSelects(v: View, d0: int, d1: int, idx: seq<int>)
    requires WellFormed(v) && Legal(v, Transpose(d0, d1)) && IsIndex(idx, Swap(v.shape, d0, d1))
    ensures Selects(v, Transpose(d0, d1), idx)
  {
    hide Dot, Product, Contiguous;
    SwapIsCollect(idx, d0, d1);
    SwapIsGather(v.strides, d0, d1);
    DotCollect(v.strides, SwappedRange(|idx|, d0, d1), idx);
  }

  lemma SliceSelects(v: View, dim: int, start: int, length: int, idx: seq<int>)
    requires WellFormed(v) && Legal(v, Slice(dim, start, length)) && IsIndex(idx, v.shape[dim := length])
    ensures Selects(v, Slice(dim, start, length), idx)
  {
    DotShift(idx, v.strides, dim, start);
  }

  lemma ReshapeSelects(v: View, newShape: seq<int>, idx: seq<int>)
    requires WellFormed(v) && Legal(v, Reshape(newShape)) && IsContiguous(v) && IsIndex(idx, newShape)
    ensures Selects(v, Reshape(newShape), idx)
    ensures Ravel(Parent(v, Reshape(newShape), idx), v.shape) == Ravel(idx, newShape)
  {
    var w := Apply(v, Reshape(newShape)).value;
    RavelBound(idx, newShape);
    ProductPositive(v.shape);
    RavelUnravel(Ravel(idx, newShape), v.shape);
    ContiguousAddress(w, idx);
    ContiguousAddress(v, Parent(v, Reshape(newShape), idx));
  }

  lemma ApplyWellFormed(v: View, op: Op)
    requires WellFormed(v) && Legal(v, op) && Apply(v, op).Success?
    ensures WellFormed(Apply(v, op).value)
    ensures Apply(v, op).value.extent == v.extent
  {}

  /** One operation: every element of the new view is the element of the old one at the parent index. */
  lemma ApplySelects(v: View, op: Op, idx: seq<int>)
    requires WellFormed(v) && Legal(v, op) && Apply(v, op).Success? && IsIndex(idx, Apply(v, op).value.shape)
    ensures Selects(v, op, idx)
  {
    match op
    case Transpose(d0, d1) => TransposeSelects(v, d0, d1, idx);
    case Permute(dims) => PermuteSelects(v, dims, idx);
    case Slice(dim, start, length) => SliceSelects(v, dim, start, length, idx);
    case Reshape(newShape) => ReshapeSelects(v, newShape, idx);
  }

  lemma ParentInjective(v: View, op: Op, idx: seq<int>, idx': seq<int>)
    requires WellFormed(v) && Legal(v, op) && Apply(v, op).Success?
    requires IsIndex(idx, Apply(v, op).value.shape) && IsIndex(idx', Apply(v, op).value.shape)
    requires Parent(v, op, idx) == Parent(v, op, idx')
    ensures idx == idx'
  {
    match op
    case Transpose(d0, d1) =>
      assert Swap(Swap(idx, d0, d1), d0, d1) == idx && Swap(Swap(idx', d0, d1), d0, d1) == idx';
    case Permute(dims) =>
      PermuteSelects(v, dims, idx);
      PermuteSelects(v, dims, idx');
    case Slice(dim, start, _) =>
      var p, p' := idx[dim := idx[dim] + start], idx'[dim := idx'[dim] + start];
      forall d | 0 <= d < |idx| ensures idx[d] == idx'[d] {
        assert p[d] == p'[d];
      }
    case Reshape(newShape) =>
      ReshapeSelects(v, newShape, idx);
      ReshapeSelects(v, newShape, idx');
      RavelInjective(idx, idx', newShape);
  }

  lemma ApplyEmbeds(v: View, op: Op)
    requires Embeds(v) && Legal(v, op) && Apply(v, op).Success?
    ensures Embeds(Apply(v, op).value)
  {
    hide Legal, Apply, Parent, Address;
    var w := Apply(v, op).value;
    ApplyWellFormed(v, op);
    forall idx | IsIndex(idx, w.shape) ensures 0 <= Address(w, idx) < w.extent {
      ApplySelects(v, op, idx);
    }
    forall idx, idx' | IsIndex(idx, w.shape) && IsIndex(idx', w.shape) && Address(w, idx) == Address(w, idx')
      ensures idx == idx'
    {
      ApplySelects(v, op, idx);
      ApplySelects(v, op, idx');
      ParentInjective(v, op, idx, idx');
    }
  }

  /** Whatever the chain of operations, the view maps its multi-indices injectively into the buffer
      and never outside it. */
  lemma {:induction false} DerivedEmbeds(v: View, ops: seq<Op>, w: View)
    requires Embeds(v) && Derives(v, ops, w)
    ensures Embeds(w) && w.extent == v.extent
    decreases |ops|
  {
    if ops != [] {
      hide Embeds, Legal, Apply, WellFormed;
      DerivedEmbedsStep(v, ops, w);
      DerivedEmbeds(Apply(v, ops[0]).value, ops[1..], w);
    }
  }

  lemma DerivedEmbedsStep(v: View, ops: seq<Op>, w: View)
    requires Embeds(v) && Derives(v, ops, w) && ops != []
    ensures WellFormed(v) && Legal(v, ops[0]) && Apply(v, ops[0]).Success?
    ensures Embeds(Apply(v, ops[0]).value) && Apply(v, ops[0]).value.extent == v.extent
  {
    ApplyEmbeds(v, ops[0]);
    ApplyWellFormed(v, ops[0]);
  }

  lemma ReachableEmbeds(shape: seq<int>, ops: seq<Op>, w: View)
    requires IsShape(shape) && Derives(Fresh(shape), ops, w)
    ensures Embeds(w) && w.extent == Product(shape)
  {
    FreshEmbeds(shape);
    DerivedEmbeds(Fresh(shape), ops, w);
  }

  /** The element of the original view that an index of a derived view stands for. */
  ghost function Root(v: View, ops: seq<Op>, w: View, idx: seq<int>): (root: seq<int>)
    requires Embeds(v) && Derives(v, ops, w) && IsIndex(idx, w.shape)
    ensures Embeds(w) && IsIndex(root, v.shape) && Address(w, idx) == Address(v, root)
    decreases |ops|
  {
    if ops == [] then idx
    else
      var next := Apply(v, ops[0]).value;
      DerivedEmbedsStep(v, ops, w);
      var inner := Root(next, ops[1..], w, idx);
      ApplySelects(v, ops[0], inner);
      Parent(v, ops[0], inner)
  }

  // ---------------------------------------------------------------- contiguity

  /** Element l of a contiguous view, in row-major order, is buffer element offset + l:
      a flat copy transfers the view. */
  lemma ContiguousIsRange(v: View, l: int)
    requires WellFormed(v) && IsContiguous(v) && 0 <= l < Numel(v)
    ensures AllPositive(v.shape) && Address(v, Unravel(l, v.shape)) == v.offset + l
  {
    ProductPositive(v.shape);
    RavelUnravel(l, v.shape);
    ContiguousAddress(v, Unravel(l, v.shape));
  }

  /** Reshape keeps the row-major sequence of elements. */
  lemma ReshapeKeepsOrder(v: View, newShape: seq<int>, l: int)
    requires WellFormed(v) && IsContiguous(v) && Legal(v, Reshape(newShape)) && 0 <= l < Numel(v)
    ensures var w := Apply(v, Reshape(newShape)).value;
            AllPositive(v.shape) && AllPositive(newShape) && Numel(w) == Numel(v)
            && Address(w, Unravel(l, newShape)) == Address(v, Unravel(l, v.shape))
  {
    ContiguousIsRange(v, l);
    ContiguousIsRange(Apply(v, Reshape(newShape)).value, l);
  }

  // ---------------------------------------------------------------- what the assertions admit beyond the legal

  /** The source's assertion on a slice admits a negative start and a negative length.  Its elements are
      elements of the parent view exactly when the start is not negative (or there are none). */
  lemma SliceStaysInsideIff(v: View, dim: int, start: int, length: int)
    requires WellFormed(v) && 0 <= dim < |v.shape| && start + length <= v.shape[dim]
    ensures (forall idx :: IsIndex(idx, v.shape[dim := length]) ==> IsIndex(idx[dim := idx[dim] + start], v.shape))
            <==> start >= 0 || !AllPositive(v.shape[dim := length])
  {
    var sliced := v.shape[dim := length];
    if start < 0 && AllPositive(sliced) {
      var origin := seq(|sliced|, _ => 0);
      assert IsIndex(origin, sliced);
      assert !IsIndex(origin[dim := origin[dim] + start], v.shape);
    } else {
      forall idx | IsIndex(idx, sliced) ensures IsIndex(idx[dim := idx[dim] + start], v.shape) {
        if start < 0 {
          assert false;
        }
        assert forall d :: 0 <= d < |v.shape| && d != dim ==> sliced[d] == v.shape[d];
      }
    }
  }

  function Unit(n: nat, i: nat): (u: seq<int>)
    requires i < n
    ensures |u| == n
  {
    seq(n, k => if k == i then 1 else 0)
  }

  /** With one, two indices of the result name the same element. */
  lemma RepeatedDimension(v: View, dims: seq<int>, i: nat, j: nat)
    requires WellFormed(v) && AllPositive(v.shape) && InRange(dims, |v.shape|)
    requires i < j < |dims| && dims[i] == dims[j] && v.shape[dims[i]] > 1
    ensures !Embeds(Permuted(v, dims))
  {
    var n, w := |dims|, Permuted(v, dims);
    PermutedAddress(v, dims, Unit(n, i));
    PermutedAddress(v, dims, Unit(n, j));
    var p, q := Collect(n, dims, Unit(n, i)), Collect(n, dims, Unit(n, j));
    forall d | 0 <= d < n ensures p[d] == q[d] {
      CollectAt(n, dims, Unit(n, i), d, i);
      CollectAt(n, dims, Unit(n, j), d, j);
    }
    assert p == q;
    assert IsIndex(Unit(n, i), w.shape) && IsIndex(Unit(n, j), w.shape);
    assert Unit(n, i)[i] != Unit(n, j)[i];
  }

  /** permute of a view with elements gives a view that embeds if and only if no dimension of more than one
      element is listed twice; being a permutation is more than that needs. */
  lemma PermuteEmbedsIff(v: View, dims: seq<int>)
    requires Embeds(v) && AllPositive(v.shape) && InRange(dims, |v.shape|)
    ensures Embeds(Permuted(v, dims)) <==> NoneTwice(v.shape, dims)
  {
    hide Address;
    var w := Permuted(v, dims);
    if NoneTwice(v.shape, dims) {
      forall idx | IsIndex(idx, w.shape) ensures 0 <= Address(w, idx) < w.extent {
        CollectIsIndex(v, dims, idx);
        PermutedAddress(v, dims, idx);
      }
      forall idx, idx' | IsIndex(idx, w.shape) && IsIndex(idx', w.shape) && Address(w, idx) == Address(w, idx')
        ensures idx == idx'
      {
        CollectIsIndex(v, dims, idx);
        CollectIsIndex(v, dims, idx');
        PermutedAddress(v, dims, idx);
        PermutedAddress(v, dims, idx');
        assert |idx| == |idx'| == |dims|;
      }
    } else {
      var i, j :| 0 <= i < j < |dims| && dims[i] == dims[j] && v.shape[dims[i]] > 1;
      RepeatedDimension(v, dims, i, j);
    }
  }
}
