/** What contiguity means for the layout of a view, and which elements each operation shows. */
module ViewLayout {
  import opened Arithmetic
  import opened Strides
  import opened TensorView

  // ---------------------------------------------------------------- contiguity

  /** Each stride is the number of elements in one slice along its dimension; the offset is free. */
  predicate RowMajor(v: View)
    requires |v.strides| == |v.shape|
  {
    forall i :: 0 <= i < |v.shape| ==> v.strides[i] == Product(v.shape[i + 1..])
  }

  lemma ContiguousIff(v: View)
    requires |v.strides| == |v.shape|
    ensures IsContiguous(v) <==> forall i :: 0 <= i < |v.shape| ==> v.strides[i] == Product(v.shape[i + 1..])
  {
    forall i | 0 <= i < |v.shape| ensures Contiguous(v.shape)[i] == Product(v.shape[i + 1..]) {
      StrideIsSuffixProduct(v.shape, i);
    }
  }

  lemma {:induction false} DotAgrees(idx: seq<int>, a: seq<int>, b: seq<int>)
    requires |idx| == |a| == |b| && forall i :: 0 <= i < |idx| ==> idx[i] == 0 || a[i] == b[i]
    ensures Dot(idx, a) == Dot(idx, b)
    decreases |idx|
  {
    if idx != [] {
      var n := |idx| - 1;
      DotAgrees(idx[..n], a[..n], b[..n]);
    }
  }

  lemma DotUnit(n: nat, i: nat, s: seq<int>)
    requires i < n == |s|
    ensures Dot(Unit(n, i), s) == s[i]
  {
    var zeros := seq(n, _ => 0);
    DotZeros(n, s);
    DotShift(zeros, s, i, 1);
    assert Unit(n, i) == zeros[i := zeros[i] + 1];
  }

  /** The elements of a view lie one after the other in the buffer, from its offset on. */
  ghost predicate IsFlat(v: View)
    requires WellFormed(v) && AllPositive(v.shape)
  {
    forall l :: 0 <= l < Numel(v) ==> Address(v, Unravel(l, v.shape)) == v.offset + l
  }

  /** A view with elements lies flat if and only if the strides of its dimensions of more than one element are
      row-major; is_contiguous compares the strides of the other dimensions, too. */
  lemma FlatIff(v: View)
    requires WellFormed(v) && AllPositive(v.shape)
    ensures IsFlat(v) <==> forall i :: 0 <= i < |v.shape| && v.shape[i] > 1 ==> v.strides[i] == Product(v.shape[i + 1..])
  {
    hide Unravel, Dot;
    if IsFlat(v) {
      forall i | 0 <= i < |v.shape| && v.shape[i] > 1 ensures v.strides[i] == Product(v.shape[i + 1..]) {
        FlatStride(v, i);
      }
    } else if forall i :: 0 <= i < |v.shape| && v.shape[i] > 1 ==> v.strides[i] == Product(v.shape[i + 1..]) {
      forall l | 0 <= l < Numel(v) ensures Address(v, Unravel(l, v.shape)) == v.offset + l {
        RowMajorFlat(v, l);
      }
    }
  }

  lemma FlatStride(v: View, i: nat)
    requires WellFormed(v) && AllPositive(v.shape) && IsFlat(v) && i < |v.shape| && v.shape[i] > 1
    ensures v.strides[i] == Product(v.shape[i + 1..])
  {
    hide Dot, Ravel, Unravel, Product;
    var u := Unit(|v.shape|, i);
    assert IsIndex(u, v.shape);
    RavelBound(u, v.shape);
    UnravelRavel(u, v.shape);
    DotIsRavel(u, v.shape);
    DotUnit(|v.shape|, i, Contiguous(v.shape));
    StrideIsSuffixProduct(v.shape, i);
    DotUnit(|v.shape|, i, v.strides);
  }

  lemma RowMajorFlat(v: View, l: int)
    requires WellFormed(v) && AllPositive(v.shape) && 0 <= l < Numel(v)
    requires forall i :: 0 <= i < |v.shape| && v.shape[i] > 1 ==> v.strides[i] == Product(v.shape[i + 1..])
    ensures Address(v, Unravel(l, v.shape)) == v.offset + l
  {
    hide Dot, Ravel, Unravel, Product;
    var idx := Unravel(l, v.shape);
    RavelUnravel(l, v.shape);
    DotIsRavel(idx, v.shape);
    forall i | 0 <= i < |idx| ensures idx[i] == 0 || v.strides[i] == Contiguous(v.shape)[i] {
      StrideIsSuffixProduct(v.shape, i);
    }
    DotAgrees(idx, v.strides, Contiguous(v.shape));
  }

  /** A new tensor is row-major, and its elements in order are exactly its buffer. */
  lemma NewTensorFillsBuffer(shape: seq<int>, l: int)
    requires IsShape(shape) && 0 <= l < Fresh(shape).extent
    ensures RowMajor(Fresh(shape)) && Fresh(shape).shape == shape && Numel(Fresh(shape)) == Fresh(shape).extent
    ensures AllPositive(shape) && Address(Fresh(shape), Unravel(l, shape)) == l
  {
    ContiguousIff(Fresh(shape));
    ContiguousIsRange(Fresh(shape), l);
  }

  // ---------------------------------------------------------------- slices of contiguous views

  lemma {:induction false} ProductHead(s: seq<int>)
    requires s != []
    ensures Product(s) == s[0] * Product(s[1..])
    decreases |s|
  {
    var n := |s| - 1;
    if n > 0 {
      ProductHead(s[..n]);
      assert s[..n][1..] == s[1..][..n - 1];
      MulAssociates(s[0], Product(s[..n][1..]), s[n]);
    } else {
      assert s[..0] == [] && s[1..] == [];
    }
  }

  /** Slicing the first dimension keeps a view contiguous, wherever the slice starts; slicing a later one does
      only if it takes all of it. */
  lemma SliceContiguousIff(v: View, dim: int, start: int, length: int)
    requires WellFormed(v) && AllPositive(v.shape) && IsContiguous(v) && Legal(v, Slice(dim, start, length)) && length > 0
    ensures IsContiguous(Apply(v, Slice(dim, start, length)).value) <==> dim == 0 || length == v.shape[dim]
  {
    hide Product, Contiguous;
    var w := Apply(v, Slice(dim, start, length)).value;
    if dim == 0 {
      RowSliceContiguous(v, start, length);
    } else if length == v.shape[dim] {
      assert w.shape == v.shape;
    } else {
      ShorterSuffix(v.shape, dim, length);
      StrideIsSuffixProduct(v.shape, dim - 1);
      StrideIsSuffixProduct(w.shape, dim - 1);
    }
  }

  lemma ShorterSuffix(shape: seq<int>, dim: nat, length: int)
    requires AllPositive(shape) && dim < |shape| && length != shape[dim]
    ensures Product(shape[dim := length][dim..]) != Product(shape[dim..])
  {
    hide Product;
    var sliced := shape[dim := length];
    ProductHead(shape[dim..]);
    ProductHead(sliced[dim..]);
    var rest := shape[dim + 1..];
    assert shape[dim..][1..] == rest && sliced[dim..][1..] == rest;
    ProductPositive(rest);
    ScaledApart(length, shape[dim], Product(rest));
  }

  lemma ScaledApart(a: int, b: int, c: int)
    requires a != b && c > 0
    ensures a * c != b * c
  {
    MulDistributes(a, b, c);
  }

  lemma RowSliceContiguous(v: View, start: int, length: int)
    requires WellFormed(v) && IsContiguous(v) && Legal(v, Slice(0, start, length))
    ensures IsContiguous(Apply(v, Slice(0, start, length)).value)
  {
    var w := Apply(v, Slice(0, start, length)).value;
    ContiguousIff(v);
    ContiguousIff(w);
    forall i | 0 <= i < |w.shape| ensures w.strides[i] == Product(w.shape[i + 1..]) {
      assert w.shape[i + 1..] == v.shape[i + 1..];
    }
  }

  /** So a slice of rows can be reshaped and transferred. */
  lemma RowSliceReshapes(v: View, start: int, length: int, newShape: seq<int>)
    requires WellFormed(v) && IsContiguous(v) && Legal(v, Slice(0, start, length))
    requires Legal(Apply(v, Slice(0, start, length)).value, Reshape(newShape))
    ensures Apply(Apply(v, Slice(0, start, length)).value, Reshape(newShape)).Success?
    ensures RowMajor(Apply(v, Slice(0, start, length)).value)
  {
    RowSliceContiguous(v, start, length);
    ContiguousIff(Apply(v, Slice(0, start, length)).value);
  }

  /** reshape is refused exactly when some stride is not row-major; the offset does not matter. */
  lemma ReshapeAcceptedIff(v: View, newShape: seq<int>)
    requires WellFormed(v) && Legal(v, Reshape(newShape))
    ensures Apply(v, Reshape(newShape)).Success? <==> RowMajor(v)
    ensures RowMajor(v) ==> Apply(v, Reshape(newShape)).value.shape == newShape
  {
    ContiguousIff(v);
  }

  // ---------------------------------------------------------------- nothing is left out

  /** The elements of a view that an operation is to show: those in the range of a slice, otherwise all (of a
      permute, as long as every dimension is listed). */
  predicate Shown(v: View, op: Op, p: seq<int>) {
    IsIndex(p, v.shape) &&
    match op
    case Slice(dim, start, length) => 0 <= dim < |p| && start <= p[dim] < start + length
    case Permute(dims) => forall d :: 0 <= d < |p| ==> d in dims
    case _ => true
  }

  /** And no others are: a slice shows only its range. */
  lemma ParentIsShown(v: View, op: Op, idx: seq<int>)
    requires WellFormed(v) && Legal(v, op) && Apply(v, op).Success? && IsIndex(idx, Apply(v, op).value.shape)
    ensures op.Permute? || Shown(v, op, Parent(v, op, idx))
  {
    ApplySelects(v, op, idx);
  }

  lemma PermuteCovers(v: View, dims: seq<int>, p: seq<int>)
    requires WellFormed(v) && Legal(v, Permute(dims)) && Shown(v, Permute(dims), p)
    ensures IsIndex(Gather(p, dims), Gather(v.shape, dims)) && Parent(v, Permute(dims), Gather(p, dims)) == p
  {
    hide Collect, Dot, Product, Contiguous;
    var idx := Gather(p, dims);
    PermuteSelects(v, dims, idx);
    var q := Parent(v, Permute(dims), idx);
    forall d | 0 <= d < |p| ensures q[d] == p[d] {
      assert d in dims;
      var i :| 0 <= i < |dims| && dims[i] == d;
      assert idx[i] == q[dims[i]];
    }
  }

  /** Each of them is at some index of the new view. */
  lemma ApplyCovers(v: View, op: Op, p: seq<int>) returns (idx: seq<int>)
    requires WellFormed(v) && Legal(v, op) && Apply(v, op).Success? && Shown(v, op, p)
    ensures IsIndex(idx, Apply(v, op).value.shape) && Parent(v, op, idx) == p
  {
    match op
    case Transpose(d0, d1) => idx := Swap(p, d0, d1);
    case Permute(dims) =>
      idx := Gather(p, dims);
      PermuteCovers(v, dims, p);
    case Slice(dim, start, length) => idx := p[dim := p[dim] - start];
    case Reshape(newShape) =>
      RavelBound(p, v.shape);
      ProductPositive(newShape);
      ProductPositive(v.shape);
      RavelUnravel(Ravel(p, v.shape), newShape);
      UnravelRavel(p, v.shape);
      idx := Unravel(Ravel(p, v.shape), newShape);
  }
}
