/** Mixed-radix indexing: row-major strides, positions and coordinates, for any number of dimensions.
    Sequences are taken apart at their last element, as the loops of the source do. */
module Strides {
  import opened Arithmetic

  function Product(s: seq<int>): int {
    if s == [] then 1 else Product(s[..|s| - 1]) * s[|s| - 1]
  }

  function Dot(a: seq<int>, b: seq<int>): int
    requires |a| == |b|
  {
    if a == [] then 0 else Dot(a[..|a| - 1], b[..|b| - 1]) + a[|a| - 1] * b[|b| - 1]
  }

  function Scale(s: seq<int>, factor: int): (r: seq<int>)
    ensures |r| == |s|
  {
    seq(|s|, i requires 0 <= i < |s| => s[i] * factor)
  }

  /** Row-major strides. */
  function Contiguous(shape: seq<int>): (r: seq<int>)
    ensures |r| == |shape|
  {
    if shape == [] then []
    else Scale(Contiguous(shape[..|shape| - 1]), shape[|shape| - 1]) + [1]
  }

  /** Their meaning, without reference to the recursion: stride i is the number of elements
      in one slice along dimension i. */
  lemma {:induction false} StrideIsSuffixProduct(shape: seq<int>, i: nat)
    requires i < |shape|
    ensures Contiguous(shape)[i] == Product(shape[i + 1..])
    decreases |shape|
  {
    var n := |shape| - 1;
    if i < n {
      StrideIsSuffixProduct(shape[..n], i);
      assert shape[..n][i + 1..] == shape[i + 1..][..n - i - 1];
      assert shape[i + 1..][|shape[i + 1..]| - 1] == shape[n];
    } else {
      assert shape[i + 1..] == [];
    }
  }

  lemma ScaleOnce(s: seq<int>, x: int, y: int)
    ensures Scale(Scale(s, x), y) == Scale(s, x * y)
  {
    forall i | 0 <= i < |s| ensures Scale(Scale(s, x), y)[i] == Scale(s, x * y)[i] {
      MulAssociates(s[i], x, y);
    }
  }

  /** The backward loop of contiguous_strides computes exactly these strides. */
  method ContiguousStrides(shape: seq<int>) returns (strides: seq<int>)
    ensures strides == Contiguous(shape)
  {
    hide Contiguous, Scale;
    var result := new int[|shape|];
    var acc := 1;
    var i := |shape| - 1;
    LoopEnds(shape);
    assert result[i + 1..] == [];
    while i >= 0
      invariant -1 <= i < |shape|
      invariant Scale(Contiguous(shape[..i + 1]), acc) + result[i + 1..] == Contiguous(shape)
    {
      ghost var head, tail := Scale(Contiguous(shape[..i]), acc * shape[i]), result[i + 1..];
      result[i] := acc;
      LoopStep(shape[..i + 1], acc);
      assert shape[..i + 1][..i] == shape[..i];
      assert result[i..] == [acc] + tail;
      assert head + ([acc] + tail) == (head + [acc]) + tail;
      acc := acc * shape[i];
      i := i - 1;
    }
    assert shape[..i + 1] == [] && result[i + 1..] == result[..];
    strides := result[..];
  }

  lemma LoopEnds(shape: seq<int>)
    ensures shape[..|shape|] == shape && Scale(Contiguous(shape), 1) == Contiguous(shape)
    ensures forall acc :: Scale(Contiguous([]), acc) == []
  {}

  lemma LoopStep(shape: seq<int>, acc: int)
    requires shape != []
    ensures var n := |shape| - 1;
            Scale(Contiguous(shape), acc) == Scale(Contiguous(shape[..n]), acc * shape[n]) + [acc]
  {
    var n := |shape| - 1;
    var inner := Contiguous(shape[..n]);
    ScaleAppend(Scale(inner, shape[n]), acc);
    ScaleOnce(inner, shape[n], acc);
    MulCommutes(shape[n], acc);
  }

  lemma ScaleAppend(s: seq<int>, factor: int)
    ensures Scale(s + [1], factor) == Scale(s, factor) + [factor]
  {}

  // ---------------------------------------------------------------- positions and coordinates

  predicate IsShape(shape: seq<int>) { forall d :: 0 <= d < |shape| ==> shape[d] >= 0 }

  predicate AllPositive(shape: seq<int>) { forall d :: 0 <= d < |shape| ==> shape[d] > 0 }

  predicate IsIndex(idx: seq<int>, shape: seq<int>) {
    |idx| == |shape| && forall d :: 0 <= d < |shape| ==> 0 <= idx[d] < shape[d]
  }

  /** Coordinates of the l-th element in row-major order, by repeated division from the last axis. */
  function Unravel(l: int, shape: seq<int>): (idx: seq<int>)
    requires AllPositive(shape)
    ensures |idx| == |shape|
    decreases |shape|
  {
    if shape == [] then []
    else
      var n := |shape| - 1;
      LastPositive(shape);
      Unravel(l / shape[n], shape[..n]) + [l % shape[n]]
  }

  /** Horner form of the row-major position. */
  function Ravel(idx: seq<int>, shape: seq<int>): int
    requires |idx| == |shape|
  {
    if shape == [] then 0
    else
      var n := |shape| - 1;
      Ravel(idx[..n], shape[..n]) * shape[n] + idx[n]
  }

  lemma {:induction false} DotScale(a: seq<int>, s: seq<int>, factor: int)
    requires |a| == |s|
    ensures Dot(a, Scale(s, factor)) == Dot(a, s) * factor
  {
    if a != [] {
      var n := |a| - 1;
      DotScale(a[..n], s[..n], factor);
      assert Scale(s, factor)[..n] == Scale(s[..n], factor);
      MulAssociates(a[n], s[n], factor);
      MulDistributes(Dot(a[..n], s[..n]), a[n] * s[n], factor);
    }
  }

  lemma {:induction false} DotIsRavel(idx: seq<int>, shape: seq<int>)
    requires |idx| == |shape|
    ensures Dot(idx, Contiguous(shape)) == Ravel(idx, shape)
    decreases |shape|
  {
    if shape != [] {
      var n := |shape| - 1;
      DotIsRavel(idx[..n], shape[..n]);
      DotScale(idx[..n], Contiguous(shape[..n]), shape[n]);
      assert Contiguous(shape)[..n] == Scale(Contiguous(shape[..n]), shape[n]);
    }
  }

  lemma {:induction false} ProductPositive(shape: seq<int>)
    requires IsShape(shape)
    ensures Product(shape) >= 0
    ensures Product(shape) > 0 <==> AllPositive(shape)
    decreases |shape|
  {
    if shape != [] {
      var n := |shape| - 1;
      ProductPositive(shape[..n]);
      assert AllPositive(shape) <==> AllPositive(shape[..n]) && shape[n] > 0 by { LastPositive(shape); }
      MulPositive(Product(shape[..n]), shape[n]);
    }
  }

  lemma LastPositive(shape: seq<int>)
    requires shape != []
    ensures AllPositive(shape) <==> AllPositive(shape[..|shape| - 1]) && shape[|shape| - 1] > 0
  {
    assert forall d :: 0 <= d < |shape| - 1 ==> shape[..|shape| - 1][d] == shape[d];
  }

  lemma MulPositive(a: int, b: int)
    requires a >= 0 && b >= 0
    ensures a * b >= 0 && (a * b > 0 <==> a > 0 && b > 0)
  {}

  /** Positions of indices fill [0, numel) ... */
  lemma {:induction false} RavelBound(idx: seq<int>, shape: seq<int>)
    requires IsIndex(idx, shape)
    ensures 0 <= Ravel(idx, shape) < Product(shape)
    decreases |shape|
  {
    if shape != [] {
      var n := |shape| - 1;
      RavelBound(idx[..n], shape[..n]);
      var high := Ravel(idx[..n], shape[..n]);
      MulNonNegative(high, shape[n]);
      MulMonotone(high + 1, Product(shape[..n]), shape[n]);
      MulDistributes(high, 1, shape[n]);
    }
  }

  /** ... each exactly once: Unravel and Ravel are mutually inverse. */
  lemma {:induction false} UnravelRavel(idx: seq<int>, shape: seq<int>)
    requires IsIndex(idx, shape) && AllPositive(shape)
    ensures Unravel(Ravel(idx, shape), shape) == idx
    decreases |shape|
  {
    if shape != [] {
      var n := |shape| - 1;
      UnravelRavel(idx[..n], shape[..n]);
      DivModIs(Ravel(idx, shape), shape[n], Ravel(idx[..n], shape[..n]), idx[n]);
      assert idx == idx[..n] + [idx[n]];
    }
  }

  lemma {:induction false} RavelUnravel(l: int, shape: seq<int>)
    requires AllPositive(shape) && 0 <= l < Product(shape)
    ensures IsIndex(Unravel(l, shape), shape) && Ravel(Unravel(l, shape), shape) == l
    decreases |shape|
  {
    if shape != [] {
      var n := |shape| - 1;
      QuotientBelow(l, shape[n], Product(shape[..n]));
      LastPositive(shape);
      RavelUnravel(l / shape[n], shape[..n]);
      var idx := Unravel(l, shape);
      assert idx[..n] == Unravel(l / shape[n], shape[..n]);
      assert l == l / shape[n] * shape[n] + l % shape[n];
    }
  }

  lemma {:induction false} RavelInjective(idx: seq<int>, idx': seq<int>, shape: seq<int>)
    requires IsIndex(idx, shape) && IsIndex(idx', shape) && Ravel(idx, shape) == Ravel(idx', shape)
    ensures idx == idx'
  {
    assert AllPositive(shape) by { assert forall d :: 0 <= d < |shape| ==> 0 <= idx[d] < shape[d]; }
    UnravelRavel(idx, shape);
    UnravelRavel(idx', shape);
  }
}
