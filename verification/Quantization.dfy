/** Symmetric int8 quantisation over exact reals. */
module Quantization {

  function Abs(x: real): real { if x < 0.0 then -x else x }

  function Max(a: real, b: real): real { if a < b then b else a }

  function MaxAbs(data: seq<real>): real {
    if data == [] then 0.0 else Max(MaxAbs(data[..|data| - 1]), Abs(data[|data| - 1]))
  }

  function ScaleFor(data: seq<real>): (scale: real) {
    if MaxAbs(data) > 0.0 then MaxAbs(data) / 127.0 else 1.0
  }

  /** std::lround: to the nearest integer, halves away from zero. */
  function Lround(v: real): int {
    if v >= 0.0 then (v + 0.5).Floor else -((-v + 0.5).Floor)
  }

  function Clamp(v: real, low: real, high: real): real {
    if v < low then low else if high < v then high else v
  }

  function Code(x: real, scale: real): int
    requires scale > 0.0
  {
    Lround(Clamp(x / scale, -127.0, 127.0))
  }

  function Value(code: int, scale: real): real { code as real * scale }

  function Codes(data: seq<real>, scale: real): (codes: seq<int>)
    requires scale > 0.0
    ensures |codes| == |data|
  {
    seq(|data|, i requires 0 <= i < |data| => Code(data[i], scale))
  }

  function Values(codes: seq<int>, scale: real): (data: seq<real>)
    ensures |data| == |codes|
  {
    seq(|codes|, i requires 0 <= i < |codes| => Value(codes[i], scale))
  }

  // ---------------------------------------------------------------- the loops

  method ComputeSymmetricScale(data: array<real>) returns (scale: real)
    ensures scale == ScaleFor(data[..])
    ensures (forall i :: 0 <= i < data.Length ==> data[i] == 0.0) ==> scale == 1.0
    ensures forall i :: 0 <= i < data.Length ==> Abs(data[i]) <= 127.0 * scale
    ensures (exists i :: 0 <= i < data.Length && data[i] != 0.0) ==>
              exists i :: 0 <= i < data.Length && Abs(data[i]) == 127.0 * scale
  {
    var maxAbs := 0.0;
    var i := 0;
    while i < data.Length
      invariant 0 <= i <= data.Length
      invariant maxAbs == MaxAbs(data[..i])
    {
      assert data[..i + 1][..i] == data[..i];
      maxAbs := Max(maxAbs, Abs(data[i]));
      i := i + 1;
    }
    assert data[..i] == data[..];
    scale := if maxAbs > 0.0 then maxAbs / 127.0 else 1.0;
    ScaleIs(data[..]);
  }

  method QuantizeI8(src: array<real>, dst: array<int>, scale: real)
    requires scale > 0.0 && src.Length == dst.Length
    modifies dst
    ensures dst[..] == Codes(src[..], scale)
    ensures forall i :: 0 <= i < src.Length ==> IsCode(dst[i], src[i], scale)
  {
    var i := 0;
    while i < src.Length
      invariant 0 <= i <= src.Length
      invariant forall j :: 0 <= j < i ==> dst[j] == Code(src[j], scale)
    {
      dst[i] := Lround(Clamp(src[i] / scale, -127.0, 127.0));
      i := i + 1;
    }
    forall j | 0 <= j < src.Length ensures IsCode(dst[j], src[j], scale) {
      CodeIs(src[j], scale);
    }
  }

  method DequantizeI8(src: array<int>, dst: array<real>, scale: real)
    requires src.Length == dst.Length
    modifies dst
    ensures dst[..] == Values(src[..], scale)
    ensures forall i :: 0 <= i < src.Length ==> dst[i] == src[i] as real * scale
  {
    var i := 0;
    while i < src.Length
      invariant 0 <= i <= src.Length
      invariant forall j :: 0 <= j < i ==> dst[j] == Value(src[j], scale)
    {
      dst[i] := src[i] as real * scale;
      i := i + 1;
    }
  }

  // ---------------------------------------------------------------- the scale

  /** The maximum is a bound, and it is attained (by some element, unless all are zero). */
  lemma {:induction false} MaxAbsIsMaximum(data: seq<real>)
    ensures MaxAbs(data) >= 0.0
    ensures forall i :: 0 <= i < |data| ==> Abs(data[i]) <= MaxAbs(data)
    ensures MaxAbs(data) > 0.0 ==> exists i :: 0 <= i < |data| && Abs(data[i]) == MaxAbs(data)
    decreases |data|
  {
    if data != [] {
      var n := |data| - 1;
      MaxAbsIsMaximum(data[..n]);
      if MaxAbs(data) > 0.0 && MaxAbs(data) == MaxAbs(data[..n]) {
        var i :| 0 <= i < n && Abs(data[..n][i]) == MaxAbs(data[..n]);
        assert Abs(data[i]) == MaxAbs(data);
      }
    }
  }

  /** A number that bounds all magnitudes and is one of them (or is zero) is the maximum. */
  lemma MaxAbsIs(data: seq<real>, m: real)
    requires m >= 0.0 && forall i :: 0 <= i < |data| ==> Abs(data[i]) <= m
    requires m > 0.0 ==> exists i :: 0 <= i < |data| && Abs(data[i]) == m
    ensures MaxAbs(data) == m
  {
    MaxAbsIsMaximum(data);
  }

  /** 127 steps are the largest magnitude; data without one have steps of 1. */
  lemma ScaleIs(data: seq<real>)
    ensures (forall i :: 0 <= i < |data| ==> data[i] == 0.0) ==> ScaleFor(data) == 1.0
    ensures forall i :: 0 <= i < |data| ==> Abs(data[i]) <= 127.0 * ScaleFor(data)
    ensures (exists i :: 0 <= i < |data| && data[i] != 0.0) ==>
              exists i :: 0 <= i < |data| && Abs(data[i]) == 127.0 * ScaleFor(data)
  {
    MaxAbsIsMaximum(data);
  }

  lemma ScaleWithin(data: seq<real>, i: nat)
    requires i < |data|
    ensures var s := ScaleFor(data); s > 0.0 && Abs(data[i]) <= 127.0 * s
  {
    MaxAbsIsMaximum(data);
  }

  lemma QuotientWithin(x: real, s: real, bound: real)
    requires s > 0.0 && Abs(x) <= bound * s
    ensures -bound <= x / s <= bound && (x / s) * s == x
  {
    var q := x / s;
    assert q * s == x;
    if q > bound {
      ProductLess(bound, q, s);
    } else if q < -bound {
      ProductLess(q, -bound, s);
    }
  }

  lemma QuotientIs(x: real, s: real, q: real)
    requires s > 0.0 && x == q * s
    ensures x / s == q
  {
    var r := x / s;
    assert r * s == x;
    if r < q {
      ProductLess(r, q, s);
    } else if q < r {
      ProductLess(q, r, s);
    }
  }

  lemma ProductLess(a: real, b: real, s: real)
    requires a < b && s > 0.0
    ensures a * s < b * s
  {}

  lemma RoundNearest(v: real)
    ensures -0.5 <= Lround(v) as real - v <= 0.5
  {}

  lemma RoundExact(n: int)
    ensures Lround(n as real) == n
  {}

  lemma RoundBounded(v: real)
    requires -127.0 <= v <= 127.0
    ensures -127 <= Lround(v) <= 127
  {}

  /** n is the integer nearest to v, of two equally near ones the one further from zero. */
  predicate IsNearest(n: int, v: real) {
    && -0.5 <= n as real - v <= 0.5
    && (n as real - v == 0.5 ==> v > 0.0)
    && (n as real - v == -0.5 ==> v < 0.0)
  }

  lemma RoundIsNearest(v: real, n: int)
    ensures IsNearest(n, v) <==> n == Lround(v)
  {}

  /** The code of x for any scale: the nearest number of steps, cut off at 127. */
  predicate IsCode(code: int, x: real, scale: real)
    requires scale > 0.0
  {
    if x >= 127.0 * scale then code == 127
    else if x <= -127.0 * scale then code == -127
    else IsNearest(code, x / scale)
  }

  lemma CodeIs(x: real, scale: real)
    requires scale > 0.0
    ensures IsCode(Code(x, scale), x, scale)
  {
    hide Lround;
    var q := x / scale;
    assert q * scale == x;
    RoundExact(127);
    RoundExact(-127);
    RoundIsNearest(q, Lround(q));
    if x >= 127.0 * scale {
      if q < 127.0 { ProductLess(q, 127.0, scale); }
    } else if x <= -127.0 * scale {
      if q > -127.0 { ProductLess(-127.0, q, scale); }
    } else {
      QuotientInside(x, scale, 127.0);
    }
  }

  lemma QuotientInside(x: real, s: real, bound: real)
    requires s > 0.0 && -bound * s < x < bound * s
    ensures -bound <= x / s <= bound
  {
    var q := x / s;
    assert q * s == x;
    if q > bound { ProductLess(bound, q, s); }
    if q < -bound { ProductLess(q, -bound, s); }
  }

  // ---------------------------------------------------------------- one pass

  /** With the array's own scale the clamp is inert, codes fit in [-127, 127], and every value comes
      back within half a step. */
  lemma QuantizationError(data: seq<real>, i: nat)
    requires i < |data|
    ensures var s := ScaleFor(data);
            && s > 0.0
            && Clamp(data[i] / s, -127.0, 127.0) == data[i] / s
            && -127 <= Code(data[i], s) <= 127
            && Abs(Value(Code(data[i], s), s) - data[i]) <= s / 2.0
  {
    hide Lround, Value, Abs, ScaleFor, MaxAbs, Code, Clamp;
    var s := ScaleFor(data);
    ScaleWithin(data, i);
    QuotientWithin(data[i], s, 127.0);
    ErrorOf(data[i], s, data[i] / s);
  }

  lemma ErrorOf(x: real, s: real, q: real)
    requires s > 0.0 && q == x / s && q * s == x && -127.0 <= q <= 127.0
    ensures Clamp(x / s, -127.0, 127.0) == x / s && -127 <= Code(x, s) <= 127
    ensures Abs(Value(Code(x, s), s) - x) <= s / 2.0
  {
    hide Lround, Value, Abs;
    RoundBounded(q);
    RoundNearest(q);
    HalfStep(Lround(q), q, s, x);
  }

  lemma HalfStep(code: int, q: real, s: real, x: real)
    requires s > 0.0 && q * s == x && -0.5 <= code as real - q <= 0.5
    ensures Abs(Value(code, s) - x) <= s / 2.0
  {
    var d := code as real - q;
    assert Value(code, s) - x == d * s;
    HalfBound(d, s, d * s);
  }

  lemma HalfBound(d: real, s: real, e: real)
    requires s > 0.0 && -0.5 <= d <= 0.5 && e == d * s
    ensures Abs(e) <= s / 2.0
  {
    AtMostHalf(d, s, e);
    assert -e == (-d) * s;
    AtMostHalf(-d, s, -e);
  }

  lemma AtMostHalf(d: real, s: real, e: real)
    requires s > 0.0 && d <= 0.5 && e == d * s
    ensures e <= s / 2.0
  {
    if d < 0.5 {
      ProductLess(d, 0.5, s);
    }
  }

  // ---------------------------------------------------------------- the second pass

  lemma CodeOfValue(code: int, s: real)
    requires s > 0.0 && -127 <= code <= 127
    ensures Code(Value(code, s), s) == code
  {
    QuotientIs(Value(code, s), s, code as real);
    RoundExact(code);
  }

  lemma ValueWithin(code: int, s: real)
    requires s > 0.0 && -127 <= code <= 127
    ensures Abs(Value(code, s)) <= 127.0 * s
    ensures code == 127 || code == -127 ==> Abs(Value(code, s)) == 127.0 * s
    ensures code == 0 ==> Value(code, s) == 0.0
  {
    if code < 127 {
      ProductLess(code as real, 127.0, s);
    }
    if code > -127 {
      ProductLess(-127.0, code as real, s);
    }
  }

  /** In data that are not all zero, some element gets the extreme code under the data's own scale. */
  lemma ExtremeCodeIsUsed(data: seq<real>)
    requires exists i :: 0 <= i < |data| && data[i] != 0.0
    ensures ScaleFor(data) > 0.0
    ensures exists i :: 0 <= i < |data| && (Code(data[i], ScaleFor(data)) == 127 || Code(data[i], ScaleFor(data)) == -127)
  {
    hide Code, MaxAbs, ScaleFor;
    ScaleIs(data);
    var i :| 0 <= i < |data| && Abs(data[i]) == 127.0 * ScaleFor(data);
    ScaleWithin(data, i);
    ExtremeCode(data[i], ScaleFor(data));
  }

  /** An element of 127 steps gets the extreme code. */
  lemma ExtremeCode(x: real, s: real)
    requires s > 0.0 && Abs(x) == 127.0 * s
    ensures Code(x, s) == 127 || Code(x, s) == -127
  {
    if x >= 0.0 {
      QuotientIs(x, s, 127.0);
      RoundExact(127);
    } else {
      QuotientIs(x, s, -127.0);
      RoundExact(-127);
    }
  }

  lemma ZeroData(data: seq<real>, i: nat)
    requires i < |data| && MaxAbs(data) == 0.0
    ensures ScaleFor(data) == 1.0 && Code(data[i], 1.0) == 0
  {
    MaxAbsIsMaximum(data);
    assert data[i] == 0.0;
    RoundExact(0);
  }

  /** Dequantised data are a fixed point: they have the same scale and the same codes again. */
  lemma SecondPassIsIdentity(data: seq<real>)
    ensures var s := ScaleFor(data);
            s > 0.0 &&
            var again := Values(Codes(data, s), s);
            ScaleFor(again) == s && Codes(again, s) == Codes(data, s)
  {
    var s := ScaleFor(data);
    MaxAbsIsMaximum(data);
    var codes := Codes(data, s);
    var again := Values(codes, s);
    forall i | 0 <= i < |data|
      ensures -127 <= codes[i] <= 127 && Code(again[i], s) == codes[i] && Abs(again[i]) <= 127.0 * s
    {
      QuantizationError(data, i);
      CodeOfValue(codes[i], s);
      ValueWithin(codes[i], s);
    }
    SameMaximum(data, s, codes, again);
  }

  lemma SameMaximum(data: seq<real>, s: real, codes: seq<int>, again: seq<real>)
    requires s == ScaleFor(data) && s > 0.0 && codes == Codes(data, s) && again == Values(codes, s)
    requires forall i :: 0 <= i < |data| ==> -127 <= codes[i] <= 127 && Abs(again[i]) <= 127.0 * s
    ensures ScaleFor(again) == s
  {
    MaxAbsIsMaximum(data);
    if MaxAbs(data) > 0.0 {
      var i :| 0 <= i < |data| && Abs(data[i]) == MaxAbs(data);
      ExtremeCode(data[i], s);
      ValueWithin(codes[i], s);
      assert Abs(again[i]) == MaxAbs(data);
      MaxAbsIs(again, MaxAbs(data));
    } else {
      forall i | 0 <= i < |data| ensures Abs(again[i]) <= 0.0 {
        ZeroData(data, i);
        ValueWithin(codes[i], s);
      }
      MaxAbsIs(again, 0.0);
    }
  }
}
