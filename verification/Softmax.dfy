/** The row softmax kernel over exact reals, with an abstract exponential. */
module Softmax {
  import opened Arithmetic
  import opened WarpReduce

  /** float with -INFINITY, the start value of the row maximum. */
  datatype Extended = NegInfinity | Finite(value: real)

  function MaxOf(a: Extended, b: Extended): Extended {
    if a.NegInfinity? then b
    else if b.NegInfinity? || a.value >= b.value then a
    else b
  }

  function Plus(a: real, b: real): real { a + b }

  lemma MaxIsMonoid()
    ensures IsMonoid(MaxOf, NegInfinity)
  {}

  lemma PlusIsMonoid()
    ensures IsMonoid(Plus, 0.0)
  {}

  /** All that is used of expf. */
  ghost predicate IsExponential(exp: real -> real) {
    (forall x :: exp(x) > 0.0) && (forall x, y :: exp(x + y) == exp(x) * exp(y))
  }

  lemma ExpPositive(exp: real -> real, x: real)
    requires IsExponential(exp)
    ensures exp(x) > 0.0
  {}

  lemma ExpAdds(exp: real -> real, x: real, y: real)
    requires IsExponential(exp)
    ensures exp(x + y) == exp(x) * exp(y)
  {}

  function Exponentials(exp: real -> real, x: seq<real>, shift: real): (r: seq<real>)
    ensures |r| == |x| && forall c :: 0 <= c < |x| ==> r[c] == exp(x[c] - shift)
  {
    seq(|x|, c requires 0 <= c < |x| => exp(x[c] - shift))
  }

  /** Sum over j < n of exp(x_j). */
  function ExpSum(exp: real -> real, x: seq<real>, n: nat): real
    requires n <= |x|
  {
    if n == 0 then 0.0 else ExpSum(exp, x, n - 1) + exp(x[n - 1])
  }

  /** The softmax of a row: exp(x_c) over the sum of all exp(x_j). */
  ghost function SoftmaxAt(exp: real -> real, x: seq<real>, c: nat): (y: real)
    requires IsExponential(exp) && c < |x|
    ensures y > 0.0
  {
    ExpSumPositive(exp, x, |x|);
    ExpPositive(exp, x[c]);
    QuotientPositive(exp(x[c]), ExpSum(exp, x, |x|));
    exp(x[c]) / ExpSum(exp, x, |x|)
  }

  lemma QuotientPositive(a: real, b: real)
    requires a > 0.0 && b > 0.0
    ensures a / b > 0.0
  {}

  lemma {:induction false} ExpSumPositive(exp: real -> real, x: seq<real>, n: nat)
    requires IsExponential(exp) && n <= |x|
    ensures ExpSum(exp, x, n) >= 0.0 && (n > 0 ==> ExpSum(exp, x, n) > 0.0)
  {
    hide IsExponential;
    if n > 0 {
      ExpSumPositive(exp, x, n - 1);
      ExpPositive(exp, x[n - 1]);
    }
  }

  /** The product, by name, so that a proof can leave it unexpanded. */
  function Times(a: real, b: real): real { a * b }

  lemma Unshift(exp: real -> real, x: real, shift: real)
    requires IsExponential(exp)
    ensures Times(exp(x - shift), exp(shift)) == exp(x)
  {
    hide IsExponential;
    ExpAdds(exp, x - shift, shift);
    assert (x - shift) + shift == x;
  }

  /** Subtracting the maximum scales the sum by exp of the maximum. */
  lemma {:induction false} ShiftedSum(exp: real -> real, x: seq<real>, shift: real, n: nat)
    requires IsExponential(exp) && n <= |x|
    ensures Times(RowFold(Plus, 0.0, Exponentials(exp, x, shift), n), exp(shift)) == ExpSum(exp, x, n)
  {
    hide IsExponential;
    if n > 0 {
      ShiftedSum(exp, x, shift, n - 1);
      Unshift(exp, x[n - 1], shift);
      var s := RowFold(Plus, 0.0, Exponentials(exp, x, shift), n - 1);
      Distribute(s, exp(x[n - 1] - shift), exp(shift));
    }
  }

  lemma Distribute(a: real, b: real, c: real)
    ensures Times(a + b, c) == Times(a, c) + Times(b, c)
  {}

  lemma CancelFactor(a: real, b: real, f: real, af: real, bf: real)
    requires af == Times(a, f) && bf == Times(b, f) && bf > 0.0 && f > 0.0
    ensures b != 0.0 && a / b == af / bf
  {
    var q := a / b;
    assert q * b == a;
    assert (q * b) * f == q * (b * f);
    assert q * bf == af;
  }

  /** ... which cancels in the quotient. */
  /** What a lane writes to column c. */
  function Scaled(exp: real -> real, x: seq<real>, shift: real, sum: real, c: nat): real
    requires c < |x| && sum != 0.0
  {
    exp(x[c] - shift) / sum
  }

  lemma ShiftCancels(exp: real -> real, x: seq<real>, shift: real, c: nat)
    requires IsExponential(exp) && c < |x|
    ensures var sum := RowFold(Plus, 0.0, Exponentials(exp, x, shift), |x|);
            sum != 0.0 && Scaled(exp, x, shift, sum, c) == SoftmaxAt(exp, x, c)
  {
    hide IsExponential, RowFold, ExpSum, SoftmaxAt;
    var sum := RowFold(Plus, 0.0, Exponentials(exp, x, shift), |x|);
    QuotientsEqual(exp, x, shift, c, sum);
    SoftmaxIs(exp, x, c);
  }

  lemma SoftmaxIs(exp: real -> real, x: seq<real>, c: nat)
    requires IsExponential(exp) && c < |x|
    ensures ExpSum(exp, x, |x|) > 0.0 && SoftmaxAt(exp, x, c) == exp(x[c]) / ExpSum(exp, x, |x|)
  {
    hide IsExponential, ExpSum;
    ExpSumPositive(exp, x, |x|);
  }

  lemma QuotientsEqual(exp: real -> real, x: seq<real>, shift: real, c: nat, sum: real)
    requires IsExponential(exp) && c < |x| && sum == RowFold(Plus, 0.0, Exponentials(exp, x, shift), |x|)
    ensures sum != 0.0 && ExpSum(exp, x, |x|) > 0.0
    ensures exp(x[c] - shift) / sum == exp(x[c]) / ExpSum(exp, x, |x|)
  {
    hide IsExponential, RowFold, ExpSum, Times;
    ShiftedSum(exp, x, shift, |x|);
    ExpPositive(exp, shift);
    ExpSumPositive(exp, x, |x|);
    Unshift(exp, x[c], shift);
    CancelFactor(exp(x[c] - shift), sum, exp(shift), exp(x[c]), ExpSum(exp, x, |x|));
  }

  // ---------------------------------------------------------------- the row maximum

  function Finites(x: seq<real>): (r: seq<Extended>)
    ensures |r| == |x| && forall c :: 0 <= c < |x| ==> r[c] == Finite(x[c])
  {
    seq(|x|, c requires 0 <= c < |x| => Finite(x[c]))
  }

  /** The reduction finds the largest value of a non-empty row, so no exponent is positive. */
  lemma {:induction false} RowMaximum(x: seq<real>, n: nat)
    requires 0 < n <= |x|
    ensures var m := RowFold(MaxOf, NegInfinity, Finites(x), n);
            m.Finite? && m.value in x[..n] && forall c :: 0 <= c < n ==> x[c] <= m.value
  {
    if n > 1 {
      RowMaximum(x, n - 1);
      assert x[..n] == x[..n - 1] + [x[n - 1]];
    }
  }

  // ---------------------------------------------------------------- the kernel

  /** The lane that works on a column. */
  function LaneOf(c: int): (lane: int)
    ensures 0 <= lane < LANES
  {
    c % LANES
  }

  lemma NextColumn(c: int, lane: int)
    requires LaneOf(c) == lane
    ensures LaneOf(c + LANES) == lane
    ensures forall d :: c < d < c + LANES ==> LaneOf(d) != lane
  {}

  lemma FirstColumn(lane: int)
    requires 0 <= lane < LANES
    ensures LaneOf(lane) == lane
    ensures forall d :: 0 <= d < lane ==> LaneOf(d) != lane
  {}

  /** The values the column counter of a lane takes: its first column, and 32 after each column it handles. */
  predicate Counts(lane: int, cols: int, c: int) { c == lane || (c >= lane + LANES && c - LANES < cols) }

  /** The counter is an int.  No lane's counter ever leaves 32 bits if and only if 32 can be added to every column. */
  lemma CounterFitsIff(cols: int)
    requires cols >= 1
    ensures (forall lane, c :: 0 <= lane < LANES && LaneOf(c) == lane && Counts(lane, cols, c) ==> c < 0x8000_0000)
            <==> cols <= 0x8000_0000 - LANES
  {
    if cols > 0x8000_0000 - LANES {
      var c := cols + LANES - 1;
      FirstColumn(LaneOf(c));
      assert Counts(LaneOf(c), cols, c);
    }
  }

  /** The last strided loop of one lane writes the columns lane, lane + 32, ... */
  method WriteLane(exp: real -> real, x: seq<real>, rowMax: real, rowSum: real, lane: int, out: array<real>, base: nat)
    requires 0 <= lane < LANES && rowSum != 0.0 && base + |x| <= out.Length
    modifies out
    ensures forall c :: 0 <= c < |x| && LaneOf(c) == lane ==> out[base + c] == Scaled(exp, x, rowMax, rowSum, c)
    ensures forall a :: 0 <= a < out.Length && !(base <= a < base + |x| && LaneOf(a - base) == lane) ==>
              out[a] == old(out[a])
  {
    hide LaneOf;
    FirstColumn(lane);
    var c := lane;
    while c < |x|
      invariant c >= 0 && LaneOf(c) == lane && Counts(lane, |x|, c)
      invariant forall d :: 0 <= d < |x| && d < c && LaneOf(d) == lane ==> out[base + d] == Scaled(exp, x, rowMax, rowSum, d)
      invariant forall a :: 0 <= a < out.Length && !(base <= a < base + |x| && LaneOf(a - base) == lane) ==>
                  out[a] == old(out[a])
    {
      NextColumn(c, lane);
      out[base + c] := exp(x[c] - rowMax) / rowSum;
      c := c + LANES;
    }
  }

  /** One block: the softmax of one row of the input, into the same row of the output. */
  method SoftmaxRow(exp: real -> real, x: seq<real>, out: array<real>, base: nat)
    requires IsExponential(exp) && |x| >= 1 && base + |x| <= out.Length
    modifies out
    ensures forall c :: 0 <= c < |x| ==> out[base + c] == SoftmaxAt(exp, x, c)
    ensures forall a :: 0 <= a < out.Length && !(base <= a < base + |x|) ==> out[a] == old(out[a])
  {
    hide LaneOf, Scaled, SoftmaxAt, IsMonoid, RowFold, IsExponential;
    MaxIsMonoid();
    PlusIsMonoid();
    RowMaximum(x, |x|);
    var maxima := RowReduce(MaxOf, NegInfinity, Finites(x));
    var shift := maxima[0].value;
    var sums := RowReduce(Plus, 0.0, Exponentials(exp, x, shift));
    ShiftCancels(exp, x, shift, 0);
    var lane := 0;
    while lane < LANES
      invariant 0 <= lane <= LANES
      invariant forall c :: 0 <= c < |x| && LaneOf(c) < lane ==> out[base + c] == Scaled(exp, x, shift, sums[0], c)
      invariant forall a :: 0 <= a < out.Length && !(base <= a < base + |x|) ==> out[a] == old(out[a])
    {
      label before:
      WriteLane(exp, x, maxima[lane].value, sums[lane], lane, out, base);
      forall c | 0 <= c < |x| && LaneOf(c) < lane + 1 ensures out[base + c] == Scaled(exp, x, shift, sums[0], c) {
        if LaneOf(c) != lane {
          assert out[base + c] == old@before(out[base + c]) by { assert LaneOf(base + c - base) != lane; }
        }
      }
      lane := lane + 1;
    }
    forall c | 0 <= c < |x| ensures out[base + c] == SoftmaxAt(exp, x, c) {
      assert LaneOf(c) < LANES;
      ShiftCancels(exp, x, shift, c);
    }
  }

  function Row(input: seq<real>, cols: nat, row: nat): (r: seq<real>)
    requires (row + 1) * cols <= |input|
    ensures |r| == cols
  {
    RowInside(row, cols);
    input[row * cols..(row + 1) * cols]
  }

  lemma RowInside(row: nat, cols: nat)
    ensures (row + 1) * cols == row * cols + cols && 0 <= row * cols
  {}

  lemma RowsApart(row: nat, other: nat, rows: nat, cols: nat)
    requires row < rows && other < rows
    ensures (row + 1) * cols <= rows * cols
    ensures row < other ==> row * cols + cols <= other * cols
    ensures other < row ==> other * cols + cols <= row * cols
  {
    MulMonotone(row + 1, rows, cols);
    MulDistributes(row, 1, cols);
    MulDistributes(other, 1, cols);
    if row < other {
      MulMonotone(row + 1, other, cols);
    } else if other < row {
      MulMonotone(other + 1, row, cols);
    }
  }

  /** The launch: one block of one warp a row.  Blocks touch disjoint rows, so their order is immaterial. */
  method SoftmaxKernel(exp: real -> real, input: seq<real>, output: array<real>, rows: nat, cols: nat)
    requires IsExponential(exp) && cols >= 1 && |input| == rows * cols && output.Length == rows * cols
    modifies output
    ensures forall row, c :: 0 <= row < rows && 0 <= c < cols ==>
              IsSoftmaxOf(exp, input, output[..], cols, row, c)
  {
    hide IsExponential, IsSoftmaxOf, SoftmaxAt;
    var row := 0;
    while row < rows
      invariant 0 <= row <= rows
      invariant forall r, c :: 0 <= r < row && 0 <= c < cols ==> IsSoftmaxOf(exp, input, output[..], cols, r, c)
    {
      ghost var before := output[..];
      RowsApart(row, row, rows, cols);
      RowInside(row, cols);
      SoftmaxRow(exp, Row(input, cols, row), output, row * cols);
      forall r, c | 0 <= r < row + 1 && 0 <= c < cols ensures IsSoftmaxOf(exp, input, output[..], cols, r, c) {
        RowsApart(row, r, rows, cols);
        RowInside(r, cols);
        if r < row {
          Unchanged(exp, input, before, output[..], cols, rows, r, c);
        } else {
          Established(exp, input, output[..], cols, rows, r, c);
        }
      }
      row := row + 1;
    }
  }

  ghost predicate IsSoftmaxOf(exp: real -> real, input: seq<real>, output: seq<real>, cols: nat, row: nat, c: nat)
    requires IsExponential(exp)
  {
    c < cols && (row + 1) * cols <= |input| && 0 <= row * cols + c < |output|
    && output[row * cols + c] == SoftmaxAt(exp, Row(input, cols, row), c)
  }

  lemma Established(exp: real -> real, input: seq<real>, output: seq<real>, cols: nat, rows: nat, row: nat, c: nat)
    requires IsExponential(exp) && row < rows && c < cols && |input| == |output| == rows * cols
    requires (row + 1) * cols <= rows * cols && 0 <= row * cols && row * cols + cols == (row + 1) * cols
    requires output[row * cols + c] == SoftmaxAt(exp, Row(input, cols, row), c)
    ensures IsSoftmaxOf(exp, input, output, cols, row, c)
  {}

  lemma Unchanged(exp: real -> real, input: seq<real>, before: seq<real>, after: seq<real>,
                  cols: nat, rows: nat, row: nat, c: nat)
    requires IsExponential(exp) && IsSoftmaxOf(exp, input, before, cols, row, c) && |before| == |after|
    requires 0 <= row * cols + c < |after| && after[row * cols + c] == before[row * cols + c]
    ensures IsSoftmaxOf(exp, input, after, cols, row, c)
  {}
}
