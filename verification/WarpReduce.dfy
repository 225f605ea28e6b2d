/** Reductions over the 32 lanes of a warp: the shuffle-down tree, and lane-strided partial results. */
module WarpReduce {
  const LANES := 32

  ghost predicate IsMonoid<T(!new)>(op: (T, T) -> T, unit: T) {
    && (forall x, y, z :: op(op(x, y), z) == op(x, op(y, z)))
    && (forall x, y :: op(x, y) == op(y, x))
    && (forall x :: op(unit, x) == x)
  }

  lemma Associative<T(!new)>(op: (T, T) -> T, unit: T, x: T, y: T, z: T)
    requires IsMonoid(op, unit)
    ensures op(op(x, y), z) == op(x, op(y, z))
  {}

  lemma Commutative<T(!new)>(op: (T, T) -> T, unit: T, x: T, y: T)
    requires IsMonoid(op, unit)
    ensures op(x, y) == op(y, x) && op(unit, x) == x
  {}

  /** (a.b).(c.d) == (a.c).(b.d) */
  lemma Interchange<T(!new)>(op: (T, T) -> T, unit: T, a: T, b: T, c: T, d: T)
    requires IsMonoid(op, unit)
    ensures op(op(a, b), op(c, d)) == op(op(a, c), op(b, d))
  {
    hide IsMonoid;
    Associative(op, unit, a, b, op(c, d));
    Associative(op, unit, b, c, d);
    Commutative(op, unit, b, c);
    Associative(op, unit, c, b, d);
    Associative(op, unit, a, c, op(b, d));
  }

  /** All values combined, from left to right. */
  function Fold<T>(op: (T, T) -> T, v: seq<T>): T
    requires v != []
  {
    if |v| == 1 then v[0] else op(Fold(op, v[..|v| - 1]), v[|v| - 1])
  }

  lemma {:induction false} FoldConcat<T(!new)>(op: (T, T) -> T, unit: T, a: seq<T>, b: seq<T>)
    requires IsMonoid(op, unit) && a != [] && b != []
    ensures Fold(op, a + b) == op(Fold(op, a), Fold(op, b))
    decreases |b|
  {
    hide IsMonoid;
    var n := |b| - 1;
    if n == 0 {
      assert (a + b)[..|a|] == a;
    } else {
      FoldConcat(op, unit, a, b[..n]);
      assert (a + b)[..|a| + n] == a + b[..n];
      Associative(op, unit, Fold(op, a), Fold(op, b[..n]), b[n]);
    }
  }

  function Zip<T>(op: (T, T) -> T, a: seq<T>, b: seq<T>): (r: seq<T>)
    requires |a| == |b|
    ensures |r| == |a|
  {
    seq(|a|, l requires 0 <= l < |a| => op(a[l], b[l]))
  }

  lemma {:induction false} FoldZip<T(!new)>(op: (T, T) -> T, unit: T, a: seq<T>, b: seq<T>)
    requires IsMonoid(op, unit) && |a| == |b| && a != []
    ensures Fold(op, Zip(op, a, b)) == op(Fold(op, a), Fold(op, b))
    decreases |a|
  {
    hide IsMonoid;
    var n := |a| - 1;
    if n > 0 {
      FoldZip(op, unit, a[..n], b[..n]);
      assert Zip(op, a, b)[..n] == Zip(op, a[..n], b[..n]);
      Interchange(op, unit, Fold(op, a[..n]), Fold(op, b[..n]), a[n], b[n]);
    }
  }

  // ---------------------------------------------------------------- the shuffle tree

  /** __shfl_down_sync: lane l receives lane l + offset's value, or its own when there is none. */
  function ShuffleDown<T>(v: seq<T>, offset: nat): (r: seq<T>)
    ensures |r| == |v|
  {
    seq(|v|, l requires 0 <= l < |v| => if l + offset < |v| then v[l + offset] else v[l])
  }

  /** The first `offset` lanes of one round combine the first 2*offset lanes. */
  lemma RoundHalves<T(!new)>(op: (T, T) -> T, unit: T, v: seq<T>, offset: nat)
    requires IsMonoid(op, unit) && 0 < offset && 2 * offset <= |v|
    ensures Fold(op, Zip(op, v, ShuffleDown(v, offset))[..offset]) == Fold(op, v[..2 * offset])
  {
    hide IsMonoid;
    var a, b := v[..offset], v[offset..2 * offset];
    assert Zip(op, v, ShuffleDown(v, offset))[..offset] == Zip(op, a, b);
    FoldZip(op, unit, a, b);
    FoldConcat(op, unit, a, b);
    assert a + b == v[..2 * offset];
  }

  /** warp_reduce_sum and warp_reduce_max: after the rounds 16, 8, 4, 2, 1 lane 0 holds the result. */
  method Reduce<T(!new)>(op: (T, T) -> T, ghost unit: T, vals: seq<T>) returns (v: seq<T>)
    requires IsMonoid(op, unit) && |vals| == LANES
    ensures |v| == LANES && v[0] == Fold(op, vals)
  {
    hide IsMonoid, Fold;
    v := vals;
    var offset := 16;
    assert v[..32] == vals;
    while offset > 0
      invariant offset == 16 || offset == 8 || offset == 4 || offset == 2 || offset == 1 || offset == 0
      invariant |v| == LANES
      invariant Fold(op, v[..if offset == 0 then 1 else 2 * offset]) == Fold(op, vals)
    {
      RoundHalves(op, unit, v, offset);
      v := Zip(op, v, ShuffleDown(v, offset));
      offset := offset / 2;
    }
    FoldOne(op, v[..1]);
  }

  lemma FoldOne<T>(op: (T, T) -> T, v: seq<T>)
    requires |v| == 1
    ensures Fold(op, v) == v[0]
  {}

  // ---------------------------------------------------------------- lane-strided partial results

  /** The sequential reduction of the first n values. */
  function RowFold<T>(op: (T, T) -> T, unit: T, x: seq<T>, n: nat): T
    requires n <= |x|
  {
    if n == 0 then unit else op(RowFold(op, unit, x, n - 1), x[n - 1])
  }

  /** What a lane has combined of the first n values: those at lane, lane + 32, ... */
  function Partial<T>(op: (T, T) -> T, unit: T, x: seq<T>, lane: int, n: nat): T
    requires n <= |x|
  {
    if n == 0 then unit
    else if (n - 1) % LANES == lane then op(Partial(op, unit, x, lane, n - 1), x[n - 1])
    else Partial(op, unit, x, lane, n - 1)
  }

  lemma {:induction false} PartialSkips<T>(op: (T, T) -> T, unit: T, x: seq<T>, lane: int, n: nat, m: nat)
    requires n <= m <= |x| && forall c :: n <= c < m ==> c % LANES != lane
    ensures Partial(op, unit, x, lane, m) == Partial(op, unit, x, lane, n)
    decreases m
  {
    if n < m {
      PartialSkips(op, unit, x, lane, n, m - 1);
    }
  }

  lemma StrideGap(c: int, lane: int)
    requires c % LANES == lane
    ensures forall d :: c < d < c + LANES ==> d % LANES != lane
    ensures (c + LANES) % LANES == lane
  {}

  /** The strided loop of one lane. */
  method LaneFold<T>(op: (T, T) -> T, unit: T, x: seq<T>, lane: int) returns (acc: T)
    requires 0 <= lane < LANES
    ensures acc == Partial(op, unit, x, lane, |x|)
  {
    acc := unit;
    var c := lane;
    PartialSkips(op, unit, x, lane, 0, if c < |x| then c else |x|);
    while c < |x|
      invariant c >= 0 && c % LANES == lane
      invariant acc == Partial(op, unit, x, lane, if c < |x| then c else |x|)
    {
      StrideGap(c, lane);
      PartialSkips(op, unit, x, lane, c + 1, if c + LANES < |x| then c + LANES else |x|);
      acc := op(acc, x[c]);
      c := c + LANES;
    }
  }

  function Partials<T>(op: (T, T) -> T, unit: T, x: seq<T>, n: nat): (r: seq<T>)
    requires n <= |x|
    ensures |r| == LANES
  {
    seq(LANES, lane => Partial(op, unit, x, lane, n))
  }

  lemma {:induction false} FoldUpdate<T(!new)>(op: (T, T) -> T, unit: T, v: seq<T>, k: nat, y: T)
    requires IsMonoid(op, unit) && k < |v|
    ensures Fold(op, v[k := op(v[k], y)]) == op(Fold(op, v), y)
    decreases |v|
  {
    hide IsMonoid;
    var n := |v| - 1;
    var w := v[k := op(v[k], y)];
    if n > 0 {
      if k < n {
        FoldUpdate(op, unit, v[..n], k, y);
        assert w[..n] == v[..n][k := op(v[..n][k], y)];
        Associative(op, unit, Fold(op, v[..n]), y, v[n]);
        Commutative(op, unit, y, v[n]);
        Associative(op, unit, Fold(op, v[..n]), v[n], y);
      } else {
        assert w[..n] == v[..n];
        Associative(op, unit, Fold(op, v[..n]), v[n], y);
      }
    }
  }

  lemma {:induction false} FoldUnits<T(!new)>(op: (T, T) -> T, unit: T, v: seq<T>)
    requires IsMonoid(op, unit) && v != [] && forall l :: 0 <= l < |v| ==> v[l] == unit
    ensures Fold(op, v) == unit
    decreases |v|
  {
    hide IsMonoid;
    if |v| > 1 {
      FoldUnits(op, unit, v[..|v| - 1]);
      Commutative(op, unit, unit, unit);
    }
  }

  /** The columns are shared out among the lanes: the lanes' results combine to the whole row. */
  lemma {:induction false} LanesMakeRow<T(!new)>(op: (T, T) -> T, unit: T, x: seq<T>, n: nat)
    requires IsMonoid(op, unit) && n <= |x|
    ensures Fold(op, Partials(op, unit, x, n)) == RowFold(op, unit, x, n)
  {
    hide IsMonoid, Fold;
    if n == 0 {
      FoldUnits(op, unit, Partials(op, unit, x, 0));
    } else {
      LanesMakeRow(op, unit, x, n - 1);
      var before, k := Partials(op, unit, x, n - 1), (n - 1) % LANES;
      assert Partials(op, unit, x, n) == before[k := op(before[k], x[n - 1])];
      FoldUpdate(op, unit, before, k, x[n - 1]);
    }
  }

  /** Strided loops, shuffle tree and broadcast: every lane ends with the sequential result. */
  method RowReduce<T(!new)>(op: (T, T) -> T, unit: T, x: seq<T>) returns (v: seq<T>)
    requires IsMonoid(op, unit)
    ensures |v| == LANES && forall lane :: 0 <= lane < LANES ==> v[lane] == RowFold(op, unit, x, |x|)
  {
    hide IsMonoid, Fold, RowFold, Partial;
    var local: seq<T> := [];
    while |local| < LANES
      invariant |local| <= LANES
      invariant forall lane :: 0 <= lane < |local| ==> local[lane] == Partial(op, unit, x, lane, |x|)
    {
      var acc := LaneFold(op, unit, x, |local|);
      local := local + [acc];
    }
    assert local == Partials(op, unit, x, |x|);
    var reduced := Reduce(op, unit, local);
    LanesMakeRow(op, unit, x, |x|);
    v := seq(LANES, lane => reduced[0]);
  }
}
