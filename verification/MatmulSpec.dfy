/** What the matrix-product kernel is for, and the zero-padded sum that it actually
    accumulates.  Arithmetic is exact; memory is total, so that an over-read yields some value. */
module MatmulSpec {
  import opened Arithmetic

  /** One call of the kernel.  A(r, k) is the element found at distance k from the start of
      row r, also for k past the end of the row; `times` is the exact product. */
  datatype Problem = Problem(M: int, N: int, K: int, A: (int, int) -> int, B: (int, int) -> int,
                             times: (int, int) -> int) {
    ghost predicate Valid() { M >= 1 && N >= 1 && K >= 1 && forall x :: times(x, 0) == 0 }
  }

  /** The plain triple loop's inner sum over the first k columns of A. */
  function Dot(p: Problem, r: int, c: int, k: int): int
    decreases k
  {
    if k <= 0 then 0 else Dot(p, r, c, k - 1) + p.times(p.A(r, k - 1), p.B(k - 1, c))
  }

  /** n elements rounded up to whole vectors of 8. */
  function WholeVectors(n: int): int { (n + 7) / 8 * 8 }

  /** The guard looks only at the first element of a vector, so it lets exactly the elements
      below WholeVectors(n) through. */
  lemma GuardReach(first: int, lane: int, n: int)
    requires first % 8 == 0 && 0 <= lane < 8
    ensures first < n <==> first + lane < WholeVectors(n)
  {}

  /** What the load loop puts into As for global position (gr, gk). */
  function AValue(p: Problem, gr: int, gk: int): int {
    if gr < p.M && gk < WholeVectors(p.K) then p.A(gr, gk) else 0
  }

  /** The same for Bs at global position (gk, gc). */
  function BValue(p: Problem, gk: int, gc: int): int {
    if gk < p.K && gc < WholeVectors(p.N) then p.B(gk, gc) else 0
  }

  /** The sum over the loaded values, zero fill and over-read included. */
  function PaddedDot(p: Problem, gr: int, gc: int, k: int): int
    decreases k
  {
    if k <= 0 then 0 else PaddedDot(p, gr, gc, k - 1) + p.times(AValue(p, gr, k - 1), BValue(p, k - 1, gc))
  }

  /** For every shape, in range, whatever lies past the end of a row of A or of B
      has no influence: the padded sum past K is the exact product. */
  lemma {:induction false} PaddedIsExact(p: Problem, r: int, c: int, k: int)
    requires p.Valid() && 0 <= r < p.M && 0 <= c < p.N
    ensures PaddedDot(p, r, c, k) == Dot(p, r, c, if k <= p.K then k else p.K)
    decreases k
  {
    if k > 0 {
      PaddedIsExact(p, r, c, k - 1);
    }
  }

  /** Element k of row r, of a row-major buffer with the given number of columns. */
  function Flat(r: int, columns: int, c: int): int { r * columns + c }

  /** All 8 elements of the vector at (r, c) lie in the buffer. */
  predicate VectorInside(rows: int, columns: int, r: int, c: int) {
    0 <= Flat(r, columns, c) && Flat(r, columns, c) + 7 < rows * columns
  }

  /** The guard lets a vector through when its first element is in range.  Every read it lets
      through stays inside the buffer exactly when the rows are whole vectors. */
  lemma GuardedReadsInsideIff(rows: int, columns: int)
    requires rows >= 1 && columns >= 1
    ensures (forall r, c :: 0 <= r < rows && 0 <= c < columns && c % 8 == 0 ==> VectorInside(rows, columns, r, c))
            <==> columns % 8 == 0
  {
    if columns % 8 == 0 {
      forall r, c | 0 <= r < rows && 0 <= c < columns && c % 8 == 0 ensures VectorInside(rows, columns, r, c) {
        RowEnd(r, rows, columns);
        assert c + 7 < columns;
      }
    } else {
      var r, c := rows - 1, columns - columns % 8;
      RowEnd(r, rows, columns);
      assert c % 8 == 0 && 0 <= c < columns;
      assert !VectorInside(rows, columns, r, c);
    }
  }

  lemma RowEnd(r: int, rows: int, width: int)
    requires 0 <= r < rows && width >= 1
    ensures 0 <= r * width && r * width + width <= rows * width
    ensures r == rows - 1 ==> r * width + width == rows * width
  {
    MulNonNegative(r, width);
    MulMonotone(r + 1, rows, width);
    MulDistributes(r, 1, width);
  }
}
