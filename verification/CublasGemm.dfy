/** The cuBLAS branch of the matrix product: a column-major GEMM fed with row-major buffers. */
module CublasGemm {
  import opened Arithmetic
  import opened MatmulSpec
  import opened MatmulBlock
  import opened MatmulGrid

  /** static_cast<int> of a 64-bit size. */
  function ToInt32(x: int): int {
    var low := x % 0x1_0000_0000;
    if low < 0x8000_0000 then low else low - 0x1_0000_0000
  }

  /** Column-major inner product: row i of an m x k matrix with column j of a k x n one. */
  function ColumnDot(a: Memory, lda: int, b: Memory, ldb: int, i: int, j: int, k: int): int
    decreases k
  {
    if k <= 0 then 0
    else ColumnDot(a, lda, b, ldb, i, j, k - 1) + a(Flat(k - 1, lda, i)) * b(Flat(j, ldb, k - 1))
  }

  /** What a column-major GEMM without transposition leaves in c; element (i, j) is at i + j*ldc. */
  function Gemm(m: int, n: int, k: int, alpha: int, a: Memory, lda: int, b: Memory, ldb: int,
                beta: int, c: Memory, ldc: int): Memory
  {
    address =>
      if ldc > 0 && address >= 0 && address % ldc < m && address / ldc < n then
        alpha * ColumnDot(a, lda, b, ldb, address % ldc, address / ldc, k) + beta * c(address)
      else c(address)
  }

  /** The call the backend makes: B first, sizes (N, M, K), leading dimensions N, K, N. */
  function MatmulViaCublas(a: Memory, b: Memory, c: Memory, M: int, N: int, K: int): Memory {
    Gemm(ToInt32(N), ToInt32(M), ToInt32(K), 1, b, ToInt32(N), a, ToInt32(K), 0, c, ToInt32(N))
  }

  ghost predicate IsRowMajorProduct(a: Memory, b: Memory, c: Memory, c': Memory, M: int, N: int, K: int)
    requires K >= 0
  {
    && (forall r, j :: 0 <= r < M && 0 <= j < N ==> c'(Flat(r, N, j)) == FlatDot(a, b, N, K, r, j, K))
    && (forall i :: i < 0 || i >= M * N ==> c'(i) == c(i))
  }

  lemma {:induction false} ColumnIsRow(a: Memory, b: Memory, N: int, K: int, r: int, j: int, k: nat)
    ensures ColumnDot(b, N, a, K, j, r, k) == FlatDot(a, b, N, K, r, j, k)
  {
    if k > 0 {
      ColumnIsRow(a, b, N, K, r, j, k - 1);
    }
  }

  lemma ProductAtAddress(a: Memory, b: Memory, c: Memory, M: int, N: int, K: int, r: int, j: int)
    requires 1 <= M < 0x8000_0000 && 1 <= N < 0x8000_0000 && 1 <= K < 0x8000_0000
    requires 0 <= r < M && 0 <= j < N
    ensures MatmulViaCublas(a, b, c, M, N, K)(Flat(r, N, j)) == FlatDot(a, b, N, K, r, j, K)
  {
    hide Flat, ColumnDot, FlatDot, ToInt32;
    CastCuts(M);
    CastCuts(N);
    CastCuts(K);
    FlatParts(r, N, j);
    ColumnIsRow(a, b, N, K, r, j, K);
  }

  lemma FlatParts(r: int, N: int, j: int)
    requires 0 <= r && 0 <= j < N
    ensures Flat(r, N, j) >= 0 && Flat(r, N, j) / N == r && Flat(r, N, j) % N == j
  {
    MulNonNegative(r, N);
    DivModIs(Flat(r, N, j), N, r, j);
  }

  lemma OutsideProduct(a: Memory, b: Memory, c: Memory, M: int, N: int, K: int, i: int)
    requires 1 <= M < 0x8000_0000 && 1 <= N < 0x8000_0000 && 1 <= K < 0x8000_0000
    requires i < 0 || i >= M * N
    ensures MatmulViaCublas(a, b, c, M, N, K)(i) == c(i)
  {
    hide ColumnDot, ToInt32;
    CastCuts(M);
    CastCuts(N);
    if i >= 0 {
      QuotientAtLeast(i, N, M);
    }
  }

  lemma QuotientAtLeast(x: int, d: int, q: int)
    requires d > 0 && x >= q * d
    ensures x / d >= q
  {
    if x / d < q {
      MulMonotone(x / d + 1, q, d);
      MulDistributes(x / d, 1, d);
    }
  }

  /** Sizes that fit an int: the buffer holds the row-major product, for all data. */
  lemma FittingSizesMultiply(a: Memory, b: Memory, c: Memory, M: int, N: int, K: int)
    requires 1 <= M < 0x8000_0000 && 1 <= N < 0x8000_0000 && 1 <= K < 0x8000_0000
    ensures IsRowMajorProduct(a, b, c, MatmulViaCublas(a, b, c, M, N, K), M, N, K)
  {
    hide MatmulViaCublas, Flat;
    forall r, j | 0 <= r < M && 0 <= j < N
      ensures MatmulViaCublas(a, b, c, M, N, K)(Flat(r, N, j)) == FlatDot(a, b, N, K, r, j, K)
    {
      ProductAtAddress(a, b, c, M, N, K, r, j);
    }
    forall i | i < 0 || i >= M * N ensures MatmulViaCublas(a, b, c, M, N, K)(i) == c(i) {
      OutsideProduct(a, b, c, M, N, K, i);
    }
  }

  // ---------------------------------------------------------------- sizes that do not fit

  lemma {:induction false} ZeroColumnDot(a: Memory, lda: int, b: Memory, ldb: int, i: int, j: int, k: int)
    requires forall n :: 0 <= n < k ==> b(Flat(j, ldb, n)) == 0
    ensures ColumnDot(a, lda, b, ldb, i, j, k) == 0
    decreases k
  {
    if k > 0 {
      ZeroColumnDot(a, lda, b, ldb, i, j, k - 1);
    }
  }

  lemma {:induction false} ZeroDot(a: Memory, b: Memory, N: int, K: int, r: int, j: int, k: nat)
    requires forall n :: 0 <= n < k ==> a(Flat(r, K, n)) == 0
    ensures FlatDot(a, b, N, K, r, j, k) == 0
  {
    if k > 0 {
      ZeroDot(a, b, N, K, r, j, k - 1);
    }
  }

  lemma CastCuts(x: int)
    requires x >= 1
    ensures ToInt32(x) <= x && (ToInt32(x) == x <==> x < 0x8000_0000)
  {}

  /** A cut M or N: with zero operands and c full of ones, the last element is never written. */
  lemma LastElementMissed(M: int, N: int, K: int)
    requires M >= 1 && N >= 1 && K >= 1 && (M >= 0x8000_0000 || N >= 0x8000_0000)
    ensures !IsRowMajorProduct(i => 0, i => 0, i => 1, MatmulViaCublas(i => 0, i => 0, i => 1, M, N, K), M, N, K)
  {
    var zero: Memory, one: Memory := i => 0, i => 1;
    var last := Flat(M - 1, N, N - 1);
    CastCuts(M);
    CastCuts(N);
    if ToInt32(N) > 0 {
      LastAddress(M, N, ToInt32(M), ToInt32(N));
    }
    ZeroDot(zero, zero, N, K, M - 1, N - 1, K);
    assert MatmulViaCublas(zero, zero, one, M, N, K)(last) == 1;
  }

  lemma LastAddress(M: int, N: int, m: int, n: int)
    requires M >= 1 && N >= 1 && m <= M && n <= N && (m < M || n < N) && n > 0
    ensures Flat(M - 1, N, N - 1) / n >= m
  {
    MulDistributes(M, 1, N);
    assert Flat(M - 1, N, N - 1) == M * N - 1;
    if n < N {
      MulCommutes(M, N);
      MulCommutes(M, n);
      MulMonotone(n + 1, N, M);
      MulDistributes(n, 1, M);
      MulMonotone(m, M, n);
    } else {
      MulMonotone(m, M - 1, N);
    }
    QuotientAtLeast(M * N - 1, n, m);
  }

  /** A cut K: the last product of each sum is dropped. */
  lemma LastProductMissed(M: int, N: int, K: int) returns (a: Memory)
    requires 1 <= M < 0x8000_0000 && 1 <= N < 0x8000_0000 && K >= 0x8000_0000
    ensures !IsRowMajorProduct(a, i => 1, i => 0, MatmulViaCublas(a, i => 1, i => 0, M, N, K), M, N, K)
  {
    a := i => if i == K - 1 then 1 else 0;
    CastCuts(K);
    ZeroColumnDot(i => 1, N, a, ToInt32(K), 0, 0, ToInt32(K));
    assert MatmulViaCublas(a, i => 1, i => 0, M, N, K)(Flat(0, N, 0)) == 0;
    ZeroDot(a, i => 1, N, K, 0, 0, K - 1);
    assert FlatDot(a, i => 1, N, K, 0, 0, K) == 1;
  }

  /** The backend multiplies correctly, whatever the data, exactly when every size fits an int. */
  lemma CublasMultipliesIff(M: int, N: int, K: int)
    requires M >= 1 && N >= 1 && K >= 1
    ensures (forall a: Memory, b: Memory, c: Memory ::
               IsRowMajorProduct(a, b, c, MatmulViaCublas(a, b, c, M, N, K), M, N, K))
            <==> M < 0x8000_0000 && N < 0x8000_0000 && K < 0x8000_0000
  {
    hide MatmulViaCublas, IsRowMajorProduct;
    if M >= 0x8000_0000 || N >= 0x8000_0000 {
      LastElementMissed(M, N, K);
    } else if K >= 0x8000_0000 {
      var a := LastProductMissed(M, N, K);
    } else {
      forall a: Memory, b: Memory, c: Memory
        ensures IsRowMajorProduct(a, b, c, MatmulViaCublas(a, b, c, M, N, K), M, N, K)
      {
        FittingSizesMultiply(a, b, c, M, N, K);
      }
    }
  }

  /** Hence the two branches of the dispatch are interchangeable: from the same buffers and the
      same old contents they leave the same C, address by address. */
  lemma BranchesAgree(a: Memory, b: Memory, M: int, N: int, K: int, g: Grid, moves: seq<Move>, g': Grid)
    requires 1 <= M < 0x8000_0000 && 1 <= N < 0x8000_0000 && 1 <= K < 0x8000_0000
    requires GridInit(Call(a, b, M, N, K), g)
    requires Reaches(Call(a, b, M, N, K), g, moves, g')
    requires forall n :: n in g'.blocks ==> Terminal(g'.blocks[n])
    ensures forall i :: g'.C(i) == MatmulViaCublas(a, b, g.C, M, N, K)(i)
  {
    hide MatmulViaCublas, GridInit, Reaches, Terminal, FlatDot;
    KernelMultiplies(a, b, M, N, K, g, moves, g');
    FittingSizesMultiply(a, b, g.C, M, N, K);
    forall i ensures g'.C(i) == MatmulViaCublas(a, b, g.C, M, N, K)(i) {
      if 0 <= i < M * N {
        QuotientBelow(i, N, M);
        assert i == Flat(i / N, N, i % N);
      }
    }
  }
}
