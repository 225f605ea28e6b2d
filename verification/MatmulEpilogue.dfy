/** The epilogue loop of one thread, on the result buffer itself. */
module MatmulEpilogue {
  import opened Arithmetic
  import opened MatmulSpec
  import opened MatmulBlock

  predicate Placed(t: Tile) { t.p.M >= 1 && t.p.N >= 1 && t.m >= 0 && t.n >= 0 }

  /** The tile elements thread tid stores. */
  predicate Mine(t: Tile, tid: int, i: int) { 0 <= i < C_ELEMS && i % THREADS == tid && InRange(t, i) }

  /** An element in range lies in the buffer, and no other element of the tile has its address. */
  lemma AddressIsOwn(t: Tile, i: int, j: int)
    requires Placed(t) && 0 <= i < C_ELEMS && InRange(t, i) && 0 <= j < C_ELEMS && InRange(t, j)
    ensures 0 <= Address(t, i) < t.p.M * t.p.N
    ensures Address(t, i) == Address(t, j) ==> i == j
  {
    RowEnd(t.Row0() + i / TILE_N, t.p.M, t.p.N);
    if Address(t, i) == Address(t, j) {
      QuotientUnique(t.p.N, t.Row0() + i / TILE_N, t.Col0() + i % TILE_N, t.Row0() + j / TILE_N, t.Col0() + j % TILE_N);
    }
  }

  /** The loop's stride: the thread's elements below i + 256 are those below i, and i itself. */
  lemma NextMine(t: Tile, tid: int, i: int)
    requires 0 <= tid <= i < C_ELEMS && i % THREADS == tid
    ensures (i + THREADS) % THREADS == tid
    ensures Mine(t, tid, i) <==> t.Row0() + i / TILE_N < t.p.M && t.Col0() + i % TILE_N < t.p.N
    ensures forall j | Mine(t, tid, j) && j < i + THREADS :: j < i || j == i
  {
    hide InRange;
    InRangeIs(t, i);
    assert (i + THREADS) % THREADS == tid;
    forall j | Mine(t, tid, j) && j < i + THREADS ensures j <= i {
      SameResidue(i, j);
    }
  }

  lemma SameResidue(i: int, j: int)
    requires i % THREADS == j % THREADS && j < i + THREADS
    ensures j <= i
  {
    assert i == i / THREADS * THREADS + i % THREADS && j == j / THREADS * THREADS + j % THREADS;
  }

  lemma InRangeIs(t: Tile, i: int)
    ensures InRange(t, i) <==> t.Row0() + i / TILE_N < t.p.M && t.Col0() + i % TILE_N < t.p.N
  {}

  lemma OtherPlaces(t: Tile, tid: int, i: int)
    requires Placed(t) && Mine(t, tid, i)
    ensures 0 <= Address(t, i) < t.p.M * t.p.N
    ensures forall j | Mine(t, tid, j) && j != i :: Address(t, j) != Address(t, i)
  {
    hide Address, InRange;
    forall j | Mine(t, tid, j) { AddressIsOwn(t, i, j); }
    AddressIsOwn(t, i, i);
  }

  lemma MineBelow(t: Tile, tid: int)
    requires 0 <= tid < THREADS
    ensures forall j | Mine(t, tid, j) :: 0 <= j < C_ELEMS && j % THREADS == tid
    ensures forall j | Mine(t, tid, j) :: tid <= j
  {}

  /** Element i of the shared tile Cs. */
  function Shared(Cs: array2<int>, i: int): int
    requires Cs.Length0 == TILE_M && Cs.Length1 == TILE_N && 0 <= i < C_ELEMS
    reads Cs
  {
    Cs[i / TILE_N, i % TILE_N]
  }

  /** The thread copies exactly its elements of the tile that lie in range, each to its place; the rest of C stays. */
  method StoreTile(t: Tile, tid: int, Cs: array2<int>, C: array<int>)
    requires Placed(t) && 0 <= tid < THREADS
    requires Cs.Length0 == TILE_M && Cs.Length1 == TILE_N && C.Length == t.p.M * t.p.N
    modifies C
    ensures forall i | Mine(t, tid, i) :: 0 <= Address(t, i) < C.Length && C[Address(t, i)] == Shared(Cs, i)
    ensures forall a | 0 <= a < C.Length :: C[a] == old(C[a]) || exists i :: Mine(t, tid, i) && a == Address(t, i)
  {
    hide Address, InRange, Mine, Shared;
    MineBelow(t, tid);
    var i := tid;
    while i < C_ELEMS
      invariant tid <= i && i % THREADS == tid
      invariant forall j | Mine(t, tid, j) && j < i :: 0 <= Address(t, j) < C.Length && C[Address(t, j)] == Shared(Cs, j)
      invariant forall a | 0 <= a < C.Length :: C[a] == old(C[a]) || exists j :: Mine(t, tid, j) && a == Address(t, j)
    {
      var r, c := i / TILE_N, i % TILE_N;
      NextMine(t, tid, i);
      if t.Row0() + r < t.p.M && t.Col0() + c < t.p.N {
        OtherPlaces(t, tid, i);
        SharedIs(Cs, i);
        C[Address(t, i)] := Cs[r, c];
      }
      i := i + THREADS;
    }
  }

  lemma SharedIs(Cs: array2<int>, i: int)
    requires Cs.Length0 == TILE_M && Cs.Length1 == TILE_N && 0 <= i < C_ELEMS
    ensures Shared(Cs, i) == Cs[i / TILE_N, i % TILE_N]
  {}
}
