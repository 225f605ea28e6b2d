/** The whole launch: blocks of the grid run in any order and any interleaving, sharing
    only C.  Main result: when they are done, C is the triple loop's product. */
module MatmulGrid {
  import opened Arithmetic
  import opened Wrappers
  import opened MatmulSpec
  import opened MatmulBlock
  import opened MatmulPipeline
  import opened MatmulSteps
  import Swizzle

  // ---------------------------------------------------------------- launch geometry

  function GridM(p: Problem): int { (p.M + (TILE_M - 1)) / TILE_M }

  function GridN(p: Problem): int { (p.N + (TILE_N - 1)) / TILE_N }

  datatype BlockIdx = BlockIdx(x: int, y: int)

  predicate Launched(p: Problem, n: BlockIdx) { 0 <= n.x < GridN(p) && 0 <= n.y < GridM(p) }

  function TileFor(p: Problem, n: BlockIdx): (t: Tile)
    requires p.Valid() && Launched(p, n)
    ensures t.Valid() && t.p == p
  {
    var tile := Swizzle.TileOf(GridM(p), GridN(p), n.x, n.y);
    Tile(p, tile.0, tile.1)
  }

  /** Shapes whose tiles can be numbered in 32-bit ints, on a grid of at most 65535 rows. */
  predicate IndicesFit(p: Problem) {
    p.M <= 65535 * TILE_M && p.N <= 0x8000_0000 && GridM(p) * GridN(p) <= 0x8000_0000
  }

  // ---------------------------------------------------------------- runs of the grid

  datatype Grid = Grid(blocks: map<BlockIdx, Block>, C: Memory)

  ghost predicate Shape(p: Problem, g: Grid) {
    forall n :: Launched(p, n) <==> n in g.blocks
  }

  ghost predicate GridInit(p: Problem, g: Grid) {
    Shape(p, g) && forall n :: n in g.blocks ==> Init(g.blocks[n]) && ZeroFragments(g.blocks[n])
  }

  datatype Move = Move(n: BlockIdx, choice: Choice)

  /** The 32-bit index arithmetic of a block is defined. */
  predicate Defined(p: Problem, n: BlockIdx) {
    Launched(p, n) && Swizzle.FitsInt32(GridM(p), GridN(p), n.x, n.y)
  }

  /** A block whose index arithmetic overflows has no defined behaviour, and takes no step here. */
  ghost predicate GridEnabled(p: Problem, g: Grid, move: Move) {
    Defined(p, move.n) && move.n in g.blocks && |g.blocks[move.n].threads| == THREADS && Enabled(g.blocks[move.n], move.choice)
  }

  ghost function GridNext(p: Problem, g: Grid, move: Move): Grid
    requires p.Valid() && GridEnabled(p, g, move)
  {
    var t, b := TileFor(p, move.n), g.blocks[move.n];
    Grid(g.blocks[move.n := Next(t, b, move.choice)], NextMemory(t, b, move.choice, g.C))
  }

  /** The state after a run, as long as each move was possible when it was made. */
  ghost predicate Reaches(p: Problem, g: Grid, moves: seq<Move>, g': Grid)
    requires p.Valid()
    decreases |moves|
  {
    if moves == [] then g' == g
    else GridEnabled(p, g, moves[0]) && Reaches(p, GridNext(p, g, moves[0]), moves[1..], g')
  }

  /** On a grid that can be launched, all blocks are defined if and only if the shape fits. */
  lemma AllDefinedIff(p: Problem)
    requires p.Valid() && p.M <= 65535 * TILE_M
    ensures (forall n | Launched(p, n) :: Defined(p, n)) <==> IndicesFit(p)
  {
    hide Swizzle.FitsInt32;
    Swizzle.SwizzleFitsInt32(GridM(p), GridN(p));
    assert GridN(p) <= 0x200_0000 <==> p.N <= 0x8000_0000;
    if forall n | Launched(p, n) :: Defined(p, n) {
      forall x, y | 0 <= x < GridN(p) && 0 <= y < GridM(p) ensures Swizzle.FitsInt32(GridM(p), GridN(p), x, y) {
        assert Defined(p, BlockIdx(x, y));
      }
    }
  }

  // ---------------------------------------------------------------- what C holds

  ghost predicate IsProduct(p: Problem, a: int, v: int)
    requires p.Valid()
  {
    exists r, c :: 0 <= r < p.M && 0 <= c < p.N && a == r * p.N + c && v == Dot(p, r, c, p.K)
  }

  /** Every address keeps its old value or holds the element of the product that belongs there. */
  ghost predicate Clean(p: Problem, C0: Memory, C: Memory)
    requires p.Valid()
  {
    forall a :: C(a) == C0(a) || IsProduct(p, a, C(a))
  }

  predicate Past(th: Thread, i: int) { th.pc.Done? || (th.pc.Epilogue? && i < th.pc.i) }

  /** Thread i mod 256 writes element i of the tile in its epilogue loop. */
  ghost predicate Written(t: Tile, b: Block, C: Memory)
    requires t.Valid() && |b.threads| == THREADS
  {
    forall i | 0 <= i < C_ELEMS && InRange(t, i) && Past(b.threads[i % THREADS], i) ::
      C(Address(t, i)) == Dot(t.p, t.Row0() + i / TILE_N, t.Col0() + i % TILE_N, t.p.K)
  }

  lemma ProductUnique(p: Problem, a: int, v: int, r: int, c: int)
    requires p.Valid() && IsProduct(p, a, v) && 0 <= r < p.M && 0 <= c < p.N && a == r * p.N + c
    ensures v == Dot(p, r, c, p.K)
  {
    var r', c' :| 0 <= r' < p.M && 0 <= c' < p.N && a == r' * p.N + c' && v == Dot(p, r', c', p.K);
    QuotientUnique(p.N, r, c, r', c');
  }

  /** What a thread in the epilogue reads from Cs is the exact element of the product. */
  lemma EpilogueReadsProduct(t: Tile, b: Block, tid: int, r: int, c: int)
    requires t.Valid() && Inv(t, b) && 0 <= tid < THREADS && b.threads[tid].pc.Epilogue?
    requires 0 <= r < TILE_M && 0 <= c < TILE_N && t.Row0() + r < t.p.M && t.Col0() + c < t.p.N
    ensures b.outputs(r, c) == Some(Dot(t.p, t.Row0() + r, t.Col0() + c, t.p.K))
  {
    hide Dot, TileSum, RowOf, ColOf;
    var e := ElementAt(r, c);
    var lead := b.threads[Leader(e)];
    AllStoredInEpilogue(t, b, tid, Leader(e));
    assert SumOk(t, b, e);
    FullSum(t, r, c, lead.k0);
  }

  lemma FullSum(t: Tile, r: int, c: int, k: int)
    requires t.Valid() && 0 <= r && 0 <= c && t.Row0() + r < t.p.M && t.Col0() + c < t.p.N && k >= t.p.K
    ensures TileSum(t, r, c, k) == Dot(t.p, t.Row0() + r, t.Col0() + c, t.p.K)
  {
    PaddedIsExact(t.p, t.Row0() + r, t.Col0() + c, k);
  }

  lemma ProductAt(t: Tile, i: int)
    requires t.Valid() && 0 <= i < C_ELEMS && InRange(t, i)
    ensures IsProduct(t.p, Address(t, i), Dot(t.p, t.Row0() + i / TILE_N, t.Col0() + i % TILE_N, t.p.K))
  {}

  /** One step of a block changes C at most at one address, to the product element there. */
  lemma StepWritesProduct(t: Tile, b: Block, choice: Choice, C: Memory, a: int)
    requires t.Valid() && |b.threads| == THREADS && Inv(t, b) && Enabled(b, choice)
    ensures var C' := NextMemory(t, b, choice, C); C'(a) == C(a) || IsProduct(t.p, a, C'(a))
  {
    hide Dot, IsProduct, Inv, InRange;
    if choice.Run? && b.threads[choice.tid].pc.Epilogue? {
      var i := b.threads[choice.tid].pc.i;
      EpilogueIndex(t, b, choice.tid);
      if i < C_ELEMS && InRange(t, i) {
        EpilogueWrites(t, b, choice.tid, i);
      }
    }
  }

  lemma EpilogueIndex(t: Tile, b: Block, tid: int)
    requires |b.threads| == THREADS && Inv(t, b) && 0 <= tid < THREADS && b.threads[tid].pc.Epilogue?
    ensures b.threads[tid].pc.i >= 0 && b.threads[tid].pc.i % THREADS == tid
  {
    assert ThreadOk(t, b.threads[tid], tid);
  }

  lemma EpilogueWrites(t: Tile, b: Block, tid: int, i: int)
    requires t.Valid() && |b.threads| == THREADS && Inv(t, b) && 0 <= tid < THREADS && b.threads[tid].pc.Epilogue?
    requires 0 <= i < C_ELEMS && InRange(t, i)
    ensures b.outputs(i / TILE_N, i % TILE_N) == Some(Dot(t.p, t.Row0() + i / TILE_N, t.Col0() + i % TILE_N, t.p.K))
    ensures IsProduct(t.p, Address(t, i), Dot(t.p, t.Row0() + i / TILE_N, t.Col0() + i % TILE_N, t.p.K))
  {
    hide Dot, IsProduct, Inv;
    ElementBounds(i);
    EpilogueReadsProduct(t, b, tid, i / TILE_N, i % TILE_N);
    ProductAt(t, i);
  }

  lemma ElementBounds(i: int)
    requires 0 <= i < C_ELEMS
    ensures 0 <= i / TILE_N < TILE_M && 0 <= i % TILE_N < TILE_N
  {}

  lemma WrittenStays(t: Tile, b: Block, C: Memory, C': Memory)
    requires t.Valid() && |b.threads| == THREADS && Written(t, b, C)
    requires forall a :: C'(a) == C(a) || IsProduct(t.p, a, C'(a))
    ensures Written(t, b, C')
  {
    forall i | 0 <= i < C_ELEMS && InRange(t, i) && Past(b.threads[i % THREADS], i)
      ensures C'(Address(t, i)) == Dot(t.p, t.Row0() + i / TILE_N, t.Col0() + i % TILE_N, t.p.K)
    {
      var a := Address(t, i);
      if C'(a) != C(a) {
        ProductUnique(t.p, a, C'(a), t.Row0() + i / TILE_N, t.Col0() + i % TILE_N);
      }
    }
  }

  /** The block that moves has written every element its threads are past. */
  lemma StepWritten(t: Tile, b: Block, choice: Choice, C: Memory)
    requires t.Valid() && Inv(t, b) && Enabled(b, choice) && Written(t, b, C)
    ensures Inv(t, Next(t, b, choice)) && Written(t, Next(t, b, choice), NextMemory(t, b, choice, C))
  {
    hide Dot, IsProduct;
    StepInv(t, b, choice);
    var b', C' := Next(t, b, choice), NextMemory(t, b, choice, C);
    forall a ensures C'(a) == C(a) || IsProduct(t.p, a, C'(a)) {
      StepWritesProduct(t, b, choice, C, a);
    }
    WrittenStays(t, b, C, C');
    forall i | 0 <= i < C_ELEMS && InRange(t, i) && Past(b'.threads[i % THREADS], i)
      ensures C'(Address(t, i)) == Dot(t.p, t.Row0() + i / TILE_N, t.Col0() + i % TILE_N, t.p.K)
    {
      if !Past(b.threads[i % THREADS], i) {
        NewlyPast(t, b, choice, i);
        EpilogueWrites(t, b, i % THREADS, i);
      }
    }
  }

  /** A thread gets past element i only by the step that handles i. */
  lemma NewlyPast(t: Tile, b: Block, choice: Choice, i: int)
    requires t.Valid() && Inv(t, b) && Enabled(b, choice) && 0 <= i < C_ELEMS
    requires Past(Next(t, b, choice).threads[i % THREADS], i) && !Past(b.threads[i % THREADS], i)
    ensures choice.Run? && choice.tid == i % THREADS && b.threads[i % THREADS].pc == Epilogue(i)
  {
    var tid := i % THREADS;
    assert ThreadOk(t, b.threads[tid], tid);
  }

  // ---------------------------------------------------------------- the launch as a whole

  ghost predicate GridInv(p: Problem, g: Grid, C0: Memory)
    requires p.Valid()
  {
    && Shape(p, g)
    && (forall n | n in g.blocks :: Launched(p, n) && Inv(TileFor(p, n), g.blocks[n]) && Written(TileFor(p, n), g.blocks[n], g.C))
    && Clean(p, C0, g.C)
  }

  lemma GridStep(p: Problem, g: Grid, move: Move, C0: Memory)
    requires p.Valid() && GridInv(p, g, C0) && GridEnabled(p, g, move)
    ensures GridInv(p, GridNext(p, g, move), C0)
  {
    var t, b := TileFor(p, move.n), g.blocks[move.n];
    var g' := GridNext(p, g, move);
    forall a ensures g'.C(a) == g.C(a) || IsProduct(p, a, g'.C(a)) {
      StepWritesProduct(t, b, move.choice, g.C, a);
    }
    forall n | n in g'.blocks
      ensures Launched(p, n) && Inv(TileFor(p, n), g'.blocks[n]) && Written(TileFor(p, n), g'.blocks[n], g'.C)
    {
      if n == move.n {
        StepWritten(t, b, move.choice, g.C);
      } else {
        WrittenStays(TileFor(p, n), g.blocks[n], g.C, g'.C);
      }
    }
  }

  lemma {:induction false} RunInvariant(p: Problem, g: Grid, moves: seq<Move>, g': Grid, C0: Memory)
    requires p.Valid() && GridInv(p, g, C0) && Reaches(p, g, moves, g')
    ensures GridInv(p, g', C0)
    decreases |moves|
  {
    if moves != [] {
      GridStep(p, g, moves[0], C0);
      RunInvariant(p, GridNext(p, g, moves[0]), moves[1..], g', C0);
    }
  }

  // ---------------------------------------------------------------- who stores what

  datatype Site = Site(n: BlockIdx, tid: int, i: int)

  predicate IsSite(p: Problem, s: Site) {
    Launched(p, s.n) && 0 <= s.tid < THREADS && 0 <= s.i < C_ELEMS && s.i % THREADS == s.tid
  }

  /** The block, thread and loop index that store C[r][c]. */
  function SiteFor(p: Problem, r: int, c: int): Site
    requires p.Valid() && 0 <= r < p.M && 0 <= c < p.N
  {
    var b := Swizzle.BlockFor(GridM(p), GridN(p), r / TILE_M, c / TILE_N);
    var i := r % TILE_M * TILE_N + c % TILE_N;
    Site(BlockIdx(b.0, b.1), i % THREADS, i)
  }

  predicate Stores(p: Problem, s: Site, r: int, c: int)
    requires p.Valid() && IsSite(p, s)
  {
    var t := TileFor(p, s.n);
    InRange(t, s.i) && r == t.Row0() + s.i / TILE_N && c == t.Col0() + s.i % TILE_N
  }

  /** Each element of C is stored by exactly one block, thread and iteration. */
  lemma StoredExactlyOnce(p: Problem, r: int, c: int, s: Site)
    requires p.Valid() && 0 <= r < p.M && 0 <= c < p.N
    ensures IsSite(p, SiteFor(p, r, c)) && Stores(p, SiteFor(p, r, c), r, c)
    ensures IsSite(p, s) && Stores(p, s, r, c) ==> s == SiteFor(p, r, c)
  {
    SiteStores(p, r, c);
    if IsSite(p, s) && Stores(p, s, r, c) {
      var tile := Swizzle.TileOf(GridM(p), GridN(p), s.n.x, s.n.y);
      DivModIs(r, TILE_M, tile.0, s.i / TILE_N);
      DivModIs(c, TILE_N, tile.1, s.i % TILE_N);
      Swizzle.BlockIsUnique(GridM(p), GridN(p), s.n.x, s.n.y);
    }
  }

  lemma SiteStores(p: Problem, r: int, c: int)
    requires p.Valid() && 0 <= r < p.M && 0 <= c < p.N
    ensures IsSite(p, SiteFor(p, r, c)) && Stores(p, SiteFor(p, r, c), r, c)
  {
    Swizzle.TileIsHit(GridM(p), GridN(p), r / TILE_M, c / TILE_N);
    var i := r % TILE_M * TILE_N + c % TILE_N;
    DivModIs(i, TILE_N, r % TILE_M, c % TILE_N);
  }

  // ---------------------------------------------------------------- shapes out of range

  lemma DefinedIsLaunched(p: Problem, n: BlockIdx)
    ensures Defined(p, n) ==> Launched(p, n)
  {}

  /** A block that is not defined stays where it started. */
  lemma {:induction false} UndefinedStays(p: Problem, g: Grid, moves: seq<Move>, g': Grid, n: BlockIdx)
    requires p.Valid() && Reaches(p, g, moves, g') && !Defined(p, n) && n in g.blocks
    ensures n in g'.blocks && g'.blocks[n] == g.blocks[n]
    decreases |moves|
  {
    hide Defined, Enabled, Next, NextMemory;
    if moves != [] {
      DefinedIsLaunched(p, moves[0].n);
      UndefinedStays(p, GridNext(p, g, moves[0]), moves[1..], g', n);
    }
  }

  lemma OutOfRangeNeverEnds(p: Problem, g: Grid, moves: seq<Move>, g': Grid)
    requires p.Valid() && p.M <= 65535 * TILE_M && !IndicesFit(p) && GridInit(p, g) && Reaches(p, g, moves, g')
    ensures exists n :: n in g'.blocks && !Terminal(g'.blocks[n])
  {
    hide Defined, Reaches, IndicesFit;
    AllDefinedIff(p);
    var n :| Launched(p, n) && !Defined(p, n);
    UndefinedStays(p, g, moves, g', n);
    assert g'.blocks[n].threads[0].pc.Prologue?;
  }

  /** No block is launched for nothing: the first element of its tile is in range. */
  lemma NoIdleBlock(p: Problem, n: BlockIdx)
    requires p.Valid() && Launched(p, n)
    ensures TileFor(p, n).Row0() < p.M && TileFor(p, n).Col0() < p.N
  {
    hide Swizzle.TileOf;
  }

  // ---------------------------------------------------------------- main result

  /** For every problem and every run of every block to its end, in any interleaving: C is the
      product on its M*N elements, and nothing else has changed.  On a grid that can be launched such
      runs exist only for shapes whose indices fit. */
  lemma KernelRefinesTripleLoop(p: Problem, g: Grid, moves: seq<Move>, g': Grid)
    requires p.Valid() && GridInit(p, g) && Reaches(p, g, moves, g')
    requires forall n :: n in g'.blocks ==> Terminal(g'.blocks[n])
    ensures forall r, c :: 0 <= r < p.M && 0 <= c < p.N ==> g'.C(r * p.N + c) == Dot(p, r, c, p.K)
    ensures forall a :: a < 0 || a >= p.M * p.N ==> g'.C(a) == g.C(a)
    ensures p.M <= 65535 * TILE_M ==> IndicesFit(p)
  {
    hide Defined, IndicesFit;
    if p.M <= 65535 * TILE_M && !IndicesFit(p) {
      OutOfRangeNeverEnds(p, g, moves, g');
      assert false;
    }
    LaunchInv(p, g);
    RunInvariant(p, g, moves, g', g.C);
    forall r, c | 0 <= r < p.M && 0 <= c < p.N ensures g'.C(r * p.N + c) == Dot(p, r, c, p.K) {
      ElementDone(p, g', g.C, r, c);
    }
    forall a | a < 0 || a >= p.M * p.N ensures g'.C(a) == g.C(a) {
      OutsideKept(p, g.C, g'.C, a);
    }
  }

  lemma LaunchInv(p: Problem, g: Grid)
    requires p.Valid() && GridInit(p, g)
    ensures GridInv(p, g, g.C)
  {
    forall n | n in g.blocks
      ensures Launched(p, n) && Inv(TileFor(p, n), g.blocks[n]) && Written(TileFor(p, n), g.blocks[n], g.C)
    {
      InitInv(TileFor(p, n), g.blocks[n]);
    }
  }

  lemma ElementDone(p: Problem, g: Grid, C0: Memory, r: int, c: int)
    requires p.Valid() && GridInv(p, g, C0) && 0 <= r < p.M && 0 <= c < p.N
    requires forall n :: n in g.blocks ==> Terminal(g.blocks[n])
    ensures g.C(r * p.N + c) == Dot(p, r, c, p.K)
  {
    hide Dot, Inv, SiteFor, IsSite, Stores, TileFor, Launched, Terminal, Written, Clean;
    SiteStores(p, r, c);
    var s := SiteFor(p, r, c);
    SiteIs(p, s, r, c);
    assert s.n in g.blocks;
    WrittenAt(TileFor(p, s.n), g.blocks[s.n], g.C, s.i);
  }

  lemma SiteIs(p: Problem, s: Site, r: int, c: int)
    requires p.Valid() && IsSite(p, s) && Stores(p, s, r, c)
    ensures Launched(p, s.n) && 0 <= s.i < C_ELEMS
    ensures var t := TileFor(p, s.n);
            InRange(t, s.i) && t.Row0() + s.i / TILE_N == r && t.Col0() + s.i % TILE_N == c && Address(t, s.i) == r * p.N + c
  {}

  lemma WrittenAt(t: Tile, b: Block, C: Memory, i: int)
    requires t.Valid() && Inv(t, b) && Written(t, b, C) && Terminal(b) && 0 <= i < C_ELEMS && InRange(t, i)
    ensures C(Address(t, i)) == Dot(t.p, t.Row0() + i / TILE_N, t.Col0() + i % TILE_N, t.p.K)
  {
    hide Dot, Address, InRange;
    assert Past(b.threads[i % THREADS], i);
  }

  lemma OutsideKept(p: Problem, C0: Memory, C: Memory, a: int)
    requires p.Valid() && Clean(p, C0, C) && (a < 0 || a >= p.M * p.N)
    ensures C(a) == C0(a)
  {
    if IsProduct(p, a, C(a)) {
      var r, c :| 0 <= r < p.M && 0 <= c < p.N && a == r * p.N + c && C(a) == Dot(p, r, c, p.K);
      RowEnd(r, p.M, p.N);
    }
  }

  // ---------------------------------------------------------------- flat buffers

  /** Row r of the row-major buffer a times column c of the row-major buffer b. */
  function FlatDot(a: Memory, b: Memory, N: int, K: int, r: int, c: int, k: nat): int {
    if k == 0 then 0 else FlatDot(a, b, N, K, r, c, k - 1) + a(Flat(r, K, k - 1)) * b(Flat(k - 1, N, c))
  }

  /** A call on the buffers themselves: an over-read finds whatever follows in the buffer. */
  function Call(a: Memory, b: Memory, M: int, N: int, K: int): Problem {
    Problem(M, N, K, (r, k) => a(Flat(r, K, k)), (k, c) => b(Flat(k, N, c)), (x, y) => x * y)
  }

  lemma {:induction false} DotIsFlat(a: Memory, b: Memory, M: int, N: int, K: int, r: int, c: int, k: nat)
    ensures Dot(Call(a, b, M, N, K), r, c, k) == FlatDot(a, b, N, K, r, c, k)
  {
    if k > 0 {
      DotIsFlat(a, b, M, N, K, r, c, k - 1);
    }
  }

  /** The launch on row-major buffers a (M x K) and b (K x N) leaves their product in C. */
  lemma KernelMultiplies(a: Memory, b: Memory, M: int, N: int, K: int, g: Grid, moves: seq<Move>, g': Grid)
    requires M >= 1 && N >= 1 && K >= 1 && GridInit(Call(a, b, M, N, K), g)
    requires Reaches(Call(a, b, M, N, K), g, moves, g')
    requires forall n :: n in g'.blocks ==> Terminal(g'.blocks[n])
    ensures forall r, c :: 0 <= r < M && 0 <= c < N ==> g'.C(Flat(r, N, c)) == FlatDot(a, b, N, K, r, c, K)
    ensures forall i :: i < 0 || i >= M * N ==> g'.C(i) == g.C(i)
    ensures M <= 65535 * TILE_M ==> IndicesFit(Call(a, b, M, N, K))
  {
    var p := Call(a, b, M, N, K);
    KernelRefinesTripleLoop(p, g, moves, g');
    forall r, c | 0 <= r < M && 0 <= c < N ensures g'.C(Flat(r, N, c)) == FlatDot(a, b, N, K, r, c, K) {
      DotIsFlat(a, b, M, N, K, r, c, K);
      assert g'.C(r * p.N + c) == Dot(p, r, c, p.K);
    }
  }
}
