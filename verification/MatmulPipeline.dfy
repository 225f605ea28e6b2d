/** What every reachable state of a block satisfies, whatever the interleaving: where each
    thread is, which tile each stage holds, and what the fragments have accumulated. */
module MatmulPipeline {
  import opened Arithmetic
  import opened Wrappers
  import opened MatmulSpec
  import opened MatmulBlock

  // ---------------------------------------------------------------- invariants

  /** Registers of one thread as a function of where it is in the k0 loop. */
  ghost predicate ThreadOk(t: Tile, th: Thread, tid: int) {
    && th.it >= 0 && th.k0 == TILE_K * th.it && th.k0 - TILE_K < t.p.K
    && th.readStage == StageOf(th.it)
    && th.writeStage == (if th.pc.Prologue? then 0 else 1 - StageOf(th.it))
    && th.passed == 2 * th.it + (if th.pc.MmaStep? || th.pc.Barrier2? || th.pc.Epilogue? || th.pc.Done? then 1 else 0)
    && (th.pc.Prologue? ==> th.it == 0)
    && (th.pc.WaitGroup? || th.pc.Barrier1? || th.pc.MmaStep? || th.pc.Barrier2? ==> th.k0 < t.p.K)
    && (th.pc.StoreFrag? || th.pc.Barrier3? || th.pc.Epilogue? || th.pc.Done? ==> th.k0 >= t.p.K)
    && (th.pc.MmaStep? ==> th.pc.kStep == 0 || th.pc.kStep == WMMA_K)
    && (th.pc.Epilogue? ==> th.pc.i >= 0 && th.pc.i % THREADS == tid)
  }

  /** Threads are at most one barrier apart, and the one behind waits at it. */
  ghost predicate InStep(th: Thread, other: Thread) {
    th.passed <= other.passed || (th.passed == other.passed + 1 && Arrived(other))
  }

  ghost predicate BarrierOk(threads: seq<Thread>) {
    forall u, v :: 0 <= u < |threads| && 0 <= v < |threads| ==> InStep(threads[u], threads[v])
  }

  /** A thread has issued its copies of tile number k (the columns of A from 32*k). */
  ghost predicate Issued(t: Tile, th: Thread, k: int) {
    0 <= k && TILE_K * k < t.p.K && !th.pc.Prologue? && k <= if th.pc.LoopHead? then th.it else th.it + 1
  }

  /** A thread has not yet multiplied tile k. */
  ghost predicate Unread(th: Thread, k: int) {
    th.it < k
    || (th.it == k && (th.pc.Prologue? || th.pc.LoopHead? || th.pc.WaitGroup? || th.pc.Barrier1? || th.pc.MmaStep?))
  }

  function StageOf(k: int): int { k % 2 }

  function CopiesOf(t: Tile, tid: int, k: int): set<Copy> { TileCopies(t, tid, StageOf(k), TILE_K * k) }

  /** Copies are in flight only between issue and wait, and only for the current or the next tile. */
  ghost predicate InflightOk(t: Tile, th: Thread, tid: int) {
    && (th.pc.WaitGroup? || (th.pc.LoopHead? && th.it == 0) || th.inflight == {})
    && forall copy :: copy in th.inflight ==>
         copy in CopiesOf(t, tid, th.it) || (th.pc.WaitGroup? && copy in CopiesOf(t, tid, th.it + 1))
  }

  predicate IsCell(cell: Cell) {
    (cell.stage == 0 || cell.stage == 1)
    && if cell.of.OfA? then 0 <= cell.r < TILE_M && 0 <= cell.c < TILE_K
       else 0 <= cell.r < TILE_K && 0 <= cell.c < TILE_N
  }

  /** The number of the vector a cell lies in, and the thread that loads it. */
  function VectorIndex(cell: Cell): int {
    if cell.of.OfA? then cell.r * 4 + cell.c / 8 else cell.r * 8 + cell.c / 8
  }

  function Owner(cell: Cell): int { VectorIndex(cell) % THREADS }

  function VectorOf(t: Tile, cell: Cell, k: int): Copy {
    if cell.of.OfA? then ACopy(t, cell.stage, TILE_K * k, VectorIndex(cell))
    else BCopy(t, cell.stage, TILE_K * k, VectorIndex(cell))
  }

  /** The value a cell must hold when it belongs to tile k. */
  function CellValue(t: Tile, cell: Cell, k: int): int {
    if cell.of.OfA? then AValue(t.p, t.Row0() + cell.r, TILE_K * k + cell.c)
    else BValue(t.p, TILE_K * k + cell.r, t.Col0() + cell.c)
  }

  ghost predicate CellOk(t: Tile, b: Block, cell: Cell, k: int)
    requires |b.threads| == THREADS && IsCell(cell)
  {
    b.inputs(cell) == Some(CellValue(t, cell, k)) || VectorOf(t, cell, k) in b.threads[Owner(cell)].inflight
  }

  /** A cell whose owner has issued tile k, while thread v still has to read that tile. */
  ghost predicate Wanted(t: Tile, b: Block, cell: Cell, k: int, v: int)
    requires |b.threads| == THREADS
  {
    IsCell(cell) && cell.stage == StageOf(k) && 0 <= v < THREADS
    && Issued(t, b.threads[Owner(cell)], k) && Unread(b.threads[v], k)
  }

  /** Every such cell holds its value, or the vector that brings it is still in flight. */
  ghost predicate LoadsOk(t: Tile, b: Block)
    requires |b.threads| == THREADS
  {
    forall cell, k, v | Wanted(t, b, cell, k, v) :: CellOk(t, b, cell, k)
  }

  /** How many columns of A a thread's warp has multiplied. */
  function Consumed(th: Thread): int {
    match th.pc
    case MmaStep(kStep) => th.k0 + kStep
    case Barrier2 => th.k0 + TILE_K
    case _ => th.k0
  }

  /** What position (row, col) of the tile has summed after k columns of A. */
  function TileSum(t: Tile, row: int, col: int, k: int): int {
    PaddedDot(t.p, t.Row0() + row, t.Col0() + col, k)
  }

  /** The first lane of the warp an element belongs to; the lanes multiply and store together. */
  function Leader(e: Element): (tid: int)
    requires IsElement(e)
    ensures 0 <= tid < THREADS
  {
    32 * WarpOf(e)
  }

  ghost predicate SumOk(t: Tile, b: Block, e: Element)
    requires |b.threads| == THREADS && IsElement(e)
  {
    b.acc(e) == TileSum(t, RowOf(e), ColOf(e), Consumed(b.threads[Leader(e)]))
  }

  ghost predicate SumsOk(t: Tile, b: Block)
    requires |b.threads| == THREADS
  {
    forall e | IsElement(e) :: SumOk(t, b, e)
  }

  predicate Stored(th: Thread) { th.pc.Barrier3? || th.pc.Epilogue? || th.pc.Done? }

  /** Cs holds the finished sums of every warp that has stored. */
  ghost predicate OutputsOk(b: Block)
    requires |b.threads| == THREADS
  {
    forall r, c | 0 <= r < TILE_M && 0 <= c < TILE_N && Stored(b.threads[Leader(ElementAt(r, c))]) ::
      b.outputs(r, c) == Some(b.acc(ElementAt(r, c)))
  }

  ghost predicate ThreadsOk(t: Tile, b: Block)
    requires |b.threads| == THREADS
  {
    forall tid :: 0 <= tid < THREADS ==> ThreadOk(t, b.threads[tid], tid) && InflightOk(t, b.threads[tid], tid)
  }

  /** Where the threads are, relative to the loop and to each other. */
  ghost predicate Control(t: Tile, b: Block) {
    |b.threads| == THREADS && ThreadsOk(t, b) && BarrierOk(b.threads)
  }

  ghost predicate Inv(t: Tile, b: Block) {
    && Control(t, b)
    && LoadsOk(t, b)
    && SumsOk(t, b)
    && OutputsOk(b)
  }

  lemma InitInv(t: Tile, b: Block)
    requires t.Valid() && Init(b) && ZeroFragments(b)
    ensures Inv(t, b)
  {}

  // ---------------------------------------------------------------- vectors and cells

  lemma VectorPlace(cell: Cell)
    requires IsCell(cell)
    ensures var v := VectorIndex(cell);
            if cell.of.OfA? then 0 <= v < 512 && v * 8 / TILE_K == cell.r && v * 8 % TILE_K == cell.c - cell.c % 8
            else 0 <= v < 256 && v * 8 / TILE_N == cell.r && v * 8 % TILE_N == cell.c - cell.c % 8
  {
    var v := VectorIndex(cell);
    if cell.of.OfA? {
      DivModIs(v * 8, TILE_K, cell.r, cell.c / 8 * 8);
    } else {
      DivModIs(v * 8, TILE_N, cell.r, cell.c / 8 * 8);
    }
  }

  /** The vector of a cell, spelled out by the column c0 it starts at. */
  lemma VectorIs(t: Tile, cell: Cell, k: int, c0: int)
    requires IsCell(cell) && c0 == cell.c - cell.c % 8
    ensures VectorOf(t, cell, k) ==
            if cell.of.OfA? then
              Copy(Cell(OfA, cell.stage, cell.r, c0), t.Row0() + cell.r, TILE_K * k + c0,
                   t.Row0() + cell.r < t.p.M && TILE_K * k + c0 < t.p.K)
            else
              Copy(Cell(OfB, cell.stage, cell.r, c0), TILE_K * k + cell.r, t.Col0() + c0,
                   TILE_K * k + cell.r < t.p.K && t.Col0() + c0 < t.p.N)
  {
    VectorPlace(cell);
  }

  lemma ACarries(t: Tile, cell: Cell, gk: int, c0: int, copy: Copy)
    requires cell.of.OfA? && (gk + c0) % 8 == 0 && 0 <= cell.c - c0 < 8
    requires copy == Copy(Cell(OfA, cell.stage, cell.r, c0), t.Row0() + cell.r, gk + c0,
                          t.Row0() + cell.r < t.p.M && gk + c0 < t.p.K)
    ensures InVector(copy, cell)
    ensures CopyValue(t.p, copy, cell.c - c0) == AValue(t.p, t.Row0() + cell.r, gk + cell.c)
  {
    GuardReach(gk + c0, cell.c - c0, t.p.K);
  }

  lemma BCarries(t: Tile, cell: Cell, gk: int, gc: int, c0: int, copy: Copy)
    requires cell.of.OfB? && (gc + c0) % 8 == 0 && 0 <= cell.c - c0 < 8
    requires copy == Copy(Cell(OfB, cell.stage, cell.r, c0), gk, gc + c0, gk < t.p.K && gc + c0 < t.p.N)
    ensures InVector(copy, cell)
    ensures CopyValue(t.p, copy, cell.c - c0) == BValue(t.p, gk, gc + cell.c)
  {
    GuardReach(gc + c0, cell.c - c0, t.p.N);
  }

  lemma OwnerIssues(t: Tile, cell: Cell, k: int)
    requires IsCell(cell)
    ensures 0 <= Owner(cell) < THREADS
    ensures VectorOf(t, cell, k) in TileCopies(t, Owner(cell), cell.stage, TILE_K * k)
  {
    var v := VectorIndex(cell);
    assert v == Owner(cell) || (v == Owner(cell) + THREADS && cell.of.OfA?);
  }

  /** The vector of a cell covers it, is issued by its owner and carries its value. */
  lemma VectorCovers(t: Tile, cell: Cell, k: int)
    requires t.Valid() && IsCell(cell)
    ensures InVector(VectorOf(t, cell, k), cell)
    ensures CopyValue(t.p, VectorOf(t, cell, k), cell.c - VectorOf(t, cell, k).cell.c) == CellValue(t, cell, k)
  {
    var c0 := cell.c - cell.c % 8;
    VectorIs(t, cell, k, c0);
    if cell.of.OfA? {
      DivModIs(TILE_K * k + c0, 8, 4 * k + cell.c / 8, 0);
      ACarries(t, cell, TILE_K * k, c0, VectorOf(t, cell, k));
    } else {
      DivModIs(t.Col0() + c0, 8, 8 * t.n + cell.c / 8, 0);
      BCarries(t, cell, TILE_K * k + cell.r, t.Col0(), c0, VectorOf(t, cell, k));
    }
  }

  lemma VectorUnique(cell: Cell, v: int)
    requires IsCell(cell) && v >= 0
    requires var width := if cell.of.OfA? then TILE_K else TILE_N;
             cell.r == v * 8 / width && v * 8 % width <= cell.c < v * 8 % width + 8
    ensures v == VectorIndex(cell)
  {}

  /** Conversely a copy of a tile touches only cells of its issuer, and is their vector. */
  lemma CopyIsVector(t: Tile, tid: int, k: int, copy: Copy, cell: Cell)
    requires t.Valid() && 0 <= tid < THREADS && copy in CopiesOf(t, tid, k)
    requires IsCell(cell) && InVector(copy, cell)
    ensures Owner(cell) == tid && cell.stage == StageOf(k) && copy == VectorOf(t, cell, k)
  {
    hide ACopy, BCopy, VectorIndex, InVector, IsCell, StageOf;
    CopyMatrix(t, tid, StageOf(k), TILE_K * k, copy);
    assert (tid + THREADS) % THREADS == tid == tid % THREADS;
    if copy.cell.of.OfB? {
      BCopyOf(t, tid, StageOf(k), TILE_K * k, cell);
    } else if copy == ACopy(t, StageOf(k), TILE_K * k, tid) {
      ACopyOf(t, tid, StageOf(k), TILE_K * k, cell);
    } else {
      ACopyOf(t, tid + THREADS, StageOf(k), TILE_K * k, cell);
    }
  }

  lemma CopyMatrix(t: Tile, tid: int, stage: int, kOff: int, copy: Copy)
    requires copy in TileCopies(t, tid, stage, kOff)
    ensures copy.cell.of.OfB? ==> copy == BCopy(t, stage, kOff, tid)
    ensures copy.cell.of.OfA? ==> copy == ACopy(t, stage, kOff, tid) || copy == ACopy(t, stage, kOff, tid + THREADS)
  {}

  lemma ACopyOf(t: Tile, v: int, stage: int, kOff: int, cell: Cell)
    requires v >= 0 && IsCell(cell) && InVector(ACopy(t, stage, kOff, v), cell)
    ensures cell.of.OfA? && cell.stage == stage && v == VectorIndex(cell)
  {
    VectorUnique(cell, v);
  }

  lemma BCopyOf(t: Tile, v: int, stage: int, kOff: int, cell: Cell)
    requires v >= 0 && IsCell(cell) && InVector(BCopy(t, stage, kOff, v), cell)
    ensures cell.of.OfB? && cell.stage == stage && v == VectorIndex(cell)
  {
    VectorUnique(cell, v);
  }

  // ---------------------------------------------------------------- what the barriers give

  /** Nobody still has to read a tile older than the current one of any thread. */
  lemma UnreadIsRecent(t: Tile, b: Block, tid: int, v: int, k: int)
    requires t.Valid() && Control(t, b) && 0 <= tid < THREADS && 0 <= v < THREADS
    requires Unread(b.threads[v], k)
    ensures k >= b.threads[tid].it
  {
    assert InStep(b.threads[tid], b.threads[v]);
    assert ThreadOk(t, b.threads[tid], tid) && ThreadOk(t, b.threads[v], v);
  }

  /** While any thread multiplies, all of the block is in the same iteration and
      not one copy is in flight: the wait in front of the barrier is for all groups. */
  lemma NoCopyWhileMultiplying(t: Tile, b: Block, tid: int, u: int)
    requires t.Valid() && Control(t, b) && 0 <= tid < THREADS && 0 <= u < THREADS
    requires b.threads[tid].pc.MmaStep?
    ensures b.threads[u].inflight == {}
    ensures b.threads[u].it == b.threads[tid].it
    ensures b.threads[u].pc.Barrier1? || b.threads[u].pc.MmaStep? || b.threads[u].pc.Barrier2?
  {
    assert InStep(b.threads[u], b.threads[tid]) && InStep(b.threads[tid], b.threads[u]);
    assert ThreadOk(t, b.threads[tid], tid) && ThreadOk(t, b.threads[u], u) && InflightOk(t, b.threads[u], u);
  }

  /** Hence the stage a thread reads holds exactly the tile of its iteration. */
  lemma StageHoldsTile(t: Tile, b: Block, tid: int, cell: Cell)
    requires t.Valid() && Inv(t, b) && 0 <= tid < THREADS && b.threads[tid].pc.MmaStep?
    requires IsCell(cell) && cell.stage == b.threads[tid].readStage
    ensures b.inputs(cell) == Some(CellValue(t, cell, b.threads[tid].it))
  {
    var k := b.threads[tid].it;
    assert ThreadOk(t, b.threads[tid], tid);
    OwnerIssues(t, cell, k);
    NoCopyWhileMultiplying(t, b, tid, Owner(cell));
    assert Wanted(t, b, cell, k, tid);
  }

  /** Once a thread is past the loop nobody loads or multiplies any more, so the
      overlapping Cs can be written. */
  lemma NoReaderWhileStoring(t: Tile, b: Block, tid: int, u: int)
    requires t.Valid() && Control(t, b) && 0 <= tid < THREADS && 0 <= u < THREADS
    requires b.threads[tid].pc.StoreFrag? || Stored(b.threads[tid])
    ensures b.threads[u].inflight == {} && !b.threads[u].pc.MmaStep?
    ensures forall k | Unread(b.threads[u], k) :: TILE_K * k >= t.p.K
  {
    assert InStep(b.threads[u], b.threads[tid]) && InStep(b.threads[tid], b.threads[u]);
    assert ThreadOk(t, b.threads[tid], tid) && ThreadOk(t, b.threads[u], u) && InflightOk(t, b.threads[u], u);
  }

  /** A thread in the epilogue knows that every warp has stored all its sums. */
  lemma AllStoredInEpilogue(t: Tile, b: Block, tid: int, u: int)
    requires t.Valid() && Control(t, b) && 0 <= tid < THREADS && 0 <= u < THREADS
    requires b.threads[tid].pc.Epilogue? || b.threads[tid].pc.Done?
    ensures Stored(b.threads[u]) && b.threads[u].k0 >= t.p.K
  {
    assert InStep(b.threads[u], b.threads[tid]) && InStep(b.threads[tid], b.threads[u]);
    assert ThreadOk(t, b.threads[tid], tid) && ThreadOk(t, b.threads[u], u);
  }
}
