/** One thread block of the matrix-product kernel as a state machine over its 256 threads.

    Any thread may take its next step at any time; an asynchronous copy lands at any time
    between its issue and the end of its issuer's wait; a barrier lets a thread through once
    every thread of the block has arrived at it; the warp-wide fragment operations run when
    the 32 lanes of the warp have converged on them. */
module MatmulBlock {
  import opened Wrappers
  import opened MatmulSpec

  const TILE_M := 128
  const TILE_N := 64
  const TILE_K := 32
  const WMMA_K := 16
  const THREADS := 256
  const C_ELEMS := 8192

  /** The tile of C a block works on, by its position (final_block_m, final_block_n). */
  datatype Tile = Tile(p: Problem, m: int, n: int) {
    ghost predicate Valid() { p.Valid() && m >= 0 && n >= 0 }

    function Row0(): int { TILE_M * m }

    function Col0(): int { TILE_N * n }
  }

  datatype Matrix = OfA | OfB

  /** As[stage][r][c] or Bs[stage][r][c]. */
  datatype Cell = Cell(of: Matrix, stage: int, r: int, c: int)

  /** A 16-byte copy of 8 elements: destination and source of the first, and the guard. */
  datatype Copy = Copy(cell: Cell, gr: int, gc: int, valid: bool)

  /** Element (x, y) of c_frag[i][j] of warp (warp_m, warp_n). */
  datatype Element = Element(wm: int, wn: int, i: int, j: int, x: int, y: int)

  datatype Pc =
    | Prologue | LoopHead | WaitGroup | Barrier1 | MmaStep(kStep: int) | Barrier2
    | StoreFrag | Barrier3 | Epilogue(i: int) | Done

  /** The registers of a thread; `it` counts its finished iterations of the k0 loop and
      `passed` the barriers it has left. */
  datatype Thread = Thread(pc: Pc, k0: int, it: int, readStage: int, writeStage: int, passed: int, inflight: set<Copy>)

  /** The union in shared memory keeps one member at a time: a write to one member leaves
      every cell of the other undefined. */
  datatype Block = Block(threads: seq<Thread>, inputs: Cell -> Option<int>,
                         outputs: (int, int) -> Option<int>, acc: Element -> int)

  type Memory = int -> int

  // ---------------------------------------------------------------- tile loading

  function ACopy(t: Tile, stage: int, kOff: int, i: int): Copy {
    var r, c := i * 8 / TILE_K, i * 8 % TILE_K;
    Copy(Cell(OfA, stage, r, c), t.Row0() + r, kOff + c, t.Row0() + r < t.p.M && kOff + c < t.p.K)
  }

  function BCopy(t: Tile, stage: int, kOff: int, i: int): Copy {
    var r, c := i * 8 / TILE_N, i * 8 % TILE_N;
    Copy(Cell(OfB, stage, r, c), kOff + r, t.Col0() + c, kOff + r < t.p.K && t.Col0() + c < t.p.N)
  }

  /** The copies thread tid issues for the tile at kOff. */
  function TileCopies(t: Tile, tid: int, stage: int, kOff: int): set<Copy> {
    {ACopy(t, stage, kOff, tid), ACopy(t, stage, kOff, tid + THREADS), BCopy(t, stage, kOff, tid)}
  }

  /** The strided loops of load_tile_async issue exactly those, A first, as one group of copies. */
  method LoadTileAsync(t: Tile, tid: int, stage: int, kOff: int) returns (issued: seq<Copy>)
    requires 0 <= tid < THREADS
    ensures issued == [ACopy(t, stage, kOff, tid), ACopy(t, stage, kOff, tid + THREADS), BCopy(t, stage, kOff, tid)]
    ensures TileCopies(t, tid, stage, kOff) == set copy | copy in issued
  {
    issued := [];
    var i := tid;
    while i < TILE_M * TILE_K / 8
      invariant i == tid + THREADS * |issued| && |issued| <= 2
      invariant |issued| > 0 ==> issued[0] == ACopy(t, stage, kOff, tid)
      invariant |issued| > 1 ==> issued[1] == ACopy(t, stage, kOff, tid + THREADS)
    {
      issued := issued + [ACopy(t, stage, kOff, i)];
      i := i + THREADS;
    }
    i := tid;
    while i < TILE_K * TILE_N / 8
      invariant (i == tid && |issued| == 2) || (i == tid + THREADS && |issued| == 3)
      invariant issued[0] == ACopy(t, stage, kOff, tid) && issued[1] == ACopy(t, stage, kOff, tid + THREADS)
      invariant |issued| > 2 ==> issued[2] == BCopy(t, stage, kOff, tid)
    {
      issued := issued + [BCopy(t, stage, kOff, i)];
      i := i + THREADS;
    }
  }

  function CopyValue(p: Problem, copy: Copy, n: int): int {
    if !copy.valid then 0 else if copy.cell.of.OfA? then p.A(copy.gr, copy.gc + n) else p.B(copy.gr, copy.gc + n)
  }

  predicate InVector(copy: Copy, cell: Cell) {
    cell.of == copy.cell.of && cell.stage == copy.cell.stage && cell.r == copy.cell.r
    && copy.cell.c <= cell.c < copy.cell.c + 8
  }

  /** The copy reaches shared memory: 8 cells of the inputs, and no output survives. */
  function Landed(p: Problem, b: Block, tid: int, copy: Copy): Block
    requires 0 <= tid < |b.threads|
  {
    b.(threads := b.threads[tid := b.threads[tid].(inflight := b.threads[tid].inflight - {copy})],
       inputs := (cell: Cell) => if InVector(copy, cell) then Some(CopyValue(p, copy, cell.c - copy.cell.c)) else b.inputs(cell),
       outputs := (r, c) => None)
  }

  // ---------------------------------------------------------------- fragments

  function RowOf(e: Element): int { e.wm * 32 + e.i * 16 + e.x }

  function ColOf(e: Element): int { e.wn * 32 + e.j * 16 + e.y }

  /** warp_id, of which warp_m and warp_n are the quotient and the remainder by WARPS_N. */
  function WarpOf(e: Element): int { e.wm * 2 + e.wn }

  predicate IsElement(e: Element) {
    0 <= e.wm < 4 && 0 <= e.wn < 2 && 0 <= e.i < 2 && 0 <= e.j < 2 && 0 <= e.x < 16 && 0 <= e.y < 16
  }

  /** The element of the accumulators that holds position (r, c) of the tile. */
  function ElementAt(r: int, c: int): (e: Element)
    requires 0 <= r < TILE_M && 0 <= c < TILE_N
    ensures IsElement(e) && RowOf(e) == r && ColOf(e) == c
  {
    Element(r / 32, c / 32, r % 32 / 16, c % 32 / 16, r % 32 % 16, c % 32 % 16)
  }

  function Read(value: Option<int>, junk: int): int { if value.Some? then value.value else junk }

  /** Inner product of columns lo..hi of As with rows lo..hi of Bs; an undefined cell reads as junk. */
  function MmaSum(p: Problem, b: Block, stage: int, row: int, col: int, lo: int, hi: int, junk: Cell -> int): int
    requires lo <= hi
    decreases hi - lo
  {
    if lo == hi then 0
    else
      var ca, cb := Cell(OfA, stage, row, hi - 1), Cell(OfB, stage, hi - 1, col);
      MmaSum(p, b, stage, row, col, lo, hi - 1, junk)
      + p.times(Read(b.inputs(ca), junk(ca)), Read(b.inputs(cb), junk(cb)))
  }

  predicate InWarp(tid: int, warp: int) { 32 * warp <= tid < 32 * warp + 32 }

  /** The exact 16x16x16 multiply-accumulate, for one element of a fragment. */
  function Accumulate(p: Problem, b: Block, lead: Thread, e: Element, junk: Cell -> int): int
    requires lead.pc.MmaStep?
  {
    b.acc(e) + MmaSum(p, b, lead.readStage, RowOf(e), ColOf(e), lead.pc.kStep, lead.pc.kStep + WMMA_K, junk)
  }

  /** One k step of a warp, on all four of its fragments. */
  function AfterMma(p: Problem, b: Block, warp: int, junk: Cell -> int): Block
    requires |b.threads| == THREADS && 0 <= warp < 8 && b.threads[32 * warp].pc.MmaStep?
  {
    var lead := b.threads[32 * warp];
    var next := if lead.pc.kStep + WMMA_K < TILE_K then MmaStep(lead.pc.kStep + WMMA_K) else Barrier2;
    b.(threads := seq(THREADS, tid requires 0 <= tid < THREADS =>
                        if InWarp(tid, warp) then b.threads[tid].(pc := next) else b.threads[tid]),
       acc := (e: Element) => if WarpOf(e) == warp then Accumulate(p, b, lead, e, junk) else b.acc(e))
  }

  predicate WarpCovers(warp: int, r: int, c: int) {
    0 <= r < TILE_M && 0 <= c < TILE_N && WarpOf(ElementAt(r, c)) == warp
  }

  /** The warp stores its fragments to Cs, which ends the life of As and Bs. */
  function AfterStore(b: Block, warp: int): Block
    requires |b.threads| == THREADS
  {
    b.(threads := seq(THREADS, tid requires 0 <= tid < THREADS =>
                        if InWarp(tid, warp) then b.threads[tid].(pc := Barrier3) else b.threads[tid]),
       inputs := cell => None,
       outputs := (r, c) => if WarpCovers(warp, r, c) then Some(b.acc(ElementAt(r, c))) else b.outputs(r, c))
  }

  // ---------------------------------------------------------------- steps

  datatype Choice =
    | Run(tid: int, junk: int)
    | Land(tid: int, copy: Copy)
    | Mma(warp: int, rubbish: Cell -> int)
    | Store(warp: int)

  predicate Arrived(th: Thread) { th.pc.Barrier1? || th.pc.Barrier2? || th.pc.Barrier3? }

  /** A thread leaves a barrier when each thread of the block has arrived at it or left it. */
  predicate MayPass(b: Block, tid: int)
    requires 0 <= tid < |b.threads|
  {
    forall u :: 0 <= u < |b.threads| ==>
      b.threads[u].passed > b.threads[tid].passed
      || (b.threads[u].passed == b.threads[tid].passed && Arrived(b.threads[u]))
  }

  predicate Enabled(b: Block, choice: Choice)
    requires |b.threads| == THREADS
  {
    match choice
    case Run(tid, _) =>
      0 <= tid < THREADS &&
      var th := b.threads[tid];
      th.pc.Prologue? || th.pc.LoopHead? || th.pc.Epilogue? || (th.pc.WaitGroup? && th.inflight == {})
      || (Arrived(th) && MayPass(b, tid))
    case Land(tid, copy) => 0 <= tid < THREADS && copy in b.threads[tid].inflight
    case Mma(warp, _) =>
      0 <= warp < 8 && b.threads[32 * warp].pc.MmaStep?
      && forall tid :: 0 <= tid < THREADS && InWarp(tid, warp) ==> b.threads[tid].pc == b.threads[32 * warp].pc
    case Store(warp) =>
      0 <= warp < 8 && forall tid :: 0 <= tid < THREADS && InWarp(tid, warp) ==> b.threads[tid].pc.StoreFrag?
  }

  /** What a step of one thread does to its registers. */
  function Stepped(t: Tile, th: Thread, tid: int): Thread {
    match th.pc
    case Prologue =>
      th.(pc := LoopHead, inflight := TileCopies(t, tid, th.writeStage, 0), writeStage := 1 - th.writeStage)
    case LoopHead =>
      if th.k0 >= t.p.K then th.(pc := StoreFrag)
      else if th.k0 + TILE_K < t.p.K then
        th.(pc := WaitGroup, inflight := th.inflight + TileCopies(t, tid, th.writeStage, th.k0 + TILE_K))
      else th.(pc := WaitGroup)
    case WaitGroup => th.(pc := Barrier1)
    case Barrier1 => th.(pc := MmaStep(0), passed := th.passed + 1)
    case Barrier2 =>
      th.(pc := LoopHead, passed := th.passed + 1, k0 := th.k0 + TILE_K, it := th.it + 1,
          readStage := 1 - th.readStage, writeStage := 1 - th.writeStage)
    case Barrier3 => th.(pc := Epilogue(tid), passed := th.passed + 1)
    case Epilogue(i) => if i < C_ELEMS then th.(pc := Epilogue(i + THREADS)) else th.(pc := Done)
    case _ => th
  }

  predicate InRange(t: Tile, i: int) { t.Row0() + i / TILE_N < t.p.M && t.Col0() + i % TILE_N < t.p.N }

  function Address(t: Tile, i: int): int { (t.Row0() + i / TILE_N) * t.p.N + (t.Col0() + i % TILE_N) }

  function Next(t: Tile, b: Block, choice: Choice): Block
    requires |b.threads| == THREADS && Enabled(b, choice)
  {
    match choice
    case Run(tid, _) => b.(threads := b.threads[tid := Stepped(t, b.threads[tid], tid)])
    case Land(tid, copy) => Landed(t.p, b, tid, copy)
    case Mma(warp, rubbish) => AfterMma(t.p, b, warp, rubbish)
    case Store(warp) => AfterStore(b, warp)
  }

  /** Global memory C changes only in a step of the epilogue that passes the guard. */
  function NextMemory(t: Tile, b: Block, choice: Choice, C: Memory): Memory
    requires |b.threads| == THREADS && Enabled(b, choice)
  {
    if choice.Run? && b.threads[choice.tid].pc.Epilogue? then
      var i := b.threads[choice.tid].pc.i;
      if i < C_ELEMS && InRange(t, i) then
        a => if a == Address(t, i) then Read(b.outputs(i / TILE_N, i % TILE_N), choice.junk) else C(a)
      else C
    else C
  }

  /** At launch the shared memory holds anything, the accumulators are zero. */
  predicate Init(b: Block) {
    |b.threads| == THREADS
    && forall tid :: 0 <= tid < THREADS ==> b.threads[tid] == Thread(Prologue, 0, 0, 0, 0, 0, {})
  }

  ghost predicate ZeroFragments(b: Block) { forall e :: IsElement(e) ==> b.acc(e) == 0 }

  predicate Terminal(b: Block) {
    forall tid :: 0 <= tid < |b.threads| ==> b.threads[tid].pc.Done?
  }
}
