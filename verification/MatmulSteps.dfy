/** Every step of every thread keeps the pipeline invariant. */
module MatmulSteps {
  import opened Wrappers
  import opened MatmulSpec
  import opened MatmulBlock
  import opened MatmulPipeline

  // ---------------------------------------------------------------- a thread's own step

  lemma RunThread(t: Tile, b: Block, tid: int, junk: int)
    requires t.Valid() && Control(t, b) && Enabled(b, Run(tid, junk))
    ensures ThreadOk(t, Stepped(t, b.threads[tid], tid), tid)
  {
    assert ThreadOk(t, b.threads[tid], tid);
  }

  lemma RunInflight(t: Tile, b: Block, tid: int, junk: int)
    requires t.Valid() && Control(t, b) && Enabled(b, Run(tid, junk))
    ensures InflightOk(t, Stepped(t, b.threads[tid], tid), tid)
  {
    hide TileCopies, BarrierOk, MayPass;
    var th := b.threads[tid];
    assert ThreadOk(t, th, tid) && InflightOk(t, th, tid);
    if th.pc.LoopHead? && th.k0 + TILE_K < t.p.K {
      assert th.k0 + TILE_K == TILE_K * (th.it + 1) && th.writeStage == StageOf(th.it + 1);
    }
  }

  lemma RunBarrier(t: Tile, b: Block, tid: int, junk: int)
    requires t.Valid() && Control(t, b) && Enabled(b, Run(tid, junk))
    ensures BarrierOk(Next(t, b, Run(tid, junk)).threads)
  {
    var threads := Next(t, b, Run(tid, junk)).threads;
    forall u, v | 0 <= u < THREADS && 0 <= v < THREADS ensures InStep(threads[u], threads[v]) {
      assert InStep(b.threads[u], b.threads[v]);
    }
  }

  /** A wanted cell was wanted before the step, or has just been issued. */
  lemma RunLoad(t: Tile, b: Block, tid: int, junk: int, cell: Cell, k: int, v: int)
    requires t.Valid() && Inv(t, b) && Enabled(b, Run(tid, junk))
    requires Wanted(t, Next(t, b, Run(tid, junk)), cell, k, v)
    ensures CellOk(t, Next(t, b, Run(tid, junk)), cell, k)
  {
    StepIssues(t, b.threads[tid], tid, k);
    OwnerIssues(t, cell, k);
    assert Unread(b.threads[v], k);
    if Owner(cell) != tid || Issued(t, b.threads[tid], k) {
      assert Wanted(t, b, cell, k, v);
    }
  }

  /** A step loses no copy, and a tile that counts as issued after it has all its copies in flight. */
  lemma StepIssues(t: Tile, th: Thread, tid: int, k: int)
    requires t.Valid() && ThreadOk(t, th, tid) && InflightOk(t, th, tid)
    ensures th.inflight <= Stepped(t, th, tid).inflight
    ensures Issued(t, Stepped(t, th, tid), k) && !Issued(t, th, k) ==>
              CopiesOf(t, tid, k) <= Stepped(t, th, tid).inflight
  {
    if th.pc.LoopHead? && th.k0 + TILE_K < t.p.K {
      assert th.k0 + TILE_K == TILE_K * (th.it + 1) && th.writeStage == StageOf(th.it + 1);
    }
  }

  lemma RunInv(t: Tile, b: Block, tid: int, junk: int)
    requires t.Valid() && Inv(t, b) && Enabled(b, Run(tid, junk))
    ensures Inv(t, Next(t, b, Run(tid, junk)))
  {
    var b' := Next(t, b, Run(tid, junk));
    RunThread(t, b, tid, junk);
    RunInflight(t, b, tid, junk);
    RunBarrier(t, b, tid, junk);
    forall cell, k, v | Wanted(t, b', cell, k, v) ensures CellOk(t, b', cell, k) {
      RunLoad(t, b, tid, junk, cell, k, v);
    }
    RunSums(t, b, tid, junk);
  }

  lemma RunSums(t: Tile, b: Block, tid: int, junk: int)
    requires t.Valid() && Inv(t, b) && Enabled(b, Run(tid, junk))
    ensures SumsOk(t, Next(t, b, Run(tid, junk))) && OutputsOk(Next(t, b, Run(tid, junk)))
  {
    var b' := Next(t, b, Run(tid, junk));
    assert Consumed(Stepped(t, b.threads[tid], tid)) == Consumed(b.threads[tid]);
    assert Stored(Stepped(t, b.threads[tid], tid)) == Stored(b.threads[tid]);
    SumsKept(t, b, b');
  }

  /** A step that multiplies nothing keeps the sums. */
  lemma SumsKept(t: Tile, b: Block, b': Block)
    requires |b.threads| == THREADS && |b'.threads| == THREADS && SumsOk(t, b) && b'.acc == b.acc
    requires forall u | 0 <= u < THREADS :: Consumed(b'.threads[u]) == Consumed(b.threads[u])
    ensures SumsOk(t, b')
  {
    forall e | IsElement(e) ensures SumOk(t, b', e) {
      assert SumOk(t, b, e);
    }
  }

  // ---------------------------------------------------------------- a copy lands

  lemma LandLoad(t: Tile, b: Block, tid: int, copy: Copy, cell: Cell, k: int, v: int)
    requires t.Valid() && Inv(t, b) && Enabled(b, Land(tid, copy))
    requires Wanted(t, b, cell, k, v)
    ensures CellOk(t, Landed(t.p, b, tid, copy), cell, k)
  {
    assert CellOk(t, b, cell, k);
    VectorCovers(t, cell, k);
    if InVector(copy, cell) {
      LandsInPlace(t, b, tid, copy, cell, k, v);
    }
  }

  /** A copy that touches a wanted cell is the one that brings its value. */
  lemma LandsInPlace(t: Tile, b: Block, tid: int, copy: Copy, cell: Cell, k: int, v: int)
    requires t.Valid() && Control(t, b) && Enabled(b, Land(tid, copy))
    requires Wanted(t, b, cell, k, v) && InVector(copy, cell)
    ensures copy == VectorOf(t, cell, k)
  {
    hide VectorOf, CopiesOf, InVector, Owner, BarrierOk;
    var th := b.threads[tid];
    assert InflightOk(t, th, tid);
    var issued := if copy in CopiesOf(t, tid, th.it) then th.it else th.it + 1;
    CopyIsVector(t, tid, issued, copy, cell);
    UnreadIsRecent(t, b, tid, v, k);
    assert issued == k;
  }

  lemma LandInv(t: Tile, b: Block, tid: int, copy: Copy)
    requires t.Valid() && Inv(t, b) && Enabled(b, Land(tid, copy))
    ensures Inv(t, Next(t, b, Land(tid, copy)))
  {
    var b' := Next(t, b, Land(tid, copy));
    forall u | 0 <= u < THREADS ensures ThreadOk(t, b'.threads[u], u) && InflightOk(t, b'.threads[u], u) {
      assert ThreadOk(t, b.threads[u], u) && InflightOk(t, b.threads[u], u);
    }
    forall u, v | 0 <= u < THREADS && 0 <= v < THREADS ensures InStep(b'.threads[u], b'.threads[v]) {
      assert InStep(b.threads[u], b.threads[v]);
    }
    forall cell, k, v | Wanted(t, b', cell, k, v) ensures CellOk(t, b', cell, k) {
      assert Wanted(t, b, cell, k, v);
      LandLoad(t, b, tid, copy, cell, k, v);
    }
    forall u | 0 <= u < THREADS ensures !Stored(b'.threads[u]) {
      if Stored(b.threads[u]) {
        NoReaderWhileStoring(t, b, u, tid);
      }
    }
    SumsKept(t, b, b');
  }

  // ---------------------------------------------------------------- the multiply phase

  /** The stage holds tile k, complete. */
  ghost predicate TileIn(t: Tile, b: Block, stage: int, k: int) {
    forall cell | IsCell(cell) && cell.stage == stage :: b.inputs(cell) == Some(CellValue(t, cell, k))
  }

  lemma ReadPair(t: Tile, b: Block, stage: int, k: int, row: int, col: int, n: int)
    requires TileIn(t, b, stage, k) && (stage == 0 || stage == 1)
    requires 0 <= row < TILE_M && 0 <= col < TILE_N && 0 <= n < TILE_K
    ensures b.inputs(Cell(OfA, stage, row, n)) == Some(AValue(t.p, t.Row0() + row, TILE_K * k + n))
    ensures b.inputs(Cell(OfB, stage, n, col)) == Some(BValue(t.p, TILE_K * k + n, t.Col0() + col))
  {
    assert IsCell(Cell(OfA, stage, row, n)) && IsCell(Cell(OfB, stage, n, col));
  }

  lemma MmaStepOnce(t: Tile, b: Block, stage: int, row: int, col: int, k: int, lo: int, hi: int, junk: Cell -> int)
    requires TileIn(t, b, stage, k) && (stage == 0 || stage == 1) && k >= 0
    requires 0 <= row < TILE_M && 0 <= col < TILE_N && 0 <= lo < hi <= TILE_K
    ensures MmaSum(t.p, b, stage, row, col, lo, hi, junk) - MmaSum(t.p, b, stage, row, col, lo, hi - 1, junk)
            == TileSum(t, row, col, TILE_K * k + hi) - TileSum(t, row, col, TILE_K * k + (hi - 1))
  {
    ReadPair(t, b, stage, k, row, col, hi - 1);
  }

  /** From a complete stage, a fragment step adds the products of the columns it covers. */
  lemma {:induction false} MmaAdds(t: Tile, b: Block, stage: int, row: int, col: int, k: int, lo: int, hi: int,
                                   junk: Cell -> int)
    requires TileIn(t, b, stage, k) && (stage == 0 || stage == 1) && k >= 0
    requires 0 <= row < TILE_M && 0 <= col < TILE_N && 0 <= lo <= hi <= TILE_K
    ensures TileSum(t, row, col, TILE_K * k + lo) + MmaSum(t.p, b, stage, row, col, lo, hi, junk)
            == TileSum(t, row, col, TILE_K * k + hi)
    decreases hi
  {
    hide TileSum;
    if lo < hi {
      MmaAdds(t, b, stage, row, col, k, lo, hi - 1, junk);
      MmaStepOnce(t, b, stage, row, col, k, lo, hi, junk);
    }
  }

  lemma MmaThreads(t: Tile, b: Block, warp: int, junk: Cell -> int)
    requires t.Valid() && Control(t, b) && Enabled(b, Mma(warp, junk))
    ensures ThreadsOk(t, Next(t, b, Mma(warp, junk))) && BarrierOk(Next(t, b, Mma(warp, junk)).threads)
  {
    var b' := Next(t, b, Mma(warp, junk));
    forall u | 0 <= u < THREADS ensures ThreadOk(t, b'.threads[u], u) && InflightOk(t, b'.threads[u], u) {
      assert ThreadOk(t, b.threads[u], u) && InflightOk(t, b.threads[u], u);
      NoCopyWhileMultiplying(t, b, 32 * warp, u);
    }
    forall u, v | 0 <= u < THREADS && 0 <= v < THREADS ensures InStep(b'.threads[u], b'.threads[v]) {
      assert InStep(b.threads[u], b.threads[v]);
    }
  }

  lemma MmaInv(t: Tile, b: Block, warp: int, junk: Cell -> int)
    requires t.Valid() && Inv(t, b) && Enabled(b, Mma(warp, junk))
    ensures Inv(t, Next(t, b, Mma(warp, junk)))
  {
    var b' := Next(t, b, Mma(warp, junk));
    MmaThreads(t, b, warp, junk);
    forall cell, k, v | Wanted(t, b', cell, k, v) ensures CellOk(t, b', cell, k) {
      assert Wanted(t, b, cell, k, v);
    }
    forall e | IsElement(e) ensures SumOk(t, b', e) {
      assert SumOk(t, b, e);
      if WarpOf(e) == warp {
        WarpSum(t, b, warp, junk, e);
      }
    }
  }

  lemma StageComplete(t: Tile, b: Block, tid: int)
    requires t.Valid() && Inv(t, b) && 0 <= tid < THREADS && b.threads[tid].pc.MmaStep?
    ensures TileIn(t, b, b.threads[tid].readStage, b.threads[tid].it)
  {
    var lead := b.threads[tid];
    forall cell | IsCell(cell) && cell.stage == lead.readStage
      ensures b.inputs(cell) == Some(CellValue(t, cell, lead.it))
    {
      StageHoldsTile(t, b, tid, cell);
    }
  }

  lemma WarpSum(t: Tile, b: Block, warp: int, junk: Cell -> int, e: Element)
    requires t.Valid() && Inv(t, b) && Enabled(b, Mma(warp, junk)) && IsElement(e) && WarpOf(e) == warp
    ensures SumOk(t, AfterMma(t.p, b, warp, junk), e)
  {
    var lead := b.threads[32 * warp];
    assert ThreadOk(t, lead, 32 * warp) && SumOk(t, b, e);
    StageComplete(t, b, 32 * warp);
    WarpAfter(t, b, warp, junk, e);
    SumAfter(t, b, lead, AfterMma(t.p, b, warp, junk), junk, e);
  }

  lemma WarpAfter(t: Tile, b: Block, warp: int, junk: Cell -> int, e: Element)
    requires |b.threads| == THREADS && Enabled(b, Mma(warp, junk)) && IsElement(e) && WarpOf(e) == warp
    requires b.threads[32 * warp].pc.kStep == 0 || b.threads[32 * warp].pc.kStep == WMMA_K
    ensures Consumed(AfterMma(t.p, b, warp, junk).threads[Leader(e)]) == Consumed(b.threads[32 * warp]) + WMMA_K
    ensures AfterMma(t.p, b, warp, junk).acc(e) == Accumulate(t.p, b, b.threads[32 * warp], e, junk)
  {}

  lemma ElementInTile(e: Element)
    requires IsElement(e)
    ensures 0 <= RowOf(e) < TILE_M && 0 <= ColOf(e) < TILE_N
  {}

  lemma SumAfter(t: Tile, b: Block, lead: Thread, b': Block, junk: Cell -> int, e: Element)
    requires |b.threads| == THREADS && |b'.threads| == THREADS && IsElement(e) && SumOk(t, b, e)
    requires lead == b.threads[Leader(e)] && lead.pc.MmaStep? && lead.it >= 0 && lead.k0 == TILE_K * lead.it
    requires 0 <= lead.pc.kStep <= TILE_K - WMMA_K
    requires TileIn(t, b, lead.readStage, lead.it) && (lead.readStage == 0 || lead.readStage == 1)
    requires Consumed(b'.threads[Leader(e)]) == Consumed(lead) + WMMA_K && b'.acc(e) == Accumulate(t.p, b, lead, e, junk)
    ensures SumOk(t, b', e)
  {
    hide TileSum, MmaSum, TileIn, RowOf, ColOf, Leader, IsElement;
    ElementInTile(e);
    MmaAdds(t, b, lead.readStage, RowOf(e), ColOf(e), lead.it, lead.pc.kStep, lead.pc.kStep + WMMA_K, junk);
  }

  // ---------------------------------------------------------------- the fragments are stored

  lemma StoreInv(t: Tile, b: Block, warp: int)
    requires t.Valid() && Inv(t, b) && Enabled(b, Store(warp))
    ensures Inv(t, Next(t, b, Store(warp)))
  {
    var b' := Next(t, b, Store(warp));
    assert InWarp(32 * warp, warp);
    forall u | 0 <= u < THREADS ensures ThreadOk(t, b'.threads[u], u) && InflightOk(t, b'.threads[u], u) {
      assert ThreadOk(t, b.threads[u], u) && InflightOk(t, b.threads[u], u);
    }
    forall u, v | 0 <= u < THREADS && 0 <= v < THREADS ensures InStep(b'.threads[u], b'.threads[v]) {
      assert InStep(b.threads[u], b.threads[v]);
    }
    forall cell, k, v ensures !Wanted(t, b', cell, k, v) {
      if Wanted(t, b', cell, k, v) {
        NoReaderWhileStoring(t, b, 32 * warp, v);
      }
    }
    SumsKept(t, b, b');
  }

  /** The invariant holds in every reachable state of a block. */
  lemma StepInv(t: Tile, b: Block, choice: Choice)
    requires t.Valid() && Inv(t, b) && Enabled(b, choice)
    ensures Inv(t, Next(t, b, choice))
  {
    match choice
    case Run(tid, junk) => RunInv(t, b, tid, junk);
    case Land(tid, copy) => LandInv(t, b, tid, copy);
    case Mma(warp, rubbish) => MmaInv(t, b, warp, rubbish);
    case Store(warp) => StoreInv(t, b, warp);
  }
}
