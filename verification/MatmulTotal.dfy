/** The launch as a whole always comes to its end: whatever the interleaving of blocks, threads and
    landing copies, only so many steps are possible, and while a thread is not done one of them is. */
module MatmulTotal {
  import opened MatmulSpec
  import opened MatmulBlock
  import opened MatmulPipeline
  import opened MatmulSteps
  import opened MatmulGrid
  import opened MatmulLive

  ghost predicate BlockReady(p: Problem, n: BlockIdx, b: Block)
    requires p.Valid()
  {
    Launched(p, n) && Inv(TileFor(p, n), b) && Converged(b)
  }

  ghost predicate GridReady(p: Problem, g: Grid)
    requires p.Valid()
  {
    forall n | n in g.blocks :: BlockReady(p, n, g.blocks[n])
  }

  ghost function BlockRank(p: Problem, n: BlockIdx, b: Block): int
    requires p.Valid()
  {
    if Launched(p, n) then TotalRank(TileFor(p, n), b.threads) else 0
  }

  /** A bound on the steps still possible, over the blocks in s. */
  ghost function GridRank(p: Problem, blocks: map<BlockIdx, Block>, s: set<BlockIdx>): int
    requires p.Valid() && s <= blocks.Keys
    decreases |s|
  {
    if s == {} then 0
    else
      var n :| n in s;
      BlockRank(p, n, blocks[n]) + GridRank(p, blocks, s - {n})
  }

  lemma {:induction false} GridRankSplits(p: Problem, blocks: map<BlockIdx, Block>, s: set<BlockIdx>, n: BlockIdx)
    requires p.Valid() && s <= blocks.Keys && n in s
    ensures GridRank(p, blocks, s) == BlockRank(p, n, blocks[n]) + GridRank(p, blocks, s - {n})
    decreases |s|
  {
    hide BlockRank;
    var m :| m in s && GridRank(p, blocks, s) == BlockRank(p, m, blocks[m]) + GridRank(p, blocks, s - {m});
    if m != n {
      GridRankSplits(p, blocks, s - {m}, n);
      GridRankSplits(p, blocks, s - {n}, m);
      assert s - {m} - {n} == s - {n} - {m};
    }
  }

  lemma {:induction false} GridRankSame(p: Problem, blocks: map<BlockIdx, Block>, blocks': map<BlockIdx, Block>, s: set<BlockIdx>)
    requires p.Valid() && s <= blocks.Keys && s <= blocks'.Keys
    requires forall n | n in s :: blocks'[n] == blocks[n]
    ensures GridRank(p, blocks', s) == GridRank(p, blocks, s)
    decreases |s|
  {
    hide BlockRank;
    if s != {} {
      var n :| n in s;
      GridRankSplits(p, blocks, s, n);
      GridRankSplits(p, blocks', s, n);
      GridRankSame(p, blocks, blocks', s - {n});
    }
  }

  lemma {:induction false} GridRankNonNegative(p: Problem, blocks: map<BlockIdx, Block>, s: set<BlockIdx>)
    requires p.Valid() && s <= blocks.Keys
    requires forall n | n in s :: BlockRank(p, n, blocks[n]) >= 0
    ensures GridRank(p, blocks, s) >= 0
    decreases |s|
  {
    hide BlockRank;
    if s != {} {
      var n :| n in s;
      GridRankSplits(p, blocks, s, n);
      GridRankNonNegative(p, blocks, s - {n});
    }
  }

  lemma BlockRankNonNegative(p: Problem, n: BlockIdx, b: Block)
    requires p.Valid() && BlockReady(p, n, b)
    ensures BlockRank(p, n, b) >= 0
  {
    hide TotalRank;
    var t := TileFor(p, n);
    forall u | 0 <= u < THREADS ensures Rank(t, b.threads[u]) >= 0 {
      assert ThreadOk(t, b.threads[u], u);
      RankNonNegative(t, b.threads[u], u);
    }
    TotalNonNegative(t, b.threads);
  }

  lemma MoveLowers(p: Problem, g: Grid, move: Move)
    requires p.Valid() && GridReady(p, g) && GridEnabled(p, g, move)
    ensures var g' := GridNext(p, g, move);
            GridReady(p, g') && g'.blocks.Keys == g.blocks.Keys
            && GridRank(p, g'.blocks, g'.blocks.Keys) < GridRank(p, g.blocks, g.blocks.Keys)
  {
    hide Inv, Converged, Enabled, TotalRank, GridRank, Next, NextMemory;
    var n, t, b, blocks := move.n, TileFor(p, move.n), g.blocks[move.n], g.blocks;
    assert BlockReady(p, n, b);
    StepInv(t, b, move.choice);
    StepConverged(t, b, move.choice);
    InvControls(t, b);
    StepDrops(t, b, move.choice);
    var blocks' := GridNext(p, g, move).blocks;
    GridRankSplits(p, blocks, blocks.Keys, n);
    GridRankSplits(p, blocks', blocks'.Keys, n);
    GridRankSame(p, blocks, blocks', blocks.Keys - {n});
    assert blocks'.Keys == blocks.Keys;
  }

  lemma InvControls(t: Tile, b: Block)
    requires t.Valid() && Inv(t, b)
    ensures Control(t, b)
  {}

  /** Every run of a launch is finite, and where all blocks are defined, a run that has not brought every
      block to its end can go on. */
  lemma {:induction false} LaunchEnds(p: Problem, g: Grid, moves: seq<Move>, g': Grid)
    requires p.Valid() && GridReady(p, g) && Reaches(p, g, moves, g')
    ensures |moves| <= GridRank(p, g.blocks, g.blocks.Keys)
    ensures (forall n | Launched(p, n) :: Defined(p, n)) ==>
              (forall n | n in g'.blocks :: Terminal(g'.blocks[n])) || exists move: Move :: GridEnabled(p, g', move)
    decreases |moves|
  {
    hide Inv, Converged, Enabled, TotalRank, GridRank, Terminal, GridNext, Defined;
    if moves == [] {
      forall n | n in g.blocks ensures BlockRank(p, n, g.blocks[n]) >= 0 {
        BlockRankNonNegative(p, n, g.blocks[n]);
      }
      GridRankNonNegative(p, g.blocks, g.blocks.Keys);
      if n :| n in g.blocks && !Terminal(g.blocks[n]) && Defined(p, n) {
        var choice := Progress(TileFor(p, n), g.blocks[n]);
        var move := Move(n, choice);
        InvControls(TileFor(p, n), g.blocks[n]);
        assert GridEnabled(p, g, move);
      }
    } else {
      DefinedIsLaunched(p, moves[0].n);
      MoveLowers(p, g, moves[0]);
      LaunchEnds(p, GridNext(p, g, moves[0]), moves[1..], g');
    }
  }

  lemma LaunchReady(p: Problem, g: Grid)
    requires p.Valid() && GridInit(p, g)
    ensures GridReady(p, g)
  {
    forall n | n in g.blocks ensures BlockReady(p, n, g.blocks[n]) {
      InitInv(TileFor(p, n), g.blocks[n]);
    }
  }

  /** From any launch state on a grid that can be launched: every run is bounded; where no step is possible
      any more, all threads are done if and only if the shape fits 32-bit indices; and then C is the product. */
  lemma KernelTotallyCorrect(p: Problem, g: Grid, moves: seq<Move>, g': Grid)
    requires p.Valid() && p.M <= 65535 * TILE_M && GridInit(p, g) && Reaches(p, g, moves, g')
    ensures |moves| <= GridRank(p, g.blocks, g.blocks.Keys)
    ensures (forall move: Move :: !GridEnabled(p, g', move)) ==>
              ((forall n | n in g'.blocks :: Terminal(g'.blocks[n])) <==> IndicesFit(p))
    ensures (forall move: Move :: !GridEnabled(p, g', move)) && IndicesFit(p) ==>
              (forall r, c :: 0 <= r < p.M && 0 <= c < p.N ==> g'.C(r * p.N + c) == Dot(p, r, c, p.K))
              && (forall a :: a < 0 || a >= p.M * p.N ==> g'.C(a) == g.C(a))
  {
    hide Terminal, GridEnabled, Reaches, GridInit, GridReady, GridRank, Dot, IndicesFit, Defined;
    LaunchReady(p, g);
    LaunchEnds(p, g, moves, g');
    AllDefinedIff(p);
    if !IndicesFit(p) {
      OutOfRangeNeverEnds(p, g, moves, g');
    } else if forall move: Move :: !GridEnabled(p, g', move) {
      KernelRefinesTripleLoop(p, g, moves, g');
    }
  }
}
