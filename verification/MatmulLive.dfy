/** A block never gets stuck and never runs forever: barriers, waits and converging warps
    included, every run can be continued until all 256 threads are done, and is finite. */
module MatmulLive {
  import opened MatmulBlock
  import opened MatmulPipeline
  import opened MatmulSteps

  /** The lanes of a warp multiply together and store together. */
  ghost predicate Converged(b: Block)
    requires |b.threads| == THREADS
  {
    forall u, warp | 0 <= u < THREADS && 0 <= warp < 8 && InWarp(u, warp) ::
      Consumed(b.threads[u]) == Consumed(b.threads[32 * warp]) && Stored(b.threads[u]) == Stored(b.threads[32 * warp])
  }

  lemma StepConverged(t: Tile, b: Block, choice: Choice)
    requires t.Valid() && |b.threads| == THREADS && Enabled(b, choice) && Converged(b)
    ensures Converged(Next(t, b, choice))
  {
    hide TileCopies, MayPass;
    var b' := Next(t, b, choice);
    forall u, warp | 0 <= u < THREADS && 0 <= warp < 8 && InWarp(u, warp)
      ensures Consumed(b'.threads[u]) == Consumed(b'.threads[32 * warp])
      ensures Stored(b'.threads[u]) == Stored(b'.threads[32 * warp])
    {
      LanesStay(t, b, choice, u, warp);
    }
  }

  lemma LanesStay(t: Tile, b: Block, choice: Choice, u: int, warp: int)
    requires t.Valid() && |b.threads| == THREADS && Enabled(b, choice) && Converged(b)
    requires 0 <= u < THREADS && 0 <= warp < 8 && InWarp(u, warp)
    ensures var b' := Next(t, b, choice);
            Consumed(b'.threads[u]) == Consumed(b'.threads[32 * warp])
            && Stored(b'.threads[u]) == Stored(b'.threads[32 * warp])
  {
    hide TileCopies, MayPass;
    assert InWarp(32 * warp, warp);
  }

  // ---------------------------------------------------------------- progress

  predicate Busy(th: Thread) { th.pc.Prologue? || th.pc.LoopHead? || th.pc.WaitGroup? || th.pc.Epilogue? }

  lemma {:induction false} LeastPassed(threads: seq<Thread>, n: nat) returns (m: nat)
    requires 0 < n <= |threads|
    ensures m < n && forall u | 0 <= u < n :: threads[m].passed <= threads[u].passed
  {
    if n == 1 {
      m := 0;
    } else {
      m := LeastPassed(threads, n - 1);
      if threads[n - 1].passed < threads[m].passed {
        m := n - 1;
      }
    }
  }

  /** Two threads neither of which waits for the other are between the same two barriers. */
  lemma SamePhase(t: Tile, b: Block, u: int, v: int)
    requires t.Valid() && Control(t, b) && 0 <= u < THREADS && 0 <= v < THREADS
    requires b.threads[v].passed <= b.threads[u].passed
    ensures Arrived(b.threads[v]) || b.threads[u].passed == b.threads[v].passed
    ensures b.threads[u].passed == b.threads[v].passed ==>
              b.threads[u].it == b.threads[v].it && b.threads[u].k0 == b.threads[v].k0
  {
    hide InflightOk;
    assert InStep(b.threads[u], b.threads[v]);
    assert ThreadOk(t, b.threads[u], u) && ThreadOk(t, b.threads[v], v);
  }

  /** A thread furthest behind that has come to a warp-wide operation finds its warp there. */
  lemma WarpReady(t: Tile, b: Block, v: int, warp: int, u: int)
    requires t.Valid() && Control(t, b) && Converged(b) && 0 <= v < THREADS && 0 <= u < THREADS && 0 <= warp < 8
    requires InWarp(v, warp) && InWarp(u, warp)
    requires !Busy(b.threads[u]) && b.threads[v].passed <= b.threads[u].passed
    requires b.threads[v].pc.MmaStep? || b.threads[v].pc.StoreFrag?
    ensures b.threads[u].pc == b.threads[v].pc
  {
    SamePhase(t, b, u, v);
    assert ThreadOk(t, b.threads[u], u) && ThreadOk(t, b.threads[v], v);
    assert Consumed(b.threads[u]) == Consumed(b.threads[v]);
    assert Stored(b.threads[u]) == Stored(b.threads[v]);
  }

  lemma MayPassLeast(t: Tile, b: Block, m: int)
    requires t.Valid() && Control(t, b) && 0 <= m < THREADS && Arrived(b.threads[m])
    requires forall u | 0 <= u < THREADS :: b.threads[m].passed <= b.threads[u].passed && !Busy(b.threads[u])
    requires forall u | 0 <= u < THREADS && b.threads[u].passed == b.threads[m].passed ::
               !b.threads[u].pc.MmaStep? && !b.threads[u].pc.StoreFrag?
    ensures MayPass(b, m)
  {
    forall u | 0 <= u < THREADS && b.threads[u].passed == b.threads[m].passed ensures Arrived(b.threads[u]) {
      SamePhase(t, b, u, m);
      assert ThreadOk(t, b.threads[u], u) && ThreadOk(t, b.threads[m], m);
    }
  }

  lemma LeastNotDone(t: Tile, b: Block, m: int, u: int)
    requires t.Valid() && Control(t, b) && 0 <= m < THREADS && 0 <= u < THREADS
    requires b.threads[m].passed <= b.threads[u].passed && b.threads[m].pc.Done? && !Busy(b.threads[u])
    ensures b.threads[u].pc.Done?
  {
    SamePhase(t, b, u, m);
    assert ThreadOk(t, b.threads[u], u) && ThreadOk(t, b.threads[m], m);
  }

  /** No deadlock: in every reachable state that is not final some step is possible. */
  lemma Progress(t: Tile, b: Block) returns (choice: Choice)
    requires t.Valid() && Inv(t, b) && Converged(b) && !Terminal(b)
    ensures Enabled(b, choice)
  {
    hide ThreadsOk, BarrierOk, LoadsOk, SumsOk, OutputsOk, Converged;
    if u :| 0 <= u < THREADS && b.threads[u].inflight != {} {
      var copy :| copy in b.threads[u].inflight;
      return Land(u, copy);
    }
    if u :| 0 <= u < THREADS && Busy(b.threads[u]) {
      return Run(u, 0);
    }
    var m := LeastPassed(b.threads, THREADS);
    if v :| 0 <= v < THREADS && b.threads[v].passed == b.threads[m].passed
            && (b.threads[v].pc.MmaStep? || b.threads[v].pc.StoreFrag?) {
      var warp := v / 32;
      assert InWarp(v, warp) && InWarp(32 * warp, warp);
      forall u | 0 <= u < THREADS && InWarp(u, warp) ensures b.threads[u].pc == b.threads[v].pc {
        WarpReady(t, b, v, warp, u);
      }
      return if b.threads[v].pc.MmaStep? then Mma(warp, cell => 0) else Store(warp);
    }
    if b.threads[m].pc.Done? {
      forall u | 0 <= u < THREADS ensures b.threads[u].pc.Done? {
        LeastNotDone(t, b, m, u);
      }
      assert false;
    }
    MayPassLeast(t, b, m);
    return Run(m, 0);
  }

  // ---------------------------------------------------------------- termination

  function Remaining(t: Tile, th: Thread): nat { if th.k0 < t.p.K then t.p.K - th.k0 else 0 }

  /** A bound on the steps a thread still takes part in. */
  function Rank(t: Tile, th: Thread): int {
    |th.inflight| + (match th.pc
                     case Done => 0
                     case Epilogue(i) => 1 + (if i < C_ELEMS + THREADS then C_ELEMS + THREADS - i else 0)
                     case Barrier3 => 9000
                     case StoreFrag => 9001
                     case Barrier2 => 9100 + 100 * Remaining(t, th) - 60
                     case MmaStep(kStep) => 9100 + 100 * Remaining(t, th) - 30 - kStep
                     case Barrier1 => 9100 + 100 * Remaining(t, th) - 20
                     case WaitGroup => 9100 + 100 * Remaining(t, th) - 10
                     case LoopHead => 9100 + 100 * Remaining(t, th)
                     case Prologue => 9110 + 100 * Remaining(t, th))
  }

  function TotalRank(t: Tile, threads: seq<Thread>): int {
    if threads == [] then 0 else TotalRank(t, threads[..|threads| - 1]) + Rank(t, threads[|threads| - 1])
  }

  lemma {:induction false} TotalDrops(t: Tile, threads: seq<Thread>, threads': seq<Thread>, drop: nat)
    requires |threads| == |threads'|
    requires forall u | 0 <= u < |threads| :: Rank(t, threads'[u]) <= Rank(t, threads[u])
    requires drop > 0 ==> drop <= |threads| && Rank(t, threads'[drop - 1]) < Rank(t, threads[drop - 1])
    ensures TotalRank(t, threads') <= TotalRank(t, threads) - (if drop > 0 then 1 else 0)
    decreases |threads|
  {
    if threads != [] {
      var n := |threads| - 1;
      TotalDrops(t, threads[..n], threads'[..n], if drop == n + 1 then 0 else drop);
    }
  }

  lemma {:induction false} TotalNonNegative(t: Tile, threads: seq<Thread>)
    requires forall u | 0 <= u < |threads| :: Rank(t, threads[u]) >= 0
    ensures TotalRank(t, threads) >= 0
    decreases |threads|
  {
    if threads != [] {
      TotalNonNegative(t, threads[..|threads| - 1]);
    }
  }

  lemma RankNonNegative(t: Tile, th: Thread, tid: int)
    requires ThreadOk(t, th, tid)
    ensures Rank(t, th) >= 0
  {}

  lemma IssueSize(t: Tile, tid: int, stage: int, kOff: int, before: set<Copy>)
    ensures |TileCopies(t, tid, stage, kOff)| <= 3
    ensures |before + TileCopies(t, tid, stage, kOff)| <= |before| + 3
  {
    var a, b, c := ACopy(t, stage, kOff, tid), ACopy(t, stage, kOff, tid + THREADS), BCopy(t, stage, kOff, tid);
    hide ACopy, BCopy;
    assert TileCopies(t, tid, stage, kOff) == {a} + {b} + {c};
    UnionSize({a}, {b});
    UnionSize({a} + {b}, {c});
    assert |{a}| == 1 && |{b}| == 1 && |{c}| == 1;
    UnionSize(before, TileCopies(t, tid, stage, kOff));
  }

  lemma UnionSize(x: set<Copy>, y: set<Copy>)
    ensures |x + y| <= |x| + |y|
  {
    assert |x + y| == |x| + |y| - |x * y|;
  }

  lemma RunDrops(t: Tile, th: Thread, tid: int)
    requires t.Valid() && ThreadOk(t, th, tid) && InflightOk(t, th, tid)
    requires tid >= 0 && (Busy(th) || Arrived(th))
    ensures Rank(t, Stepped(t, th, tid)) < Rank(t, th)
  {
    IssueSize(t, tid, th.writeStage, th.k0 + TILE_K, th.inflight);
    IssueSize(t, tid, th.writeStage, 0, {});
    hide TileCopies, InflightOk, StageOf;
    assert th.pc.Prologue? ==> Stepped(t, th, tid).inflight == TileCopies(t, tid, th.writeStage, 0);
  }

  /** Every step lowers the total. */
  lemma StepDrops(t: Tile, b: Block, choice: Choice)
    requires t.Valid() && |b.threads| == THREADS && Control(t, b) && Enabled(b, choice)
    ensures TotalRank(t, Next(t, b, choice).threads) < TotalRank(t, b.threads)
  {
    hide Control, TileCopies, Stepped, Enabled;
    match choice
    case Run(tid, _) => RunLowers(t, b, tid, choice);
    case Land(tid, copy) => LandLowers(t, b, tid, copy);
    case Mma(warp, rubbish) => MmaLowers(t, b, warp, rubbish);
    case Store(warp) => StoreLowers(t, b, warp);
  }

  lemma RunLowers(t: Tile, b: Block, tid: int, choice: Choice)
    requires t.Valid() && Control(t, b) && Enabled(b, choice) && choice.Run? && choice.tid == tid
    ensures TotalRank(t, Next(t, b, choice).threads) < TotalRank(t, b.threads)
  {
    hide BarrierOk, TotalRank, Rank;
    assert ThreadOk(t, b.threads[tid], tid) && InflightOk(t, b.threads[tid], tid);
    RunDrops(t, b.threads[tid], tid);
    TotalDrops(t, b.threads, Next(t, b, choice).threads, tid + 1);
  }

  lemma LandLowers(t: Tile, b: Block, tid: int, copy: Copy)
    requires |b.threads| == THREADS && Enabled(b, Land(tid, copy))
    ensures TotalRank(t, Landed(t.p, b, tid, copy).threads) < TotalRank(t, b.threads)
  {
    hide TotalRank;
    assert |b.threads[tid].inflight - {copy}| == |b.threads[tid].inflight| - 1;
    TotalDrops(t, b.threads, Landed(t.p, b, tid, copy).threads, tid + 1);
  }

  lemma MmaLowers(t: Tile, b: Block, warp: int, junk: Cell -> int)
    requires t.Valid() && Control(t, b) && Enabled(b, Mma(warp, junk))
    ensures TotalRank(t, AfterMma(t.p, b, warp, junk).threads) < TotalRank(t, b.threads)
  {
    hide TotalRank, BarrierOk, InflightOk;
    var threads := AfterMma(t.p, b, warp, junk).threads;
    assert InWarp(32 * warp, warp);
    forall u | 0 <= u < THREADS ensures Rank(t, threads[u]) <= Rank(t, b.threads[u]) {
      assert ThreadOk(t, b.threads[u], u);
    }
    assert ThreadOk(t, b.threads[32 * warp], 32 * warp);
    TotalDrops(t, b.threads, threads, 32 * warp + 1);
  }

  lemma StoreLowers(t: Tile, b: Block, warp: int)
    requires |b.threads| == THREADS && Enabled(b, Store(warp))
    ensures TotalRank(t, AfterStore(b, warp).threads) < TotalRank(t, b.threads)
  {
    hide TotalRank;
    assert InWarp(32 * warp, warp);
    TotalDrops(t, b.threads, AfterStore(b, warp).threads, 32 * warp + 1);
  }

  /** A run of one block: each choice is possible when it is made. */
  ghost predicate IsRun(t: Tile, b: Block, choices: seq<Choice>, b': Block)
    decreases |choices|
  {
    |b.threads| == THREADS
    && if choices == [] then b' == b
       else Enabled(b, choices[0]) && IsRun(t, Next(t, b, choices[0]), choices[1..], b')
  }

  /** Every run of a block is finite, and where it has not ended it can go on. */
  lemma {:induction false} RunsEnd(t: Tile, b: Block, choices: seq<Choice>, b': Block)
    requires t.Valid() && Inv(t, b) && Converged(b) && IsRun(t, b, choices, b')
    ensures |choices| <= TotalRank(t, b.threads) && |b'.threads| == THREADS
    ensures Terminal(b') || exists choice :: Enabled(b', choice)
    decreases |choices|
  {
    hide LoadsOk, SumsOk, OutputsOk, BarrierOk, Converged, Terminal, TotalRank;
    if choices == [] {
      forall u | 0 <= u < THREADS ensures Rank(t, b.threads[u]) >= 0 {
        assert ThreadOk(t, b.threads[u], u);
        RankNonNegative(t, b.threads[u], u);
      }
      TotalNonNegative(t, b.threads);
      if !Terminal(b) {
        var choice := Progress(t, b);
      }
    } else {
      StepInv(t, b, choices[0]);
      StepConverged(t, b, choices[0]);
      StepDrops(t, b, choices[0]);
      RunsEnd(t, Next(t, b, choices[0]), choices[1..], b');
    }
  }
}
