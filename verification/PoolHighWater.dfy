/** How much the pool ever reserves, and when a strict graph capture sees it grow. */
module PoolHighWater {
  import opened Arithmetic
  import opened PoolModel
  import opened Wrappers
  import opened PoolConservation

  predicate Preallocates(step: Step) { step.Preallocate? && step.count > 0 }

  function Max(a: int, b: int): int { if a < b then b else a }

  /** The largest number of class-k blocks in use at any moment of a run. */
  ghost function Peak(s: Sys, steps: seq<Step>, k: nat): int
    decreases |steps|
  {
    if steps == [] || !Enabled(s, steps[0]) then Used(s, k)
    else Max(Used(s, k), Peak(Next(s, steps[0]), steps[1..], k))
  }

  /** The steps that call the raw allocator. */
  predicate Grows(s: Sys, step: Step) {
    Preallocates(step) || (step.Allocate? && Bucket(s.pool.free, step.cls) == [])
  }

  predicate GrowsClass(s: Sys, step: Step, k: nat) { Grows(s, step) && step.cls == k }

  /** One step: the blocks of a class never become fewer, and without preallocation of that class they
      become more only because all of them are in use. */
  lemma StepBlocks(s: Sys, step: Step, k: nat)
    requires Conserved(s) && Enabled(s, step)
    ensures Blocks(Next(s, step), k) >= Blocks(s, k) >= Used(s, k)
    ensures Blocks(Next(s, step), k) > Blocks(s, k) <==> GrowsClass(s, step, k)
    ensures !(Preallocates(step) && step.cls == k) ==>
              Blocks(Next(s, step), k) == Max(Blocks(s, k), Used(Next(s, step), k))
  {
    hide Filed, Counted, Sum, Blocks, Used;
    BlocksAre(s, k);
    StepConserved(s, step);
    BlocksAre(Next(s, step), k);
    BlocksChange(s, step, k);
  }

  lemma BlocksAre(s: Sys, k: nat)
    requires Conserved(s)
    ensures Blocks(s, k) == Used(s, k) + |Bucket(s.pool.free, k)|
  {}

  lemma BlocksChange(s: Sys, step: Step, k: nat)
    requires Conserved(s) && Enabled(s, step)
    ensures Blocks(Next(s, step), k) == Blocks(s, k) +
            (if !GrowsClass(s, step, k) then 0 else if step.Preallocate? then step.count else 1)
  {
    hide Filed, Counted, Balanced, Sum;
    StepSum(s, step, OfClass(k));
  }

  /** High water: over a whole run without preallocation of class k, the blocks reserved for it are
      those there at the start or as many as were ever in use at once, whichever is more. */
  lemma {:induction false} HighWater(s: Sys, steps: seq<Step>, s': Sys, k: nat)
    requires Conserved(s) && Run(s, steps, s')
    requires forall i :: 0 <= i < |steps| ==> !(Preallocates(steps[i]) && steps[i].cls == k)
    ensures Blocks(s', k) == Max(Blocks(s, k), Peak(s, steps, k))
    ensures Peak(s, steps, k) >= Used(s, k)
    decreases |steps|
  {
    hide Conserved, Blocks, Used, Next, Enabled;
    BlocksAre(s, k);
    if steps != [] {
      StepBlocks(s, steps[0], k);
      StepConserved(s, steps[0]);
      HighWater(Next(s, steps[0]), steps[1..], s', k);
    }
  }

  /** n blocks preallocated first, and none of that class later: max(n, peak). */
  lemma HighWaterFromEmpty(k: nat, n: nat, steps: seq<Step>, s': Sys)
    requires k < CLASSES && Run(Next(Initial(), Preallocate(k, n)), steps, s')
    requires forall i :: 0 <= i < |steps| ==> !(Preallocates(steps[i]) && steps[i].cls == k)
    ensures Blocks(s', k) == Max(n, Peak(Next(Initial(), Preallocate(k, n)), steps, k))
  {
    hide Conserved, Peak, Run;
    InitialConserved();
    StepConserved(Initial(), Preallocate(k, n));
    BlocksChange(Initial(), Preallocate(k, n), k);
    HighWater(Next(Initial(), Preallocate(k, n)), steps, s', k);
  }

  // ---------------------------------------------------------------- the growth check of a strict capture

  lemma StepReserved(s: Sys, step: Step)
    requires Conserved(s) && Enabled(s, step)
    ensures Next(s, step).pool.reserved >= s.pool.reserved
    ensures Next(s, step).pool.reserved > s.pool.reserved <==> Grows(s, step)
  {
    if step.Preallocate? && step.count > 0 {
      MulMonotone(1, step.count, ClassSize(step.cls));
    }
  }

  lemma StepAllBlocks(s: Sys, step: Step)
    requires Conserved(s) && Enabled(s, step)
    ensures forall k :: Blocks(Next(s, step), k) >= Blocks(s, k)
    ensures (forall k :: Blocks(Next(s, step), k) == Blocks(s, k)) <==> !Grows(s, step)
  {
    hide Conserved, Blocks, Next, Enabled;
    forall k ensures Blocks(Next(s, step), k) >= Blocks(s, k)
                     && (Blocks(Next(s, step), k) > Blocks(s, k) <==> GrowsClass(s, step, k))
    {
      StepBlocks(s, step, k);
    }
    if Grows(s, step) {
      assert GrowsClass(s, step, step.cls);
    }
  }

  predicate NonePreallocated(steps: seq<Step>) { forall i :: 0 <= i < |steps| ==> !Preallocates(steps[i]) }

  /** bytes_reserved is unchanged by a run exactly when no class gained a block. */
  lemma {:induction false} ReservedUnchangedIff(s: Sys, steps: seq<Step>, s': Sys)
    requires Conserved(s) && Run(s, steps, s')
    ensures s'.pool.reserved >= s.pool.reserved && forall k :: Blocks(s', k) >= Blocks(s, k)
    ensures s'.pool.reserved == s.pool.reserved <==> forall k :: Blocks(s', k) == Blocks(s, k)
    ensures s'.pool.reserved == s.pool.reserved ==> NonePreallocated(steps)
    decreases |steps|
  {
    hide Conserved, Blocks, Next, Enabled;
    if steps != [] {
      var next := Next(s, steps[0]);
      StepReserved(s, steps[0]);
      StepAllBlocks(s, steps[0]);
      StepConserved(s, steps[0]);
      ReservedUnchangedIff(next, steps[1..], s');
      assert forall i :: 1 <= i < |steps| ==> steps[i] == steps[1..][i - 1];
      if forall k :: Blocks(s', k) == Blocks(s, k) {
        forall k ensures Blocks(next, k) == Blocks(s, k) {
          assert Blocks(s', k) >= Blocks(next, k) >= Blocks(s, k);
        }
      }
    }
  }

  /** The extra buffers of class k in use at any moment of the window never exceed the blocks of that
      class that were free when it began. */
  ghost predicate FitsFreeBlocks(s: Sys, steps: seq<Step>, k: nat) {
    Peak(s, steps, k) - Used(s, k) <= |Bucket(s.pool.free, k)|
  }

  /** Graph::end_capture compares bytes_reserved at the two ends of the window.  The comparison succeeds
      exactly when nothing is preallocated in the window and every class fits its free blocks. */
  lemma StrictCheckPassesIff(s: Sys, window: seq<Step>, s': Sys)
    requires Conserved(s) && Run(s, window, s')
    ensures s'.pool.reserved == s.pool.reserved
            <==> NonePreallocated(window) && forall k :: FitsFreeBlocks(s, window, k)
  {
    hide Conserved, Blocks, Used, Next, Enabled, Peak, Run;
    ReservedUnchangedIff(s, window, s');
    if NonePreallocated(window) {
      forall k ensures FitsFreeBlocks(s, window, k) <==> Blocks(s', k) == Blocks(s, k) {
        HighWater(s, window, s', k);
        BlocksAre(s, k);
      }
    }
  }

  // ---------------------------------------------------------------- which block is reused

  /** What an allocation from a bucket whose last block is given does. */
  lemma AllocateFrom(s: Sys, k: nat, stream: nat, rest: seq<PooledBlock>, block: PooledBlock)
    requires s.handle && k < CLASSES && Bucket(s.pool.free, k) == rest + [block] && block.ptr < |s.slots|
    ensures Enabled(s, Allocate(k, stream))
    ensures var s' := Next(s, Allocate(k, stream));
            && |s'.slots| == |s.slots| && s'.slots[block.ptr].place == Live
            && s'.slots[block.ptr].owners == s.slots[block.ptr].owners + [Owner(stream, None)]
            && Bucket(s'.pool.free, k) == rest
            && s'.queues == if block.event.Some? then Push(s.queues, stream, Wait(block.event.value)) else s.queues
  {
    hide Push;
    var bucket := Bucket(s.pool.free, k);
    assert bucket[..|bucket| - 1] == rest && bucket[|bucket| - 1] == block;
  }

  lemma ClassExists(s: Sys, p: nat)
    requires Conserved(s) && p < |s.slots|
    ensures s.slots[p].cls < CLASSES
  {}

  /** The block returned last is the next one handed out of its class: its return is undone in the bucket, and
      its release is what the new buffer waits for. */
  lemma LastReturnedIsNext(s: Sys, p: nat, stream: nat)
    requires Conserved(s) && s.handle && Enabled(s, ReleaseReturn(p))
    ensures var k, returned := s.slots[p].cls, Next(s, ReleaseReturn(p));
            && Enabled(returned, Allocate(k, stream))
            && var s' := Next(returned, Allocate(k, stream));
            && p < |s'.slots| == |s.slots| && s'.slots[p].place == Live
            && s'.slots[p].owners == s.slots[p].owners + [Owner(stream, None)]
            && Bucket(s'.pool.free, k) == Bucket(s.pool.free, k)
            && s'.queues == match Last(s.slots[p].owners).released
                            case Some(event) => Push(s.queues, stream, Wait(event))
                            case None => s.queues
  {
    hide Conserved, AllocateStep, Push;
    ClassExists(s, p);
    AllocateFrom(Next(s, ReleaseReturn(p)), s.slots[p].cls, stream, Bucket(s.pool.free, s.slots[p].cls),
                 PooledBlock(p, Last(s.slots[p].owners).released));
  }

  /** Blocks preallocated for a class are handed out before older ones, the newest first. */
  lemma NewestIsNext(s: Sys, k: nat, count: nat, stream: nat)
    requires s.handle && k < CLASSES && count > 0
    ensures var s' := Next(Next(s, Preallocate(k, count)), Allocate(k, stream));
            var p := |s.slots| + count - 1;
            && p < |s'.slots| && s'.slots[p].place == Live && s'.slots[p].owners == [Owner(stream, None)]
            && s'.queues == s.queues
  {
    hide AllocateStep, Push, ClassSize;
    var blocks := NewBlocks(|s.slots|, count);
    var rest := Bucket(s.pool.free, k) + blocks[..count - 1];
    assert Bucket(s.pool.free, k) + blocks == rest + [blocks[count - 1]];
    AllocateFrom(Next(s, Preallocate(k, count)), k, stream, rest, blocks[count - 1]);
  }
}
