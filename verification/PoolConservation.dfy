/** No block is lost or handed out twice, and the counters agree with where the blocks are. */
module PoolConservation {
  import opened Arithmetic
  import opened Wrappers
  import opened PoolModel

  // ---------------------------------------------------------------- sums over the pointers

  function Sum(slots: seq<Slot>, weight: Slot -> int): int {
    if slots == [] then 0 else Sum(slots[..|slots| - 1], weight) + weight(slots[|slots| - 1])
  }

  lemma SumAppend(slots: seq<Slot>, slot: Slot, weight: Slot -> int)
    ensures Sum(slots + [slot], weight) == Sum(slots, weight) + weight(slot)
  {
    assert (slots + [slot])[..|slots|] == slots;
  }

  lemma {:induction false} SumAppendMany(slots: seq<Slot>, slot: Slot, count: nat, weight: Slot -> int)
    ensures Sum(slots + seq(count, i => slot), weight) == Sum(slots, weight) + count * weight(slot)
  {
    if count == 0 {
      assert slots + seq(0, i => slot) == slots;
    } else {
      SumAppendMany(slots, slot, count - 1, weight);
      assert slots + seq(count, i => slot) == (slots + seq(count - 1, i => slot)) + [slot];
      SumAppend(slots + seq(count - 1, i => slot), slot, weight);
      MulDistributes(count, 1, weight(slot));
    }
  }

  lemma {:induction false} SumUpdate(slots: seq<Slot>, p: nat, slot: Slot, weight: Slot -> int)
    requires p < |slots|
    ensures Sum(slots[p := slot], weight) == Sum(slots, weight) - weight(slots[p]) + weight(slot)
    decreases |slots|
  {
    var n := |slots| - 1;
    if p < n {
      SumUpdate(slots[..n], p, slot, weight);
      assert slots[p := slot][..n] == slots[..n][p := slot];
    } else {
      assert slots[p := slot][..n] == slots[..n];
    }
  }

  function Size(): Slot -> int { (slot: Slot) => ClassSize(slot.cls) }

  function SizeInUse(): Slot -> int { (slot: Slot) => if slot.place.Free? then 0 else ClassSize(slot.cls) }

  function InUse(): Slot -> int { (slot: Slot) => if slot.place.Free? then 0 else 1 }

  function OfClass(k: nat): Slot -> int { (slot: Slot) => if slot.cls == k then 1 else 0 }

  function InUseOfClass(k: nat): Slot -> int { (slot: Slot) => if slot.cls == k && !slot.place.Free? then 1 else 0 }

  /** Blocks of class k ever reserved, and those of them now with a buffer or in the middle of a release. */
  function Blocks(s: Sys, k: nat): int { Sum(s.slots, OfClass(k)) }

  function Used(s: Sys, k: nat): int { Sum(s.slots, InUseOfClass(k)) }

  /** Sum over the classes of class size times free blocks, over the first n classes. */
  function FreeBytes(free: map<nat, seq<PooledBlock>>, n: nat): int {
    if n == 0 then 0 else FreeBytes(free, n - 1) + |Bucket(free, n - 1)| * ClassSize(n - 1)
  }

  lemma {:induction false} FreeBytesUpdate(free: map<nat, seq<PooledBlock>>, k: nat, bucket: seq<PooledBlock>, n: nat)
    ensures FreeBytes(free[k := bucket], n)
            == FreeBytes(free, n) + if k < n then (|bucket| - |Bucket(free, k)|) * ClassSize(k) else 0
  {
    if n > 0 {
      FreeBytesUpdate(free, k, bucket, n - 1);
      if k == n - 1 {
        MulDistributes(|bucket|, |Bucket(free, k)|, ClassSize(k));
      }
    }
  }

  // ---------------------------------------------------------------- the invariant

  /** Bucket entries and free pointers correspond one to one. */
  ghost predicate Filed(s: Sys) {
    && (forall k, i | 0 <= i < |Bucket(s.pool.free, k)| :: EntryOk(s, k, i))
    && (forall k, i, j | 0 <= i < j < |Bucket(s.pool.free, k)| ::
          Bucket(s.pool.free, k)[i].ptr != Bucket(s.pool.free, k)[j].ptr)
    && (forall p | 0 <= p < |s.slots| && s.slots[p].place.Free? :: InBucket(s, p))
  }

  ghost predicate EntryOk(s: Sys, k: nat, i: nat)
    requires i < |Bucket(s.pool.free, k)|
  {
    var block := Bucket(s.pool.free, k)[i];
    && block.ptr < |s.slots| && s.slots[block.ptr].cls == k && s.slots[block.ptr].place.Free?
    && block.event == LastEvent(s.slots[block.ptr])
  }

  function LastEvent(slot: Slot): Option<nat> { if slot.owners == [] then None else Last(slot.owners).released }

  ghost predicate InBucket(s: Sys, p: nat)
    requires p < |s.slots|
  {
    exists i :: 0 <= i < |Bucket(s.pool.free, s.slots[p].cls)| && Bucket(s.pool.free, s.slots[p].cls)[i].ptr == p
  }

  /** The counters, at every point where the lock is free. */
  ghost predicate Counted(s: Sys) {
    && s.pool.reserved == Sum(s.slots, Size())
    && s.pool.inUse == Sum(s.slots, SizeInUse())
    && s.pool.outstanding == Sum(s.slots, InUse()) + s.uncounted
    && s.pool.reserved == s.pool.inUse + FreeBytes(s.pool.free, CLASSES)
  }

  /** Each class's blocks are in use or in its bucket. */
  ghost predicate Balanced(s: Sys) {
    forall k :: Blocks(s, k) == Used(s, k) + |Bucket(s.pool.free, k)|
  }

  ghost predicate SlotsOk(s: Sys) {
    forall p | 0 <= p < |s.slots| :: s.slots[p].cls < CLASSES && (!s.slots[p].place.Free? ==> s.slots[p].owners != [])
  }

  ghost predicate Conserved(s: Sys) { SlotsOk(s) && Filed(s) && Counted(s) && Balanced(s) }

  lemma InitialConserved()
    ensures Conserved(Initial())
  {
    EmptyFree(CLASSES);
  }

  lemma {:induction false} EmptyFree(n: nat)
    ensures FreeBytes(map[], n) == 0
  {
    if n > 0 {
      EmptyFree(n - 1);
    }
  }

  // ---------------------------------------------------------------- filing

  lemma PreallocateFiled(s: Sys, k: nat, count: nat)
    requires Conserved(s) && Enabled(s, Preallocate(k, count))
    ensures Filed(Next(s, Preallocate(k, count)))
  {
    hide Counted, Balanced, SlotsOk;
    var s' := Next(s, Preallocate(k, count));
    var before, after := Bucket(s.pool.free, k), Bucket(s'.pool.free, k);
    forall j, i | 0 <= i < |Bucket(s'.pool.free, j)| ensures EntryOk(s', j, i) {
      if j != k || i < |before| {
        assert EntryOk(s, j, i);
      }
    }
    forall j, i, i' | 0 <= i < i' < |Bucket(s'.pool.free, j)|
      ensures Bucket(s'.pool.free, j)[i].ptr != Bucket(s'.pool.free, j)[i'].ptr
    {
      if j != k || i' < |before| {
        assert Bucket(s'.pool.free, j)[i] == Bucket(s.pool.free, j)[i];
        assert Bucket(s'.pool.free, j)[i'] == Bucket(s.pool.free, j)[i'];
      } else if i < |before| {
        assert EntryOk(s, k, i) && after[i] == before[i];
      }
    }
    forall p | 0 <= p < |s'.slots| && s'.slots[p].place.Free? ensures InBucket(s', p) {
      if p < |s.slots| {
        assert InBucket(s, p);
        var i :| 0 <= i < |Bucket(s.pool.free, s.slots[p].cls)| && Bucket(s.pool.free, s.slots[p].cls)[i].ptr == p;
        assert Bucket(s'.pool.free, s'.slots[p].cls)[i].ptr == p;
      } else {
        assert after[|before| + (p - |s.slots|)].ptr == p;
      }
    }
  }

  lemma AllocateFiled(s: Sys, k: nat, stream: nat)
    requires Conserved(s) && Enabled(s, Allocate(k, stream))
    ensures Filed(Next(s, Allocate(k, stream)))
  {
    hide Counted, Balanced, SlotsOk;
    var s' := Next(s, Allocate(k, stream));
    var block := TakenBlock(s.pool, k, |s.slots|);
    var before := Bucket(s.pool.free, k);
    forall j, i | 0 <= i < |Bucket(s'.pool.free, j)| ensures EntryOk(s', j, i) {
      assert EntryOk(s, j, i);
      assert Bucket(s'.pool.free, j)[i] == Bucket(s.pool.free, j)[i];
      if before != [] {
        assert EntryOk(s, k, |before| - 1);
      }
    }
    forall j, i, i' | 0 <= i < i' < |Bucket(s'.pool.free, j)|
      ensures Bucket(s'.pool.free, j)[i].ptr != Bucket(s'.pool.free, j)[i'].ptr
    {
      assert Bucket(s'.pool.free, j)[i] == Bucket(s.pool.free, j)[i];
      assert Bucket(s'.pool.free, j)[i'] == Bucket(s.pool.free, j)[i'];
    }
    forall p | 0 <= p < |s'.slots| && s'.slots[p].place.Free? ensures InBucket(s', p) {
      assert p != block.ptr && InBucket(s, p);
      var i :| 0 <= i < |Bucket(s.pool.free, s.slots[p].cls)| && Bucket(s.pool.free, s.slots[p].cls)[i].ptr == p;
      assert Bucket(s'.pool.free, s'.slots[p].cls)[i].ptr == p;
    }
  }

  lemma ReturnFiled(s: Sys, p: nat)
    requires Conserved(s) && Enabled(s, ReleaseReturn(p))
    ensures Filed(Next(s, ReleaseReturn(p)))
  {
    hide Counted, Balanced, SlotsOk;
    var s' := Next(s, ReleaseReturn(p));
    var k := s.slots[p].cls;
    forall j, i | 0 <= i < |Bucket(s'.pool.free, j)| ensures EntryOk(s', j, i) {
      if j != k || i < |Bucket(s.pool.free, k)| {
        assert EntryOk(s, j, i);
      }
    }
    forall j, i, i' | 0 <= i < i' < |Bucket(s'.pool.free, j)|
      ensures Bucket(s'.pool.free, j)[i].ptr != Bucket(s'.pool.free, j)[i'].ptr
    {
      assert EntryOk(s, j, i);
    }
    forall q | 0 <= q < |s'.slots| && s'.slots[q].place.Free? ensures InBucket(s', q) {
      if q == p {
        assert Bucket(s'.pool.free, k)[|Bucket(s.pool.free, k)|].ptr == p;
      } else {
        assert InBucket(s, q);
        var i :| 0 <= i < |Bucket(s.pool.free, s.slots[q].cls)| && Bucket(s.pool.free, s.slots[q].cls)[i].ptr == q;
        assert Bucket(s'.pool.free, s'.slots[q].cls)[i].ptr == q;
      }
    }
  }

  lemma RecordFiled(s: Sys, p: nat)
    requires Conserved(s) && Enabled(s, ReleaseRecord(p))
    ensures Filed(Next(s, ReleaseRecord(p)))
  {
    hide Counted, Balanced, SlotsOk;
    var s' := Next(s, ReleaseRecord(p));
    forall j, i | 0 <= i < |Bucket(s'.pool.free, j)| ensures EntryOk(s', j, i) {
      assert EntryOk(s, j, i);
    }
    forall q | 0 <= q < |s'.slots| && s'.slots[q].place.Free? ensures InBucket(s', q) {
      assert InBucket(s, q);
    }
  }

  lemma SameFiled(s: Sys, s': Sys)
    requires Filed(s) && s'.slots == s.slots && s'.pool.free == s.pool.free
    ensures Filed(s')
  {
    forall j, i | 0 <= i < |Bucket(s'.pool.free, j)| ensures EntryOk(s', j, i) {
      assert EntryOk(s, j, i);
    }
    forall q | 0 <= q < |s'.slots| && s'.slots[q].place.Free? ensures InBucket(s', q) {
      assert InBucket(s, q);
    }
  }

  lemma StepFiled(s: Sys, step: Step)
    requires Conserved(s) && Enabled(s, step)
    ensures Filed(Next(s, step))
  {
    match step
    case Preallocate(k, count) => PreallocateFiled(s, k, count);
    case Allocate(k, stream) => AllocateFiled(s, k, stream);
    case ReleaseReturn(p) => ReturnFiled(s, p);
    case ReleaseRecord(p) => RecordFiled(s, p);
    case _ => SameFiled(s, Next(s, step));
  }

  // ---------------------------------------------------------------- counting

  /** A sum over the pointers after a step, for any weight that ignores the owners. */
  ghost predicate IgnoresOwners(weight: Slot -> int) {
    forall cls, place, owners, owners' :: weight(Slot(cls, place, owners)) == weight(Slot(cls, place, owners'))
  }

  function Change(s: Sys, step: Step, weight: Slot -> int): int
    requires Enabled(s, step)
  {
    match step
    case Preallocate(k, count) => count * weight(Slot(k, Free, []))
    case Allocate(k, stream) =>
      weight(Slot(k, Live, [])) - (if Bucket(s.pool.free, k) == [] then 0 else weight(Slot(k, Free, [])))
    case ReleaseRecord(p) => weight(Slot(s.slots[p].cls, Releasing, [])) - weight(Slot(s.slots[p].cls, Live, []))
    case ReleaseReturn(p) => weight(Slot(s.slots[p].cls, Free, [])) - weight(Slot(s.slots[p].cls, Releasing, []))
    case _ => 0
  }

  lemma StepSum(s: Sys, step: Step, weight: Slot -> int)
    requires Filed(s) && Enabled(s, step) && IgnoresOwners(weight)
    ensures Sum(Next(s, step).slots, weight) == Sum(s.slots, weight) + Change(s, step, weight)
  {
    hide Filed, Sum;
    var s' := Next(s, step);
    match step
    case Preallocate(k, count) => SumAppendMany(s.slots, Slot(k, Free, []), count, weight);
    case Allocate(k, stream) => AllocateSum(s, k, stream, weight);
    case ReleaseRecord(p) => SumUpdate(s.slots, p, s'.slots[p], weight);
    case ReleaseReturn(p) => SumUpdate(s.slots, p, s'.slots[p], weight);
    case _ =>
  }

  lemma AllocateSum(s: Sys, k: nat, stream: nat, weight: Slot -> int)
    requires Filed(s) && Enabled(s, Allocate(k, stream)) && IgnoresOwners(weight)
    ensures Sum(AllocateStep(s, k, stream).slots, weight) == Sum(s.slots, weight) + Change(s, Allocate(k, stream), weight)
  {
    hide Sum;
    var bucket := Bucket(s.pool.free, k);
    var ptr := TakenBlock(s.pool, k, |s.slots|).ptr;
    var s' := AllocateStep(s, k, stream);
    if bucket == [] {
      assert s'.slots == s.slots + [s'.slots[ptr]];
      SumAppend(s.slots, s'.slots[ptr], weight);
    } else {
      assert EntryOk(s, k, |bucket| - 1);
      assert s'.slots == s.slots[ptr := s'.slots[ptr]];
      SumUpdate(s.slots, ptr, s'.slots[ptr], weight);
    }
  }

  lemma StepFreeBytes(s: Sys, step: Step)
    requires SlotsOk(s) && Enabled(s, step)
    ensures FreeBytes(Next(s, step).pool.free, CLASSES) == FreeBytes(s.pool.free, CLASSES) +
            match step
            case Preallocate(k, count) => count * ClassSize(k)
            case Allocate(k, _) => if Bucket(s.pool.free, k) == [] then 0 else -ClassSize(k)
            case ReleaseReturn(p) => ClassSize(s.slots[p].cls)
            case _ => 0
  {
    hide FreeBytes, ClassSize;
    match step
    case Preallocate(k, count) =>
      BucketGrows(s.pool.free, k, Bucket(s.pool.free, k) + NewBlocks(|s.slots|, count), count);
    case Allocate(k, _) =>
      var bucket := Bucket(s.pool.free, k);
      if bucket == [] {
        BucketGrows(s.pool.free, k, [], 0);
      } else {
        BucketGrows(s.pool.free, k, bucket[..|bucket| - 1], -1);
      }
    case ReleaseReturn(p) =>
      var block := PooledBlock(p, Last(s.slots[p].owners).released);
      BucketGrows(s.pool.free, s.slots[p].cls, Bucket(s.pool.free, s.slots[p].cls) + [block], 1);
    case _ =>
  }

  lemma BucketGrows(free: map<nat, seq<PooledBlock>>, k: nat, bucket: seq<PooledBlock>, count: int)
    requires k < CLASSES && |bucket| - |Bucket(free, k)| == count
    ensures FreeBytes(free[k := bucket], CLASSES) == FreeBytes(free, CLASSES) + count * ClassSize(k)
    ensures count == 1 ==> count * ClassSize(k) == ClassSize(k)
    ensures count == -1 ==> count * ClassSize(k) == -ClassSize(k)
    ensures count == 0 ==> count * ClassSize(k) == 0
  {
    hide FreeBytes, ClassSize;
    FreeBytesUpdate(free, k, bucket, CLASSES);
  }

  lemma StepCounted(s: Sys, step: Step)
    requires Conserved(s) && Enabled(s, step)
    ensures Counted(Next(s, step))
  {
    hide Filed, Balanced, Sum, FreeBytes, ClassSize;
    StepSum(s, step, Size());
    StepSum(s, step, SizeInUse());
    StepSum(s, step, InUse());
    StepFreeBytes(s, step);
  }

  lemma BucketChange(s: Sys, step: Step, k: nat)
    requires Enabled(s, step)
    ensures |Bucket(Next(s, step).pool.free, k)| == |Bucket(s.pool.free, k)| +
            match step
            case Preallocate(j, count) => if j == k then count else 0
            case Allocate(j, _) => if j == k && Bucket(s.pool.free, k) != [] then -1 else 0
            case ReleaseReturn(p) => if s.slots[p].cls == k then 1 else 0
            case _ => 0
  {
    hide ClassSize, Push, Pop;
  }

  lemma StepBalanced(s: Sys, step: Step)
    requires Conserved(s) && Enabled(s, step)
    ensures Balanced(Next(s, step))
  {
    hide Filed, Counted, Sum, FreeBytes, ClassSize, Next;
    forall k ensures Blocks(Next(s, step), k) == Used(Next(s, step), k) + |Bucket(Next(s, step).pool.free, k)| {
      StepSum(s, step, OfClass(k));
      StepSum(s, step, InUseOfClass(k));
      BucketChange(s, step, k);
      assert Blocks(s, k) == Used(s, k) + |Bucket(s.pool.free, k)|;
    }
  }

  lemma StepSlots(s: Sys, step: Step)
    requires Conserved(s) && Enabled(s, step)
    ensures SlotsOk(Next(s, step))
  {
    hide Counted, Balanced;
    if step.Allocate? && Bucket(s.pool.free, step.cls) != [] {
      assert EntryOk(s, step.cls, |Bucket(s.pool.free, step.cls)| - 1);
    }
  }

  /** Every interleaving: each step keeps the invariant. */
  lemma StepConserved(s: Sys, step: Step)
    requires Conserved(s) && Enabled(s, step)
    ensures Conserved(Next(s, step))
  {
    hide Filed, Counted, Balanced, SlotsOk, Next, Enabled;
    StepFiled(s, step);
    StepCounted(s, step);
    StepBalanced(s, step);
    StepSlots(s, step);
  }

  lemma {:induction false} RunConserved(s: Sys, steps: seq<Step>, s': Sys)
    requires Conserved(s) && Run(s, steps, s')
    ensures Conserved(s')
    decreases |steps|
  {
    hide Conserved;
    if steps != [] {
      StepConserved(s, steps[0]);
      RunConserved(Next(s, steps[0]), steps[1..], s');
    }
  }

  /** A block handed out belongs to nobody else: it is newly allocated, or it was free, and it
      fits the request's class. */
  lemma HandedOutIsFree(s: Sys, k: nat, stream: nat)
    requires Conserved(s) && Enabled(s, Allocate(k, stream))
    ensures var p := TakenBlock(s.pool, k, |s.slots|).ptr;
            && (p == |s.slots| || (p < |s.slots| && s.slots[p].place.Free? && s.slots[p].cls == k))
            && (p == |s.slots| <==> Bucket(s.pool.free, k) == [])
            && p < |Next(s, Allocate(k, stream)).slots| && Next(s, Allocate(k, stream)).slots[p].place.Live?
  {
    hide Counted, Balanced;
    if Bucket(s.pool.free, k) != [] {
      assert EntryOk(s, k, |Bucket(s.pool.free, k)| - 1);
    }
  }

  // ---------------------------------------------------------------- the end of the pool

  /** Impl dies when the handle is gone and no deleter keeps it alive. */
  predicate ImplDies(s: Sys) {
    !s.handle && s.uncounted == 0 && forall p :: 0 <= p < |s.slots| ==> s.slots[p].place.Free?
  }

  /** How often the destructor's two nested loops free pointer p: over the first n classes. */
  function TimesFreed(free: map<nat, seq<PooledBlock>>, p: nat, n: nat): int {
    if n == 0 then 0 else TimesFreed(free, p, n - 1) + Occurrences(Bucket(free, n - 1), p)
  }

  function Occurrences(bucket: seq<PooledBlock>, p: nat): int {
    if bucket == [] then 0
    else Occurrences(bucket[..|bucket| - 1], p) + if Last(bucket).ptr == p then 1 else 0
  }

  lemma {:induction false} OccursOnce(bucket: seq<PooledBlock>, p: nat)
    requires forall i, j | 0 <= i < j < |bucket| :: bucket[i].ptr != bucket[j].ptr
    ensures Occurrences(bucket, p) == if exists i :: 0 <= i < |bucket| && bucket[i].ptr == p then 1 else 0
    decreases |bucket|
  {
    if bucket != [] {
      var n := |bucket| - 1;
      OccursOnce(bucket[..n], p);
      assert forall i :: 0 <= i < n ==> bucket[..n][i].ptr == bucket[i].ptr;
    }
  }

  lemma {:induction false} FreedInItsClass(s: Sys, p: nat, n: nat)
    requires Filed(s) && p < |s.slots| && s.slots[p].place.Free?
    ensures TimesFreed(s.pool.free, p, n) == if s.slots[p].cls < n then 1 else 0
  {
    if n > 0 {
      FreedInItsClass(s, p, n - 1);
      OccursOnce(Bucket(s.pool.free, n - 1), p);
      if s.slots[p].cls == n - 1 {
        assert InBucket(s, p);
      } else {
        var bucket := Bucket(s.pool.free, n - 1);
        forall i | 0 <= i < |bucket| ensures bucket[i].ptr != p {
          assert EntryOk(s, n - 1, i);
        }
      }
    }
  }

  /** When Impl dies no buffer is outstanding, nothing is in use, and every pointer ever
      allocated is freed exactly once. */
  lemma FreedExactlyOnce(s: Sys, p: nat)
    requires Conserved(s) && ImplDies(s)
    ensures s.pool.outstanding == 0 && s.pool.inUse == 0
    ensures p < |s.slots| ==> TimesFreed(s.pool.free, p, CLASSES) == 1
  {
    hide Balanced;
    AllFreeSum(s.slots, InUse());
    AllFreeSum(s.slots, SizeInUse());
    if p < |s.slots| {
      FreedInItsClass(s, p, CLASSES);
    }
  }

  lemma {:induction false} AllFreeSum(slots: seq<Slot>, weight: Slot -> int)
    requires forall p :: 0 <= p < |slots| ==> weight(slots[p]) == 0
    ensures Sum(slots, weight) == 0
    decreases |slots|
  {
    if slots != [] {
      AllFreeSum(slots[..|slots| - 1], weight);
    }
  }
}
