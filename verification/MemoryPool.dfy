/** The pool as the code keeps it: fields updated in place under the lock.  Each critical section is
    proved to be one step of the transition system, so the invariants hold of the object. */
module MemoryPool {
  import opened Arithmetic
  import opened Wrappers
  import opened PoolModel
  import opened PoolConservation
  import opened PoolOrdering

  // ---------------------------------------------------------------- size classes

  lemma {:induction false} Pow2Monotone(i: nat, j: nat)
    requires i <= j
    ensures Pow2(i) <= Pow2(j)
    decreases j
  {
    if i < j {
      Pow2Monotone(i, j - 1);
    }
  }

  lemma Pow2At55()
    ensures Pow2(55) == 0x80_0000_0000_0000
  {
    assert Pow2(8) == 256;
    assert Pow2(16) == 0x1_0000;
    assert Pow2(24) == 0x100_0000;
    assert Pow2(32) == 0x1_0000_0000;
    assert Pow2(40) == 0x100_0000_0000;
    assert Pow2(48) == 0x1_0000_0000_0000;
  }

  /** k is the least class that holds the request. */
  ghost predicate IsClassOf(bytes: nat, k: nat) {
    ClassSize(k) >= bytes && forall j: nat | ClassSize(j) >= bytes :: k <= j
  }

  /** The doubling loop of round_to_size_class; up to 2^63 bytes the doubling never overflows. */
  method RoundToSizeClass(bytes: nat) returns (sz: int, k: nat)
    requires bytes <= MAX_BYTES
    ensures sz == ClassSize(k) && IsClassOf(bytes, k)
    ensures k < CLASSES && sz <= MAX_BYTES
    ensures sz >= bytes && sz >= 256
    ensures bytes <= 256 ==> sz == 256
    ensures bytes > 256 ==> sz < 2 * bytes
    ensures exists j: nat :: sz == 256 * Pow2(j)
  {
    sz, k := MIN_CLASS, 0;
    while sz < bytes
      invariant sz == ClassSize(k) == 256 * Pow2(k) && (k > 0 ==> ClassSize(k - 1) < bytes)
      invariant sz == 256 || (bytes > 256 && sz < 2 * bytes)
      decreases bytes - sz
    {
      sz := sz * 2;
      k := k + 1;
    }
    Pow2At55();
    if k > 55 {
      Pow2Monotone(55, k - 1);
    }
    Pow2Monotone(k, if k <= 55 then 55 else k);
    forall j: nat | ClassSize(j) >= bytes ensures k <= j {
      if j < k {
        Pow2Monotone(j, k - 1);
      }
    }
  }

  // ---------------------------------------------------------------- the objects

  /** What the pool uses of the CUDA runtime. */
  class Cuda {
    var nextPtr: nat
    var nextEvent: nat
    var queues: nat -> seq<Cmd>

    constructor ()
      ensures nextPtr == 0 && nextEvent == 0 && queues == Initial().queues
    {
      nextPtr, nextEvent, queues := 0, 0, Initial().queues;
    }

    method Malloc() returns (ptr: nat)
      modifies this`nextPtr
      ensures ptr == old(nextPtr) && nextPtr == ptr + 1
    {
      ptr := nextPtr;
      nextPtr := nextPtr + 1;
    }

    method EventCreate() returns (event: nat)
      modifies this`nextEvent
      ensures event == old(nextEvent) && nextEvent == event + 1
    {
      event := nextEvent;
      nextEvent := nextEvent + 1;
    }

    method Enqueue(stream: nat, cmd: Cmd)
      modifies this`queues
      ensures queues == Push(old(queues), stream, cmd)
    {
      queues := Push(queues, stream, cmd);
    }
  }

  class PoolImpl {
    var freeBlocks: map<nat, seq<PooledBlock>>
    var totalReserved: int
    var totalInUse: int
    var outstandingBuffers: int
    const cuda: Cuda
    /** The state of the transition system this object is in. */
    ghost var sys: Sys

    ghost function View(): Pool
      reads this
    {
      Pool(freeBlocks, totalReserved, totalInUse, outstandingBuffers)
    }

    ghost predicate Valid()
      reads this, cuda
    {
      && sys.pool == View()
      && |sys.slots| == cuda.nextPtr && sys.nextEvent == cuda.nextEvent && sys.queues == cuda.queues
      && Conserved(sys) && Ordered(sys)
    }

    constructor (cuda: Cuda)
      requires cuda.nextPtr == 0 && cuda.nextEvent == 0 && cuda.queues == Initial().queues
      ensures Valid() && sys == Initial() && this.cuda == cuda
    {
      freeBlocks, totalReserved, totalInUse, outstandingBuffers := map[], 0, 0, 0;
      this.cuda := cuda;
      hide Conserved, Ordered;
      InitialConserved();
      InitialOrdered();
      sys := Initial();
    }

    method RawAlloc(bytes: int) returns (ptr: nat)
      modifies this`totalReserved, cuda`nextPtr
      ensures ptr == old(cuda.nextPtr) && cuda.nextPtr == ptr + 1
      ensures totalReserved == old(totalReserved) + bytes
    {
      ptr := cuda.Malloc();
      totalReserved := totalReserved + bytes;
    }

    method Preallocate(sizeBytes: nat, count: nat) returns (ghost k: nat)
      requires Valid() && sys.handle && sizeBytes <= MAX_BYTES
      modifies this, cuda
      ensures Valid() && IsClassOf(sizeBytes, k) && k < CLASSES
      ensures sys == Next(old(sys), Step.Preallocate(k, count))
    {
      hide Conserved, Ordered, ClassSize;
      var sz, cls := RoundToSizeClass(sizeBytes);
      k := cls;
      ghost var before := sys;
      freeBlocks := freeBlocks[cls := Bucket(freeBlocks, cls)];
      assert Bucket(before.pool.free, k) + NewBlocks(|before.slots|, 0) == Bucket(before.pool.free, k);
      var i := 0;
      while i < count
        invariant 0 <= i <= count && cls == k
        invariant View() == Preallocated(before.pool, k, |before.slots|, i)
        invariant cuda.nextPtr == |before.slots| + i
        invariant cuda.nextEvent == before.nextEvent && cuda.queues == before.queues && sys == before
      {
        var ptr := RawAlloc(sz);
        freeBlocks := freeBlocks[cls := Bucket(freeBlocks, cls) + [PooledBlock(ptr, None)]];
        PreallocatedOneMore(before.pool, k, |before.slots|, i);
        i := i + 1;
      }
      StepConserved(before, Step.Preallocate(k, count));
      StepOrdered(before, Step.Preallocate(k, count));
      sys := Next(before, Step.Preallocate(k, count));
    }

    /** A buffer's pointer and class; operations on it are to go to the same stream. */
    method Allocate(sizeBytes: nat, stream: nat) returns (ptr: nat, cls: nat)
      requires Valid() && sys.handle && sizeBytes <= MAX_BYTES
      modifies this, cuda
      ensures Valid() && IsClassOf(sizeBytes, cls) && cls < CLASSES
      ensures sys == Next(old(sys), Step.Allocate(cls, stream))
      ensures ptr == TakenBlock(old(sys.pool), cls, old(|sys.slots|)).ptr
      ensures ptr < |sys.slots| && sys.slots[ptr].place == Live && sys.slots[ptr].cls == cls
      ensures old(ptr < |sys.slots| ==> sys.slots[ptr].place == Free)
    {
      hide Conserved, Ordered, ClassSize, IsClassOf, Next;
      var sz;
      sz, cls := RoundToSizeClass(sizeBytes);
      ghost var before := sys;
      AllocateFacts(before, cls, stream);
      var bucket := Bucket(freeBlocks, cls);
      freeBlocks := freeBlocks[cls := bucket];
      if bucket != [] {
        var block := bucket[|bucket| - 1];
        freeBlocks := freeBlocks[cls := bucket[..|bucket| - 1]];
        ptr := block.ptr;
        if block.event.Some? {
          cuda.Enqueue(stream, Wait(block.event.value));
        }
      } else {
        ptr := RawAlloc(sz);
      }
      totalInUse := totalInUse + sz;
      outstandingBuffers := outstandingBuffers + 1;
      sys := Next(before, Step.Allocate(cls, stream));
      assert freeBlocks == sys.pool.free;
    }

    /** First part of the deleter, outside the lock: an event recorded on the buffer's stream. */
    method RecordRelease(ptr: nat, stream: nat) returns (event: nat)
      requires Valid() && Owned(sys, ptr, Live) && stream == Last(sys.slots[ptr].owners).stream
      modifies this`sys, cuda
      ensures Valid() && sys == Next(old(sys), ReleaseRecord(ptr))
      ensures Owned(sys, ptr, Releasing) && Last(sys.slots[ptr].owners).released == Some(event)
    {
      hide Conserved, Ordered;
      ghost var before := sys;
      event := cuda.EventCreate();
      cuda.Enqueue(stream, Record(event));
      StepConserved(before, ReleaseRecord(ptr));
      StepOrdered(before, ReleaseRecord(ptr));
      sys := Next(before, ReleaseRecord(ptr));
    }

    /** Second part, under the lock: the block goes back to its bucket. */
    method ReturnBlock(ptr: nat, cls: nat, event: nat)
      requires Valid() && Owned(sys, ptr, Releasing)
      requires cls == sys.slots[ptr].cls && Last(sys.slots[ptr].owners).released == Some(event)
      modifies this
      ensures Valid() && sys == Next(old(sys), ReleaseReturn(ptr))
    {
      hide Conserved, Ordered;
      ghost var before := sys;
      freeBlocks := freeBlocks[cls := Bucket(freeBlocks, cls) + [PooledBlock(ptr, Some(event))]];
      totalInUse := totalInUse - ClassSize(cls);
      StepConserved(before, ReleaseReturn(ptr));
      StepOrdered(before, ReleaseReturn(ptr));
      sys := Next(before, ReleaseReturn(ptr));
    }

    /** Last part, outside the lock again: the atomic counter. */
    method LowerCounter()
      requires Valid() && sys.uncounted > 0
      modifies this
      ensures Valid() && sys == Next(old(sys), ReleaseCount)
    {
      hide Conserved, Ordered;
      ghost var before := sys;
      outstandingBuffers := outstandingBuffers - 1;
      StepConserved(before, ReleaseCount);
      StepOrdered(before, ReleaseCount);
      sys := Next(before, ReleaseCount);
    }

    /** The whole deleter, with nothing in between: the buffer's block is free, and the counters are
        back to what they were before its allocation. */
    method Release(ptr: nat, cls: nat, stream: nat)
      requires Valid() && Owned(sys, ptr, Live)
      requires cls == sys.slots[ptr].cls && stream == Last(sys.slots[ptr].owners).stream
      modifies this, cuda
      ensures Valid() && ptr < |sys.slots| && sys.slots[ptr].place == Free
      ensures totalInUse == old(totalInUse) - ClassSize(cls) && outstandingBuffers == old(outstandingBuffers) - 1
      ensures totalReserved == old(totalReserved)
      ensures exists event :: Bucket(freeBlocks, cls) == old(Bucket(freeBlocks, cls)) + [PooledBlock(ptr, Some(event))]
    {
      hide Conserved, Ordered, ClassSize;
      var event := RecordRelease(ptr, stream);
      ReturnBlock(ptr, cls, event);
      LowerCounter();
    }

    method BytesInUse() returns (bytes: int)
      requires Valid()
      ensures bytes == Sum(sys.slots, SizeInUse())
    {
      bytes := totalInUse;
    }

    method BytesReserved() returns (bytes: int)
      requires Valid()
      ensures bytes == Sum(sys.slots, Size()) == Sum(sys.slots, SizeInUse()) + FreeBytes(freeBlocks, CLASSES)
    {
      bytes := totalReserved;
    }
  }

  lemma PreallocatedOneMore(pool: Pool, k: nat, first: nat, i: nat)
    ensures Preallocated(pool, k, first, i + 1)
            == Preallocated(pool, k, first, i).(
                 free := Preallocated(pool, k, first, i).free[
                   k := Bucket(Preallocated(pool, k, first, i).free, k) + [PooledBlock(first + i, None)]],
                 reserved := Preallocated(pool, k, first, i).reserved + ClassSize(k))
  {
    hide ClassSize;
    assert NewBlocks(first, i + 1) == NewBlocks(first, i) + [PooledBlock(first + i, None)];
    MulDistributes(i, 1, ClassSize(k));
    var x, y := Preallocated(pool, k, first, i + 1).free, Preallocated(pool, k, first, i).free;
    assert x[k] == y[k] + [PooledBlock(first + i, None)];
    assert x == y[k := y[k] + [PooledBlock(first + i, None)]];
  }

  lemma AllocateFacts(s: Sys, k: nat, stream: nat)
    requires Conserved(s) && Ordered(s) && Enabled(s, Step.Allocate(k, stream))
    ensures var s' := Next(s, Step.Allocate(k, stream));
            && Conserved(s') && Ordered(s')
            && var p := TakenBlock(s.pool, k, |s.slots|).ptr;
            && p < |s'.slots| && s'.slots[p].place.Live? && s'.slots[p].cls == k
            && (p < |s.slots| ==> s.slots[p].place.Free?)
            && |s'.slots| == |s.slots| + (if Bucket(s.pool.free, k) == [] then 1 else 0)
            && s'.pool == Allocated(s.pool, k) && s'.nextEvent == s.nextEvent
            && var block := TakenBlock(s.pool, k, |s.slots|);
            s'.queues == if block.event.Some? then Push(s.queues, stream, Wait(block.event.value)) else s.queues
  {
    hide Conserved, Ordered;
    StepConserved(s, Step.Allocate(k, stream));
    StepOrdered(s, Step.Allocate(k, stream));
    HandedOutIsFree(s, k, stream);
  }
}
