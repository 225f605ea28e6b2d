/** The memory pool and the streams its buffers are used on, as a transition system.

    Host steps are those of any number of threads: each critical section of the pool's mutex is
    one step, and a release is its three separate steps.  Device steps take the head of a stream;
    a wait is taken only after its event has fired. */
module PoolModel {
  import opened Wrappers

  // ---------------------------------------------------------------- size classes

  function Pow2(k: nat): (p: int)
    ensures p >= 1
  {
    if k == 0 then 1 else 2 * Pow2(k - 1)
  }

  const MIN_CLASS := 256
  const MAX_BYTES := 0x8000_0000_0000_0000

  /** Size classes are 256 * 2^k bytes; with sizes up to 2^63 there are 56 of them. */
  const CLASSES := 56

  function ClassSize(k: nat): (bytes: int)
    ensures bytes >= MIN_CLASS
  {
    MIN_CLASS * Pow2(k)
  }

  // ---------------------------------------------------------------- state

  /** A free block and the event of its last release, if it has had an owner. */
  datatype PooledBlock = PooledBlock(ptr: nat, event: Option<nat>)

  /** The fields of MemoryPool::Impl. */
  datatype Pool = Pool(free: map<nat, seq<PooledBlock>>, reserved: int, inUse: int, outstanding: int)

  function Bucket(free: map<nat, seq<PooledBlock>>, k: nat): seq<PooledBlock> { if k in free then free[k] else [] }

  datatype Cmd = Kernel(ptr: nat, owner: nat) | Record(event: nat) | Wait(event: nat)

  /** One buffer: the stream it was allocated for, and the event of its release. */
  datatype Owner = Owner(stream: nat, released: Option<nat>)

  /** Free: in a bucket.  Live: a buffer.  Releasing: its release has recorded the event but not
      yet returned the block. */
  datatype Place = Free | Live | Releasing

  /** The history of one raw-allocated pointer. */
  datatype Slot = Slot(cls: nat, place: Place, owners: seq<Owner>)

  datatype Sys = Sys(
    pool: Pool,
    slots: seq<Slot>,               // by pointer
    uncounted: nat,                 // releases that have returned their block but not yet lowered the counter
    nextEvent: nat,
    queues: nat -> seq<Cmd>,        // by stream: issued and not yet executed
    fired: set<nat>,                // events whose record has executed
    log: seq<Cmd>,                  // kernels executed so far
    handle: bool)                   // the MemoryPool object is alive

  function Initial(): Sys {
    Sys(Pool(map[], 0, 0, 0), [], 0, 0, stream => [], {}, [], true)
  }

  // ---------------------------------------------------------------- what the pool's operations do to its fields

  function NewBlocks(first: nat, count: nat): (blocks: seq<PooledBlock>)
    ensures |blocks| == count
    ensures forall i :: 0 <= i < count ==> blocks[i] == PooledBlock(first + i, None)
  {
    seq(count, i requires 0 <= i => PooledBlock(first + i, None))
  }

  /** preallocate: count raw allocations pushed to the bucket. */
  function Preallocated(pool: Pool, k: nat, first: nat, count: nat): Pool {
    pool.(free := pool.free[k := Bucket(pool.free, k) + NewBlocks(first, count)],
          reserved := pool.reserved + count * ClassSize(k))
  }

  /** allocate: the block on top of the bucket, or a raw allocation when the bucket is empty. */
  function Allocated(pool: Pool, k: nat): Pool {
    var bucket := Bucket(pool.free, k);
    pool.(free := pool.free[k := if bucket == [] then [] else bucket[..|bucket| - 1]],
          reserved := if bucket == [] then pool.reserved + ClassSize(k) else pool.reserved,
          inUse := pool.inUse + ClassSize(k),
          outstanding := pool.outstanding + 1)
  }

  function TakenBlock(pool: Pool, k: nat, newPtr: nat): PooledBlock {
    var bucket := Bucket(pool.free, k);
    if bucket == [] then PooledBlock(newPtr, None) else bucket[|bucket| - 1]
  }

  /** The locked part of the deleter. */
  function Returned(pool: Pool, k: nat, block: PooledBlock): Pool {
    pool.(free := pool.free[k := Bucket(pool.free, k) + [block]], inUse := pool.inUse - ClassSize(k))
  }

  function Uncounted(pool: Pool): Pool { pool.(outstanding := pool.outstanding - 1) }

  // ---------------------------------------------------------------- steps

  datatype Step =
    | Preallocate(cls: nat, count: nat)
    | Allocate(cls: nat, stream: nat)
    | Issue(ptr: nat)
    | ReleaseRecord(ptr: nat)
    | ReleaseReturn(ptr: nat)
    | ReleaseCount
    | Device(stream: nat)
    | DropHandle

  function Last<T>(s: seq<T>): T
    requires s != []
  {
    s[|s| - 1]
  }

  function Push(queues: nat -> seq<Cmd>, stream: nat, cmd: Cmd): nat -> seq<Cmd> {
    (s: nat) => if s == stream then queues(s) + [cmd] else queues(s)
  }

  function Pop(queues: nat -> seq<Cmd>, stream: nat): nat -> seq<Cmd> {
    (s: nat) => if s == stream && queues(s) != [] then queues(s)[1..] else queues(s)
  }

  predicate Owned(s: Sys, p: nat, place: Place) { p < |s.slots| && s.slots[p].place == place && s.slots[p].owners != [] }

  predicate Enabled(s: Sys, step: Step) {
    match step
    case Preallocate(k, _) => s.handle && k < CLASSES
    case Allocate(k, _) => s.handle && k < CLASSES
    case Issue(p) => Owned(s, p, Live)
    case ReleaseRecord(p) => Owned(s, p, Live)
    case ReleaseReturn(p) => Owned(s, p, Releasing)
    case ReleaseCount => s.uncounted > 0
    case Device(stream) =>
      s.queues(stream) != [] && (s.queues(stream)[0].Wait? ==> s.queues(stream)[0].event in s.fired)
    case DropHandle => s.handle
  }

  /** A buffer of class k for a stream: the block's event, if any, is waited for on that stream. */
  function AllocateStep(s: Sys, k: nat, stream: nat): Sys
    requires Enabled(s, Allocate(k, stream))
  {
    var block := TakenBlock(s.pool, k, |s.slots|);
    s.(pool := Allocated(s.pool, k),
       slots := if block.ptr < |s.slots| then
                  s.slots[block.ptr := s.slots[block.ptr].(place := Live, owners := s.slots[block.ptr].owners + [Owner(stream, None)])]
                else s.slots + [Slot(k, Live, [Owner(stream, None)])],
       queues := if block.event.Some? then Push(s.queues, stream, Wait(block.event.value)) else s.queues)
  }

  function WithLastOwner(slot: Slot, owner: Owner): Slot
    requires slot.owners != []
  {
    slot.(owners := slot.owners[|slot.owners| - 1 := owner])
  }

  function Next(s: Sys, step: Step): Sys
    requires Enabled(s, step)
  {
    match step
    case Preallocate(k, count) =>
      s.(pool := Preallocated(s.pool, k, |s.slots|, count), slots := s.slots + seq(count, i => Slot(k, Free, [])))
    case Allocate(k, stream) => AllocateStep(s, k, stream)
    case Issue(p) =>
      var g := |s.slots[p].owners| - 1;
      s.(queues := Push(s.queues, s.slots[p].owners[g].stream, Kernel(p, g)))
    case ReleaseRecord(p) =>
      var owner := Last(s.slots[p].owners);
      s.(slots := s.slots[p := WithLastOwner(s.slots[p], owner.(released := Some(s.nextEvent))).(place := Releasing)],
         queues := Push(s.queues, owner.stream, Record(s.nextEvent)),
         nextEvent := s.nextEvent + 1)
    case ReleaseReturn(p) =>
      s.(pool := Returned(s.pool, s.slots[p].cls, PooledBlock(p, Last(s.slots[p].owners).released)),
         slots := s.slots[p := s.slots[p].(place := Free)],
         uncounted := s.uncounted + 1)
    case ReleaseCount => s.(pool := Uncounted(s.pool), uncounted := s.uncounted - 1)
    case Device(stream) =>
      var cmd := s.queues(stream)[0];
      s.(queues := Pop(s.queues, stream),
         fired := if cmd.Record? then s.fired + {cmd.event} else s.fired,
         log := if cmd.Kernel? then s.log + [cmd] else s.log)
    case DropHandle => s.(handle := false)
  }

  /** s' is reached from s by the steps, each possible when it is taken. */
  ghost predicate Run(s: Sys, steps: seq<Step>, s': Sys)
    decreases |steps|
  {
    if steps == [] then s' == s else Enabled(s, steps[0]) && Run(Next(s, steps[0]), steps[1..], s')
  }
}
