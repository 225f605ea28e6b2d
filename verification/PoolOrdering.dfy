/** Reuse of a block is stream-ordered: on the device, no operation of a later owner of a pointer runs
    before every operation of all its earlier owners, over any streams and any number of owners. */
module PoolOrdering {
  import opened Wrappers
  import opened PoolModel
  import opened PoolConservation

  // ---------------------------------------------------------------- positions in a queue

  ghost predicate Earlier(q: seq<Cmd>, i: int, cmd: Cmd) { exists j :: 0 <= j < i && j < |q| && q[j] == cmd }

  ghost predicate Later(q: seq<Cmd>, i: int, cmd: Cmd) { exists j :: i < j < |q| && 0 <= j && q[j] == cmd }

  predicate At(s: Sys, stream: nat, i: int, cmd: Cmd) { 0 <= i < |s.queues(stream)| && s.queues(stream)[i] == cmd }

  predicate Pending(s: Sys, stream: nat, cmd: Cmd) { cmd in s.queues(stream) }

  predicate IsOwner(s: Sys, p: nat, g: nat) { p < |s.slots| && g < |s.slots[p].owners| }

  function OwnerOf(s: Sys, p: nat, g: nat): Owner
    requires IsOwner(s, p, g)
  {
    s.slots[p].owners[g]
  }

  // ---------------------------------------------------------------- the invariant

  /** Operations of an owner are on its stream, in front of the record of its release. */
  ghost predicate KernelOk(s: Sys, stream: nat, i: int, p: nat, g: nat) {
    && IsOwner(s, p, g) && OwnerOf(s, p, g).stream == stream
    && (OwnerOf(s, p, g).released.Some? ==> Later(s.queues(stream), i, Record(OwnerOf(s, p, g).released.value)))
  }

  ghost predicate KernelsOk(s: Sys) {
    forall stream, i, p, g | At(s, stream, i, Kernel(p, g)) :: KernelOk(s, stream, i, p, g)
  }

  /** A release's event has fired or its record is pending on the owner's stream. */
  ghost predicate ReleaseOk(s: Sys, p: nat, g: nat)
    requires IsOwner(s, p, g)
  {
    var owner := OwnerOf(s, p, g);
    && (owner.released.None? <==> g == |s.slots[p].owners| - 1 && s.slots[p].place.Live?)
    && (owner.released.Some? ==>
          owner.released.value < s.nextEvent
          && (owner.released.value in s.fired || Pending(s, owner.stream, Record(owner.released.value))))
  }

  ghost predicate ReleasesOk(s: Sys) { forall p, g | IsOwner(s, p, g) :: ReleaseOk(s, p, g) }

  /** cmd belongs to owner g of p: an operation, or the record of its release. */
  predicate BelongsTo(s: Sys, p: nat, g: nat, cmd: Cmd)
    requires IsOwner(s, p, g)
  {
    cmd == Kernel(p, g) || (OwnerOf(s, p, g).released.Some? && cmd == Record(OwnerOf(s, p, g).released.value))
  }

  /** While the release of owner g has not fired, everything of owner g+1 is behind a wait for it. */
  ghost predicate HandoverOk(s: Sys, p: nat, g: nat)
    requires IsOwner(s, p, g + 1) && OwnerOf(s, p, g).released.Some?
  {
    var e, next := OwnerOf(s, p, g).released.value, OwnerOf(s, p, g + 1);
    e !in s.fired ==>
      && Pending(s, next.stream, Wait(e))
      && (next.released.Some? ==> next.released.value !in s.fired)
      && (forall i, cmd | At(s, next.stream, i, cmd) && BelongsTo(s, p, g + 1, cmd) ::
            Earlier(s.queues(next.stream), i, Wait(e)))
  }

  ghost predicate HandoversOk(s: Sys) {
    forall p: nat, g: nat | IsOwner(s, p, g + 1) :: OwnerOf(s, p, g).released.Some? && HandoverOk(s, p, g)
  }

  /** Each event is recorded once, and has not fired while its record is pending. */
  ghost predicate EventsOk(s: Sys) {
    && (forall e | e in s.fired :: e < s.nextEvent)
    && (forall stream, i, e: nat | At(s, stream, i, Record(e)) :: e < s.nextEvent && e !in s.fired)
    && (forall stream, i, stream', i', e: nat | At(s, stream, i, Record(e)) && At(s, stream', i', Record(e)) ::
          stream == stream' && i == i')
  }

  /** A pending wait is for an event that has fired or will, and that is older than any record behind it. */
  ghost predicate WaitOk(s: Sys, stream: nat, i: int, e: nat) {
    && e < s.nextEvent
    && (e in s.fired || exists other :: Pending(s, other, Record(e)))
    && (forall j, e' | i < j && At(s, stream, j, Record(e')) :: e < e')
  }

  ghost predicate WaitsOk(s: Sys) { forall stream, i, e | At(s, stream, i, Wait(e)) :: WaitOk(s, stream, i, e) }

  /** The kernels executed so far: per pointer, owners in order, none ahead of what is still pending. */
  ghost predicate LogOk(s: Sys) {
    && (forall j | 0 <= j < |s.log| :: s.log[j].Kernel? && IsOwner(s, s.log[j].ptr, s.log[j].owner))
    && (forall j, stream, i, g | 0 <= j < |s.log| && At(s, stream, i, Kernel(s.log[j].ptr, g)) :: s.log[j].owner <= g)
    && InOwnerOrder(s.log)
  }

  ghost predicate InOwnerOrder(log: seq<Cmd>) {
    forall i, j | 0 <= i < j < |log| && log[i].Kernel? && log[j].Kernel? && log[i].ptr == log[j].ptr ::
      log[i].owner <= log[j].owner
  }

  ghost predicate Ordered(s: Sys) {
    KernelsOk(s) && ReleasesOk(s) && HandoversOk(s) && EventsOk(s) && WaitsOk(s) && LogOk(s)
  }

  lemma InitialOrdered()
    ensures Ordered(Initial())
  {}

  // ---------------------------------------------------------------- why a later owner has to wait

  /** As long as one release has not fired, no later release of the same pointer has. */
  lemma {:induction false} LaterReleasesUnfired(s: Sys, p: nat, g: nat, h: nat)
    requires ReleasesOk(s) && HandoversOk(s) && g <= h && IsOwner(s, p, h + 1) && IsOwner(s, p, g)
    requires OwnerOf(s, p, g).released.Some? && OwnerOf(s, p, g).released.value !in s.fired
    ensures IsOwner(s, p, h) && OwnerOf(s, p, h).released.Some? && OwnerOf(s, p, h).released.value !in s.fired
    decreases h
  {
    if g < h {
      LaterReleasesUnfired(s, p, g, h - 1);
      assert HandoverOk(s, p, h - 1);
      assert IsOwner(s, p, h + 1) && OwnerOf(s, p, h).released.Some?;
    }
  }

  /** An operation at the head of its stream finds none of an earlier owner pending anywhere. */
  lemma HeadIsOldest(s: Sys, stream: nat, p: nat, h: nat, other: nat, i: int, g: nat)
    requires Ordered(s) && At(s, stream, 0, Kernel(p, h)) && At(s, other, i, Kernel(p, g))
    ensures h <= g
  {
    hide EventsOk, WaitsOk, LogOk;
    if g < h {
      assert KernelOk(s, stream, 0, p, h) && KernelOk(s, other, i, p, g);
      assert IsOwner(s, p, g + 1);
      var e := OwnerOf(s, p, g).released.value;
      RecordUnfired(s, other, i, e);
      LaterReleasesUnfired(s, p, g, h - 1);
    }
  }

  lemma RecordUnfired(s: Sys, stream: nat, i: int, e: nat)
    requires EventsOk(s) && Later(s.queues(stream), i, Record(e))
    ensures e !in s.fired
  {
    var j :| i < j < |s.queues(stream)| && 0 <= j && s.queues(stream)[j] == Record(e);
    assert At(s, stream, j, Record(e));
  }

  // ---------------------------------------------------------------- pushing a command

  lemma PushAt(s: Sys, s': Sys, stream: nat, cmd: Cmd, x: nat, i: int, c: Cmd)
    requires s'.queues == Push(s.queues, stream, cmd)
    ensures At(s', x, i, c) <==> At(s, x, i, c) || (x == stream && i == |s.queues(stream)| && c == cmd)
    ensures Pending(s, x, c) ==> Pending(s', x, c)
    ensures forall n, d :: Earlier(s.queues(x), n, d) ==> Earlier(s'.queues(x), n, d)
    ensures forall n, d :: Later(s.queues(x), n, d) ==> Later(s'.queues(x), n, d)
  {
    assert s'.queues(x) == if x == stream then s.queues(x) + [cmd] else s.queues(x);
    PrefixKeeps(s.queues(x), s'.queues(x));
  }

  lemma PrefixKeeps(q: seq<Cmd>, q': seq<Cmd>)
    requires q <= q'
    ensures forall n, d :: Earlier(q, n, d) ==> Earlier(q', n, d)
    ensures forall n, d :: Later(q, n, d) ==> Later(q', n, d)
  {
    forall n, d | Earlier(q, n, d) ensures Earlier(q', n, d) {
      var j :| 0 <= j < n && j < |q| && q[j] == d;
      assert q'[j] == d;
    }
    forall n, d | Later(q, n, d) ensures Later(q', n, d) {
      var j :| n < j < |q| && 0 <= j && q[j] == d;
      assert q'[j] == d;
    }
  }

  // ---------------------------------------------------------------- steps that touch no queue

  /** The owners and their releases are as before. */
  ghost predicate SameOwners(s: Sys, s': Sys) {
    && (forall p, g :: IsOwner(s', p, g) <==> IsOwner(s, p, g))
    && (forall p: nat, g: nat | IsOwner(s, p, g) :: IsOwner(s', p, g) && SameOwner(s, s', p, g))
  }

  predicate SameOwner(s: Sys, s': Sys, p: nat, g: nat)
    requires IsOwner(s, p, g) && IsOwner(s', p, g)
  {
    OwnerOf(s', p, g) == OwnerOf(s, p, g) && |s'.slots[p].owners| == |s.slots[p].owners|
    && (s'.slots[p].place.Live? <==> s.slots[p].place.Live?)
  }

  lemma QuietOrdered(s: Sys, s': Sys)
    requires Ordered(s) && s'.queues == s.queues && s'.fired == s.fired && s'.log == s.log && s'.nextEvent == s.nextEvent
    requires SameOwners(s, s')
    ensures Ordered(s')
  {
    forall stream, i, p, g | At(s', stream, i, Kernel(p, g)) ensures KernelOk(s', stream, i, p, g) {
      assert At(s, stream, i, Kernel(p, g)) && KernelOk(s, stream, i, p, g);
      assert SameOwner(s, s', p, g);
    }
    forall p, g | IsOwner(s', p, g) ensures ReleaseOk(s', p, g) {
      assert ReleaseOk(s, p, g) && SameOwner(s, s', p, g);
    }
    forall p: nat, g: nat | IsOwner(s', p, g + 1) ensures OwnerOf(s', p, g).released.Some? && HandoverOk(s', p, g) {
      assert IsOwner(s, p, g + 1) && IsOwner(s, p, g) && SameOwner(s, s', p, g) && SameOwner(s, s', p, g + 1);
      QuietHandover(s, s', p, g);
    }
    QuietEvents(s, s');
    QuietLog(s, s');
  }

  lemma QuietEvents(s: Sys, s': Sys)
    requires EventsOk(s) && WaitsOk(s) && s'.queues == s.queues && s'.fired == s.fired && s'.nextEvent == s.nextEvent
    ensures EventsOk(s') && WaitsOk(s')
  {
    forall stream, i, e: nat | At(s', stream, i, Record(e)) ensures At(s, stream, i, Record(e)) {}
    forall stream, i, e: nat | At(s', stream, i, Wait(e)) ensures WaitOk(s', stream, i, e) {
      assert At(s, stream, i, Wait(e)) && WaitOk(s, stream, i, e);
      forall other | Pending(s, other, Record(e)) ensures Pending(s', other, Record(e)) {}
      forall j, e': nat | i < j && At(s', stream, j, Record(e')) ensures At(s, stream, j, Record(e')) {}
    }
  }

  lemma QuietLog(s: Sys, s': Sys)
    requires LogOk(s) && s'.queues == s.queues && s'.log == s.log
    requires forall p, g :: IsOwner(s, p, g) ==> IsOwner(s', p, g)
    ensures LogOk(s')
  {
    forall j, stream, i, g | 0 <= j < |s'.log| && At(s', stream, i, Kernel(s'.log[j].ptr, g)) ensures s'.log[j].owner <= g {
      assert At(s, stream, i, Kernel(s.log[j].ptr, g));
    }
  }

  lemma QuietHandover(s: Sys, s': Sys, p: nat, g: nat)
    requires HandoversOk(s) && s'.queues == s.queues && s'.fired == s.fired
    requires IsOwner(s, p, g + 1) && IsOwner(s', p, g + 1)
    requires OwnerOf(s', p, g) == OwnerOf(s, p, g) && OwnerOf(s', p, g + 1) == OwnerOf(s, p, g + 1)
    ensures OwnerOf(s', p, g).released.Some? && HandoverOk(s', p, g)
  {
    assert OwnerOf(s, p, g).released.Some? && HandoverOk(s, p, g);
    var e, next := OwnerOf(s, p, g).released.value, OwnerOf(s, p, g + 1);
    if e !in s.fired {
      forall i, cmd | At(s', next.stream, i, cmd) && BelongsTo(s', p, g + 1, cmd)
        ensures Earlier(s'.queues(next.stream), i, Wait(e))
      {
        assert At(s, next.stream, i, cmd) && BelongsTo(s, p, g + 1, cmd);
      }
    }
  }

  // ---------------------------------------------------------------- an operation is issued

  lemma IssueKernels(s: Sys, p: nat)
    requires Ordered(s) && Enabled(s, Issue(p))
    ensures KernelsOk(Next(s, Issue(p))) && ReleasesOk(Next(s, Issue(p)))
  {
    hide EventsOk, WaitsOk, LogOk, HandoversOk;
    var s' := Next(s, Issue(p));
    var g0 := |s.slots[p].owners| - 1;
    var stream0 := OwnerOf(s, p, g0).stream;
    assert IsOwner(s, p, g0) && ReleaseOk(s, p, g0);
    forall stream, i, q, g | At(s', stream, i, Kernel(q, g)) ensures KernelOk(s', stream, i, q, g) {
      PushAt(s, s', stream0, Kernel(p, g0), stream, i, Kernel(q, g));
      assert At(s, stream, i, Kernel(q, g)) ==> KernelOk(s, stream, i, q, g);
    }
    forall q, g | IsOwner(s', q, g) ensures ReleaseOk(s', q, g) {
      assert ReleaseOk(s, q, g);
      var owner := OwnerOf(s, q, g);
      if owner.released.Some? {
        PushAt(s, s', stream0, Kernel(p, g0), owner.stream, 0, Record(owner.released.value));
      }
    }
  }

  lemma IssueHandovers(s: Sys, p: nat)
    requires Ordered(s) && Enabled(s, Issue(p))
    ensures HandoversOk(Next(s, Issue(p)))
  {
    hide EventsOk, WaitsOk, LogOk, KernelsOk;
    var s' := Next(s, Issue(p));
    var g0 := |s.slots[p].owners| - 1;
    var stream0 := OwnerOf(s, p, g0).stream;
    forall q: nat, g: nat | IsOwner(s', q, g + 1) ensures OwnerOf(s', q, g).released.Some? && HandoverOk(s', q, g) {
      assert OwnerOf(s, q, g).released.Some? && HandoverOk(s, q, g);
      var e, next := OwnerOf(s, q, g).released.value, OwnerOf(s, q, g + 1);
      if e !in s.fired {
        PushAt(s, s', stream0, Kernel(p, g0), next.stream, 0, Wait(e));
        forall i, cmd | At(s', next.stream, i, cmd) && BelongsTo(s', q, g + 1, cmd)
          ensures Earlier(s'.queues(next.stream), i, Wait(e))
        {
          PushAt(s, s', stream0, Kernel(p, g0), next.stream, i, cmd);
          if !At(s, next.stream, i, cmd) {
            PendingIsEarlier(s, s', next.stream, i, Wait(e));
          }
        }
      }
    }
  }

  /** Whatever is pending is in front of a command appended now. */
  lemma PendingIsEarlier(s: Sys, s': Sys, stream: nat, i: int, cmd: Cmd)
    requires Pending(s, stream, cmd) && i == |s.queues(stream)| && s.queues(stream) <= s'.queues(stream)
    ensures Earlier(s'.queues(stream), i, cmd)
  {
    var j :| 0 <= j < |s.queues(stream)| && s.queues(stream)[j] == cmd;
    assert s'.queues(stream)[j] == cmd;
  }

  /** Pushing anything but a record keeps the events, the waits already there and the log. */
  lemma PushEvents(s: Sys, s': Sys, stream0: nat, cmd: Cmd)
    requires EventsOk(s) && s'.queues == Push(s.queues, stream0, cmd) && !cmd.Record?
    requires s'.fired == s.fired && s'.nextEvent == s.nextEvent
    ensures EventsOk(s')
  {
    forall stream, i, e | At(s', stream, i, Record(e)) ensures At(s, stream, i, Record(e)) {
      PushAt(s, s', stream0, cmd, stream, i, Record(e));
    }
  }

  lemma PushWaits(s: Sys, s': Sys, stream0: nat, cmd: Cmd)
    requires WaitsOk(s) && s'.queues == Push(s.queues, stream0, cmd) && !cmd.Record?
    requires s'.fired == s.fired && s'.nextEvent == s.nextEvent
    requires cmd.Wait? ==> cmd.event < s.nextEvent
                           && (cmd.event in s.fired || exists other :: Pending(s, other, Record(cmd.event)))
    ensures WaitsOk(s')
  {
    forall stream, i, e: nat | At(s', stream, i, Wait(e)) ensures WaitOk(s', stream, i, e) {
      PushAt(s, s', stream0, cmd, stream, i, Wait(e));
      forall other | Pending(s, other, Record(e)) ensures Pending(s', other, Record(e)) {
        PushAt(s, s', stream0, cmd, other, i, Record(e));
      }
      forall j, e' | i < j && At(s', stream, j, Record(e')) ensures e < e' {
        PushAt(s, s', stream0, cmd, stream, j, Record(e'));
        assert At(s, stream, i, Wait(e)) && WaitOk(s, stream, i, e);
      }
      assert At(s, stream, i, Wait(e)) ==> WaitOk(s, stream, i, e);
    }
  }

  lemma IssueLog(s: Sys, p: nat)
    requires Ordered(s) && Enabled(s, Issue(p))
    ensures LogOk(Next(s, Issue(p)))
  {
    hide EventsOk, WaitsOk, HandoversOk, KernelsOk;
    var s' := Next(s, Issue(p));
    var g0 := |s.slots[p].owners| - 1;
    var stream0 := OwnerOf(s, p, g0).stream;
    forall j, stream, i, g | 0 <= j < |s'.log| && At(s', stream, i, Kernel(s'.log[j].ptr, g)) ensures s'.log[j].owner <= g {
      PushAt(s, s', stream0, Kernel(p, g0), stream, i, Kernel(s'.log[j].ptr, g));
      assert IsOwner(s, s.log[j].ptr, s.log[j].owner);
    }
  }

  lemma IssueOrdered(s: Sys, p: nat)
    requires Ordered(s) && Enabled(s, Issue(p))
    ensures Ordered(Next(s, Issue(p)))
  {
    var s' := Next(s, Issue(p));
    var g0 := |s.slots[p].owners| - 1;
    var stream0 := OwnerOf(s, p, g0).stream;
    hide EventsOk, WaitsOk, HandoversOk, KernelsOk, ReleasesOk, LogOk;
    IssueKernels(s, p);
    IssueHandovers(s, p);
    IssueLog(s, p);
    PushEvents(s, s', stream0, Kernel(p, g0));
    PushWaits(s, s', stream0, Kernel(p, g0));
  }

  // ---------------------------------------------------------------- a release records its event

  /** After the record step: the same owners, except that the last owner of p is released. */
  lemma RecordOwners(s: Sys, p: nat, q: nat, g: nat)
    requires Enabled(s, ReleaseRecord(p))
    ensures var s' := Next(s, ReleaseRecord(p));
            && (IsOwner(s', q, g) <==> IsOwner(s, q, g))
            && (IsOwner(s, q, g) ==>
                  && OwnerOf(s', q, g).stream == OwnerOf(s, q, g).stream
                  && |s'.slots[q].owners| == |s.slots[q].owners|
                  && OwnerOf(s', q, g).released ==
                     (if q == p && g == |s.slots[p].owners| - 1 then Some(s.nextEvent) else OwnerOf(s, q, g).released)
                  && (q != p ==> s'.slots[q] == s.slots[q]) && !s'.slots[p].place.Live?)
  {}

  lemma RecordKernels(s: Sys, p: nat)
    requires Ordered(s) && Enabled(s, ReleaseRecord(p))
    ensures KernelsOk(Next(s, ReleaseRecord(p)))
  {
    hide EventsOk, WaitsOk, LogOk, HandoversOk, ReleasesOk;
    var s' := Next(s, ReleaseRecord(p));
    var stream0 := Last(s.slots[p].owners).stream;
    forall stream, i, q, g | At(s', stream, i, Kernel(q, g)) ensures KernelOk(s', stream, i, q, g) {
      PushAt(s, s', stream0, Record(s.nextEvent), stream, i, Kernel(q, g));
      assert At(s, stream, i, Kernel(q, g)) && KernelOk(s, stream, i, q, g);
      RecordOwners(s, p, q, g);
      if q == p && g == |s.slots[p].owners| - 1 {
        assert s'.queues(stream)[|s.queues(stream)|] == Record(s.nextEvent);
      }
    }
  }

  lemma RecordReleases(s: Sys, p: nat)
    requires Ordered(s) && Enabled(s, ReleaseRecord(p))
    ensures ReleasesOk(Next(s, ReleaseRecord(p)))
  {
    hide EventsOk, WaitsOk, LogOk, HandoversOk, KernelsOk;
    var s' := Next(s, ReleaseRecord(p));
    var stream0 := Last(s.slots[p].owners).stream;
    forall q, g | IsOwner(s', q, g) ensures ReleaseOk(s', q, g) {
      RecordOwners(s, p, q, g);
      assert ReleaseOk(s, q, g);
      var owner := OwnerOf(s', q, g);
      if owner.released.Some? {
        PushAt(s, s', stream0, Record(s.nextEvent), owner.stream, |s.queues(stream0)|, Record(owner.released.value));
      }
    }
  }

  lemma RecordHandovers(s: Sys, p: nat)
    requires Ordered(s) && Enabled(s, ReleaseRecord(p))
    ensures HandoversOk(Next(s, ReleaseRecord(p)))
  {
    hide WaitsOk, LogOk, KernelsOk;
    var s' := Next(s, ReleaseRecord(p));
    forall q: nat, g: nat | IsOwner(s', q, g + 1) ensures OwnerOf(s', q, g).released.Some? && HandoverOk(s', q, g) {
      RecordOwners(s, p, q, g);
      RecordOwners(s, p, q, g + 1);
      assert OwnerOf(s, q, g).released.Some? && HandoverOk(s, q, g) && ReleaseOk(s, q, g + 1);
      if OwnerOf(s, q, g).released.value !in s.fired {
        RecordHandover(s, p, q, g);
      }
    }
  }

  lemma RecordHandover(s: Sys, p: nat, q: nat, g: nat)
    requires Enabled(s, ReleaseRecord(p)) && IsOwner(s, q, g + 1) && EventsOk(s) && ReleaseOk(s, q, g + 1)
    requires OwnerOf(s, q, g).released.Some? && HandoverOk(s, q, g) && OwnerOf(s, q, g).released.value !in s.fired
    ensures var s' := Next(s, ReleaseRecord(p));
            IsOwner(s', q, g + 1) && OwnerOf(s', q, g) == OwnerOf(s, q, g) && HandoverOk(s', q, g)
  {
    var s' := Next(s, ReleaseRecord(p));
    var stream0 := Last(s.slots[p].owners).stream;
    RecordOwners(s, p, q, g);
    RecordOwners(s, p, q, g + 1);
    var e, next := OwnerOf(s, q, g).released.value, OwnerOf(s', q, g + 1);
    PushAt(s, s', stream0, Record(s.nextEvent), next.stream, 0, Wait(e));
    forall i, cmd | At(s', next.stream, i, cmd) && BelongsTo(s', q, g + 1, cmd)
      ensures Earlier(s'.queues(next.stream), i, Wait(e))
    {
      PushAt(s, s', stream0, Record(s.nextEvent), next.stream, i, cmd);
      if At(s, next.stream, i, cmd) {
        assert cmd != Record(s.nextEvent);
        assert BelongsTo(s, q, g + 1, cmd);
      } else {
        PendingIsEarlier(s, s', next.stream, i, Wait(e));
      }
    }
  }

  lemma RecordEvents(s: Sys, p: nat)
    requires Ordered(s) && Enabled(s, ReleaseRecord(p))
    ensures EventsOk(Next(s, ReleaseRecord(p)))
  {
    hide WaitsOk, LogOk, KernelsOk, HandoversOk, ReleasesOk;
    var s' := Next(s, ReleaseRecord(p));
    var stream0 := Last(s.slots[p].owners).stream;
    forall stream, i, e: nat | At(s', stream, i, Record(e))
      ensures At(s, stream, i, Record(e)) || (stream == stream0 && i == |s.queues(stream0)| && e == s.nextEvent)
    {
      PushAt(s, s', stream0, Record(s.nextEvent), stream, i, Record(e));
    }
  }

  lemma RecordWaits(s: Sys, p: nat)
    requires Ordered(s) && Enabled(s, ReleaseRecord(p))
    ensures WaitsOk(Next(s, ReleaseRecord(p)))
  {
    hide EventsOk, LogOk, KernelsOk, HandoversOk, ReleasesOk;
    var s' := Next(s, ReleaseRecord(p));
    var stream0 := Last(s.slots[p].owners).stream;
    forall stream, i, e: nat | At(s', stream, i, Wait(e)) ensures WaitOk(s', stream, i, e) {
      PushAt(s, s', stream0, Record(s.nextEvent), stream, i, Wait(e));
      assert At(s, stream, i, Wait(e)) && WaitOk(s, stream, i, e);
      forall other | Pending(s, other, Record(e)) ensures Pending(s', other, Record(e)) {
        PushAt(s, s', stream0, Record(s.nextEvent), other, i, Record(e));
      }
      forall j, e': nat | i < j && At(s', stream, j, Record(e')) ensures e < e' {
        PushAt(s, s', stream0, Record(s.nextEvent), stream, j, Record(e'));
      }
    }
  }

  lemma RecordLog(s: Sys, p: nat)
    requires Ordered(s) && Enabled(s, ReleaseRecord(p))
    ensures LogOk(Next(s, ReleaseRecord(p)))
  {
    hide EventsOk, WaitsOk, KernelsOk, HandoversOk, ReleasesOk;
    var s' := Next(s, ReleaseRecord(p));
    var stream0 := Last(s.slots[p].owners).stream;
    forall j | 0 <= j < |s'.log| ensures s'.log[j].Kernel? && IsOwner(s', s'.log[j].ptr, s'.log[j].owner) {
      RecordOwners(s, p, s.log[j].ptr, s.log[j].owner);
    }
    forall j, stream, i, g | 0 <= j < |s'.log| && At(s', stream, i, Kernel(s'.log[j].ptr, g)) ensures s'.log[j].owner <= g {
      PushAt(s, s', stream0, Record(s.nextEvent), stream, i, Kernel(s'.log[j].ptr, g));
    }
  }

  lemma RecordOrdered(s: Sys, p: nat)
    requires Ordered(s) && Enabled(s, ReleaseRecord(p))
    ensures Ordered(Next(s, ReleaseRecord(p)))
  {
    hide EventsOk, WaitsOk, HandoversOk, KernelsOk, ReleasesOk, LogOk, Next;
    RecordKernels(s, p);
    RecordReleases(s, p);
    RecordHandovers(s, p);
    RecordEvents(s, p);
    RecordWaits(s, p);
    RecordLog(s, p);
  }

  // ---------------------------------------------------------------- a block gets a new owner

  /** The new owner of a reused block comes after a released one, whose event the new stream waits for. */
  ghost predicate Handover(s: Sys, k: nat, stream: nat, s': Sys, p: nat) {
    && Enabled(s, Allocate(k, stream)) && s' == AllocateStep(s, k, stream) && p == TakenBlock(s.pool, k, |s.slots|).ptr
    && s'.fired == s.fired && s'.nextEvent == s.nextEvent && s'.log == s.log
    && p < |s'.slots| && s'.slots[p].place.Live?
    && s'.slots[p].owners == (if p < |s.slots| then s.slots[p].owners else []) + [Owner(stream, None)]
    && (p < |s.slots| ==> !s.slots[p].place.Live?)
    && (forall q | 0 <= q < |s.slots| && q != p :: q < |s'.slots| && s'.slots[q] == s.slots[q])
    && |s'.slots| == (if p < |s.slots| then |s.slots| else p + 1) && p <= |s.slots|
    && (if p < |s.slots| && s.slots[p].owners != [] && Last(s.slots[p].owners).released.Some?
        then s'.queues == Push(s.queues, stream, Wait(Last(s.slots[p].owners).released.value))
        else s'.queues == s.queues && (p < |s.slots| ==> s.slots[p].owners == []))
  }

  lemma AllocateHandsOver(s: Sys, k: nat, stream: nat)
    requires Conserved(s) && Ordered(s) && Enabled(s, Allocate(k, stream))
    ensures Handover(s, k, stream, AllocateStep(s, k, stream), TakenBlock(s.pool, k, |s.slots|).ptr)
  {
    hide Counted, Balanced, EventsOk, WaitsOk, HandoversOk, KernelsOk, LogOk;
    var bucket := Bucket(s.pool.free, k);
    if bucket != [] {
      assert EntryOk(s, k, |bucket| - 1);
      var p := bucket[|bucket| - 1].ptr;
      if s.slots[p].owners != [] {
        assert IsOwner(s, p, |s.slots[p].owners| - 1) && ReleaseOk(s, p, |s.slots[p].owners| - 1);
      }
    }
  }

  lemma HandoverOwners(s: Sys, k: nat, stream: nat, s': Sys, p: nat, q: nat, g: nat)
    requires Handover(s, k, stream, s', p)
    ensures IsOwner(s, q, g) ==> IsOwner(s', q, g) && OwnerOf(s', q, g) == OwnerOf(s, q, g)
    ensures IsOwner(s', q, g) ==> IsOwner(s, q, g) || (q == p && g == |s'.slots[p].owners| - 1)
    ensures q == p && g == |s'.slots[p].owners| - 1 ==> IsOwner(s', q, g) && OwnerOf(s', q, g) == Owner(stream, None)
                                                        && !IsOwner(s, q, g)
  {}

  /** Whatever was queued still is, and what is new is at most the wait. */
  lemma HandoverAt(s: Sys, k: nat, stream: nat, s': Sys, p: nat, x: nat, i: int, c: Cmd)
    requires Handover(s, k, stream, s', p)
    ensures At(s, x, i, c) ==> At(s', x, i, c)
    ensures At(s', x, i, c) ==> At(s, x, i, c) || c.Wait?
    ensures At(s', x, i, c) && !At(s, x, i, c) ==>
              x == stream && i == |s.queues(stream)|
              && p < |s.slots| && s.slots[p].owners != [] && Last(s.slots[p].owners).released == Some(c.event)
    ensures Pending(s, x, c) ==> Pending(s', x, c)
    ensures forall n, d :: Earlier(s.queues(x), n, d) ==> Earlier(s'.queues(x), n, d)
    ensures forall n, d :: Later(s.queues(x), n, d) ==> Later(s'.queues(x), n, d)
  {
    if p < |s.slots| && s.slots[p].owners != [] {
      var cmd := Wait(Last(s.slots[p].owners).released.value);
      PushAt(s, s', stream, cmd, x, i, c);
    } else {
      assert s'.queues(x) == s.queues(x);
    }
  }

  lemma AllocateKernels(s: Sys, k: nat, stream: nat, s': Sys, p: nat)
    requires Ordered(s) && Handover(s, k, stream, s', p)
    ensures KernelsOk(s') && ReleasesOk(s')
  {
    hide EventsOk, WaitsOk, LogOk, HandoversOk, Handover;
    forall x, i, q, g | At(s', x, i, Kernel(q, g)) ensures KernelOk(s', x, i, q, g) {
      HandoverAt(s, k, stream, s', p, x, i, Kernel(q, g));
      assert At(s, x, i, Kernel(q, g)) && KernelOk(s, x, i, q, g);
      HandoverOwners(s, k, stream, s', p, q, g);
    }
    forall q, g | IsOwner(s', q, g) ensures ReleaseOk(s', q, g) {
      AllocateRelease(s, k, stream, s', p, q, g);
    }
  }

  lemma AllocateRelease(s: Sys, k: nat, stream: nat, s': Sys, p: nat, q: nat, g: nat)
    requires ReleasesOk(s) && Handover(s, k, stream, s', p) && IsOwner(s', q, g)
    ensures ReleaseOk(s', q, g)
  {
    HandoverOwners(s, k, stream, s', p, q, g);
    if IsOwner(s, q, g) {
      assert ReleaseOk(s, q, g);
      var owner := OwnerOf(s, q, g);
      if owner.released.Some? {
        HandoverAt(s, k, stream, s', p, owner.stream, 0, Record(owner.released.value));
      }
    }
  }

  lemma AllocateHandovers(s: Sys, k: nat, stream: nat, s': Sys, p: nat)
    requires Ordered(s) && Handover(s, k, stream, s', p)
    ensures HandoversOk(s')
  {
    hide EventsOk, WaitsOk, LogOk, Handover;
    forall q: nat, g: nat | IsOwner(s', q, g + 1) ensures OwnerOf(s', q, g).released.Some? && HandoverOk(s', q, g) {
      HandoverOwners(s, k, stream, s', p, q, g + 1);
      if IsOwner(s, q, g + 1) {
        OldHandover(s, k, stream, s', p, q, g);
      } else {
        NewHandover(s, k, stream, s', p, g);
      }
    }
  }

  lemma OldHandover(s: Sys, k: nat, stream: nat, s': Sys, p: nat, q: nat, g: nat)
    requires HandoversOk(s) && Handover(s, k, stream, s', p) && IsOwner(s, q, g + 1)
    ensures IsOwner(s', q, g + 1) && OwnerOf(s', q, g).released.Some? && HandoverOk(s', q, g)
  {
    HandoverOwners(s, k, stream, s', p, q, g);
    HandoverOwners(s, k, stream, s', p, q, g + 1);
    assert OwnerOf(s, q, g).released.Some? && HandoverOk(s, q, g);
    var e, next := OwnerOf(s, q, g).released.value, OwnerOf(s, q, g + 1);
    if e !in s.fired {
      HandoverAt(s, k, stream, s', p, next.stream, 0, Wait(e));
      forall i, cmd | At(s', next.stream, i, cmd) && BelongsTo(s', q, g + 1, cmd)
        ensures Earlier(s'.queues(next.stream), i, Wait(e))
      {
        HandoverAt(s, k, stream, s', p, next.stream, i, cmd);
        assert At(s, next.stream, i, cmd) && BelongsTo(s, q, g + 1, cmd);
      }
    }
  }

  lemma NewHandover(s: Sys, k: nat, stream: nat, s': Sys, p: nat, g: nat)
    requires ReleasesOk(s) && KernelsOk(s) && Handover(s, k, stream, s', p) && g + 1 == |s'.slots[p].owners| - 1
    ensures IsOwner(s', p, g + 1) && OwnerOf(s', p, g).released.Some? && HandoverOk(s', p, g)
  {
    assert IsOwner(s, p, g) && ReleaseOk(s, p, g);
    HandoverOwners(s, k, stream, s', p, p, g);
    HandoverOwners(s, k, stream, s', p, p, g + 1);
    var e := OwnerOf(s, p, g).released.value;
    assert s'.queues(stream)[|s.queues(stream)|] == Wait(e);
    forall i, cmd | At(s', stream, i, cmd) ensures !BelongsTo(s', p, g + 1, cmd) {
      if cmd == Kernel(p, g + 1) {
        HandoverAt(s, k, stream, s', p, stream, i, cmd);
      }
    }
  }

  lemma AllocateRest(s: Sys, k: nat, stream: nat, s': Sys, p: nat)
    requires Ordered(s) && Handover(s, k, stream, s', p)
    ensures EventsOk(s') && WaitsOk(s') && LogOk(s')
  {
    if p < |s.slots| && s.slots[p].owners != [] {
      var e := Last(s.slots[p].owners).released.value;
      assert IsOwner(s, p, |s.slots[p].owners| - 1) && ReleaseOk(s, p, |s.slots[p].owners| - 1);
      hide KernelsOk, HandoversOk, ReleasesOk, EventsOk, WaitsOk, LogOk, WaitOk;
      PushEvents(s, s', stream, Wait(e));
      PushWaits(s, s', stream, Wait(e));
    } else {
      QuietEvents(s, s');
    }
    AllocateLog(s, k, stream, s', p);
  }

  lemma AllocateLog(s: Sys, k: nat, stream: nat, s': Sys, p: nat)
    requires LogOk(s) && Handover(s, k, stream, s', p)
    ensures LogOk(s')
  {
    forall j | 0 <= j < |s'.log| ensures s'.log[j].Kernel? && IsOwner(s', s'.log[j].ptr, s'.log[j].owner) {
      HandoverOwners(s, k, stream, s', p, s.log[j].ptr, s.log[j].owner);
    }
    forall j, x, i, g | 0 <= j < |s'.log| && At(s', x, i, Kernel(s'.log[j].ptr, g)) ensures s'.log[j].owner <= g {
      HandoverAt(s, k, stream, s', p, x, i, Kernel(s'.log[j].ptr, g));
    }
  }

  lemma AllocateOrdered(s: Sys, k: nat, stream: nat)
    requires Conserved(s) && Ordered(s) && Enabled(s, Allocate(k, stream))
    ensures Ordered(Next(s, Allocate(k, stream)))
  {
    hide Conserved, EventsOk, WaitsOk, HandoversOk, KernelsOk, ReleasesOk, LogOk, AllocateStep;
    var s' := AllocateStep(s, k, stream);
    var p := TakenBlock(s.pool, k, |s.slots|).ptr;
    AllocateHandsOver(s, k, stream);
    AllocateKernels(s, k, stream, s', p);
    AllocateHandovers(s, k, stream, s', p);
    AllocateRest(s, k, stream, s', p);
  }

  // ---------------------------------------------------------------- the device takes a command

  /** Queues after a device step, by position. */
  lemma PopAt(s: Sys, stream: nat, x: nat, i: int, c: Cmd)
    requires Enabled(s, Device(stream))
    ensures var s' := Next(s, Device(stream));
            At(s', x, i, c) <==> i >= 0 && At(s, x, if x == stream then i + 1 else i, c)
  {}

  function Shifted(stream: nat, x: nat, i: int): int { if x == stream then i + 1 else i }

  lemma PopLater(s: Sys, stream: nat, x: nat, i: int, c: Cmd)
    requires Enabled(s, Device(stream)) && i >= 0 && Later(s.queues(x), Shifted(stream, x, i), c)
    ensures Later(Next(s, Device(stream)).queues(x), i, c)
  {
    var j :| Shifted(stream, x, i) < j < |s.queues(x)| && 0 <= j && s.queues(x)[j] == c;
    assert Next(s, Device(stream)).queues(x)[if x == stream then j - 1 else j] == c;
  }

  /** What was in front is still in front, unless it is the very command taken. */
  lemma PopEarlier(s: Sys, stream: nat, x: nat, i: int, c: Cmd)
    requires Enabled(s, Device(stream)) && i >= 0 && Earlier(s.queues(x), Shifted(stream, x, i), c)
    requires c != s.queues(stream)[0]
    ensures Earlier(Next(s, Device(stream)).queues(x), i, c)
  {
    var j :| 0 <= j < Shifted(stream, x, i) && j < |s.queues(x)| && s.queues(x)[j] == c;
    assert Next(s, Device(stream)).queues(x)[if x == stream then j - 1 else j] == c;
  }

  lemma PopPending(s: Sys, stream: nat, x: nat, c: Cmd)
    requires Enabled(s, Device(stream)) && Pending(s, x, c) && c != s.queues(stream)[0]
    ensures Pending(Next(s, Device(stream)), x, c)
  {
    var j :| 0 <= j < |s.queues(x)| && s.queues(x)[j] == c;
    assert Next(s, Device(stream)).queues(x)[if x == stream then j - 1 else j] == c;
  }

  lemma DeviceKernels(s: Sys, stream: nat)
    requires Ordered(s) && Enabled(s, Device(stream))
    ensures KernelsOk(Next(s, Device(stream))) && ReleasesOk(Next(s, Device(stream)))
  {
    hide EventsOk, WaitsOk, LogOk, HandoversOk;
    var s' := Next(s, Device(stream));
    forall x, i, q, g | At(s', x, i, Kernel(q, g)) ensures KernelOk(s', x, i, q, g) {
      PopAt(s, stream, x, i, Kernel(q, g));
      assert KernelOk(s, x, Shifted(stream, x, i), q, g);
      if OwnerOf(s, q, g).released.Some? {
        PopLater(s, stream, x, i, Record(OwnerOf(s, q, g).released.value));
      }
    }
    forall q, g | IsOwner(s', q, g) ensures ReleaseOk(s', q, g) {
      assert ReleaseOk(s, q, g);
      var owner := OwnerOf(s, q, g);
      if owner.released.Some? && owner.released.value !in s'.fired {
        PopPending(s, stream, owner.stream, Record(owner.released.value));
      }
    }
  }

  /** A record that is executed belongs to an owner whose predecessors' releases have fired. */
  lemma FiresInOrder(s: Sys, stream: nat, q: nat, g: nat)
    requires Ordered(s) && Enabled(s, Device(stream)) && IsOwner(s, q, g + 1)
    requires OwnerOf(s, q, g).released.Some? && OwnerOf(s, q, g).released.value !in s.fired
    requires OwnerOf(s, q, g + 1).released.Some?
    ensures OwnerOf(s, q, g + 1).released.value !in Next(s, Device(stream)).fired
  {
    hide WaitsOk, LogOk, KernelsOk;
    var next := OwnerOf(s, q, g + 1);
    assert HandoverOk(s, q, g) && ReleaseOk(s, q, g + 1);
    var e := next.released.value;
    if s.queues(stream)[0] == Record(e) {
      assert BelongsTo(s, q, g + 1, Record(e));
      RecordAtHead(s, stream, next.stream, e);
    }
  }

  lemma RecordAtHead(s: Sys, stream: nat, other: nat, e: nat)
    requires EventsOk(s) && At(s, stream, 0, Record(e)) && (e in s.fired || Pending(s, other, Record(e)))
    ensures At(s, other, 0, Record(e))
  {
    var j :| 0 <= j < |s.queues(other)| && s.queues(other)[j] == Record(e);
    assert At(s, other, j, Record(e));
  }

  lemma DeviceHandovers(s: Sys, stream: nat)
    requires Ordered(s) && Enabled(s, Device(stream))
    ensures HandoversOk(Next(s, Device(stream)))
  {
    hide EventsOk, WaitsOk, LogOk, KernelsOk, ReleasesOk;
    var s' := Next(s, Device(stream));
    forall q: nat, g: nat | IsOwner(s', q, g + 1) ensures OwnerOf(s', q, g).released.Some? && HandoverOk(s', q, g) {
      assert IsOwner(s, q, g + 1) && OwnerOf(s, q, g).released.Some? && HandoverOk(s, q, g);
      if OwnerOf(s, q, g).released.value !in s'.fired {
        DeviceHandover(s, stream, q, g);
      }
    }
  }

  lemma DeviceHandover(s: Sys, stream: nat, q: nat, g: nat)
    requires Ordered(s) && Enabled(s, Device(stream)) && IsOwner(s, q, g + 1) && HandoverOk(s, q, g)
    requires OwnerOf(s, q, g).released.Some? && OwnerOf(s, q, g).released.value !in Next(s, Device(stream)).fired
    ensures HandoverOk(Next(s, Device(stream)), q, g)
  {
    hide EventsOk, WaitsOk, LogOk, KernelsOk, ReleasesOk, HandoversOk;
    var s' := Next(s, Device(stream));
    var e, next := OwnerOf(s, q, g).released.value, OwnerOf(s, q, g + 1);
    assert Wait(e) != s.queues(stream)[0];
    PopPending(s, stream, next.stream, Wait(e));
    if next.released.Some? {
      FiresInOrder(s, stream, q, g);
    }
    forall i, cmd | At(s', next.stream, i, cmd) && BelongsTo(s', q, g + 1, cmd)
      ensures Earlier(s'.queues(next.stream), i, Wait(e))
    {
      PopAt(s, stream, next.stream, i, cmd);
      assert At(s, next.stream, Shifted(stream, next.stream, i), cmd) && BelongsTo(s, q, g + 1, cmd);
      PopEarlier(s, stream, next.stream, i, Wait(e));
    }
  }

  lemma DeviceEvents(s: Sys, stream: nat)
    requires EventsOk(s) && Enabled(s, Device(stream))
    ensures EventsOk(Next(s, Device(stream)))
  {
    var s' := Next(s, Device(stream));
    forall x, i, e: nat | At(s', x, i, Record(e)) ensures e < s'.nextEvent && e !in s'.fired {
      PopAt(s, stream, x, i, Record(e));
      assert At(s, x, Shifted(stream, x, i), Record(e));
      if s.queues(stream)[0] == Record(e) {
        assert At(s, stream, 0, Record(e));
      }
    }
    forall x, i, x', i', e: nat | At(s', x, i, Record(e)) && At(s', x', i', Record(e)) ensures x == x' && i == i' {
      PopAt(s, stream, x, i, Record(e));
      PopAt(s, stream, x', i', Record(e));
      assert At(s, x, Shifted(stream, x, i), Record(e)) && At(s, x', Shifted(stream, x', i'), Record(e));
    }
    assert s.queues(stream)[0].Record? ==> At(s, stream, 0, Record(s.queues(stream)[0].event));
  }

  lemma DeviceWaits(s: Sys, stream: nat)
    requires WaitsOk(s) && EventsOk(s) && Enabled(s, Device(stream))
    ensures WaitsOk(Next(s, Device(stream)))
  {
    hide EventsOk;
    var s' := Next(s, Device(stream));
    forall x, i, e: nat | At(s', x, i, Wait(e)) ensures WaitOk(s', x, i, e) {
      PopAt(s, stream, x, i, Wait(e));
      assert WaitOk(s, x, Shifted(stream, x, i), e);
      if e !in s'.fired {
        var other :| Pending(s, other, Record(e));
        PopPending(s, stream, other, Record(e));
      }
      forall j, e': nat | i < j && At(s', x, j, Record(e')) ensures e < e' {
        PopAt(s, stream, x, j, Record(e'));
        assert At(s, x, Shifted(stream, x, j), Record(e'));
      }
    }
  }

  lemma DeviceLog(s: Sys, stream: nat)
    requires Ordered(s) && Enabled(s, Device(stream))
    ensures LogOk(Next(s, Device(stream)))
  {
    hide EventsOk, WaitsOk, HandoversOk, ReleasesOk;
    var s' := Next(s, Device(stream));
    var head := s.queues(stream)[0];
    assert At(s, stream, 0, head);
    if head.Kernel? {
      assert KernelOk(s, stream, 0, head.ptr, head.owner);
    }
    forall j, x, i, g | 0 <= j < |s'.log| && At(s', x, i, Kernel(s'.log[j].ptr, g)) ensures s'.log[j].owner <= g {
      PopAt(s, stream, x, i, Kernel(s'.log[j].ptr, g));
      if j < |s.log| {
        assert At(s, x, Shifted(stream, x, i), Kernel(s.log[j].ptr, g));
      } else {
        HeadIsOldest(s, stream, head.ptr, head.owner, x, Shifted(stream, x, i), g);
      }
    }
    forall i, j | 0 <= i < j < |s'.log| && s'.log[i].ptr == s'.log[j].ptr ensures s'.log[i].owner <= s'.log[j].owner {
      if j == |s.log| {
        assert At(s, stream, 0, Kernel(s.log[i].ptr, head.owner));
      }
    }
  }

  lemma DeviceOrdered(s: Sys, stream: nat)
    requires Ordered(s) && Enabled(s, Device(stream))
    ensures Ordered(Next(s, Device(stream)))
  {
    hide EventsOk, WaitsOk, HandoversOk, KernelsOk, ReleasesOk, LogOk, Next, Enabled;
    DeviceKernels(s, stream);
    DeviceHandovers(s, stream);
    DeviceEvents(s, stream);
    DeviceWaits(s, stream);
    DeviceLog(s, stream);
  }

  // ---------------------------------------------------------------- main results

  lemma StepOrdered(s: Sys, step: Step)
    requires Conserved(s) && Ordered(s) && Enabled(s, step)
    ensures Ordered(Next(s, step))
  {
    hide Ordered, Conserved;
    match step
    case Allocate(k, stream) => AllocateOrdered(s, k, stream);
    case Issue(p) => IssueOrdered(s, p);
    case ReleaseRecord(p) => RecordOrdered(s, p);
    case Device(stream) => DeviceOrdered(s, stream);
    case Preallocate(k, count) =>
      SameOwnersAfter(s, step);
      QuietOrdered(s, Next(s, step));
    case ReleaseReturn(p) =>
      SameOwnersAfter(s, step);
      QuietOrdered(s, Next(s, step));
    case ReleaseCount =>
      SameOwnersAfter(s, step);
      QuietOrdered(s, Next(s, step));
    case DropHandle =>
      SameOwnersAfter(s, step);
      QuietOrdered(s, Next(s, step));
  }

  lemma SameOwnersAfter(s: Sys, step: Step)
    requires Enabled(s, step)
    requires step.Preallocate? || step.ReleaseReturn? || step.ReleaseCount? || step.DropHandle?
    ensures SameOwners(s, Next(s, step))
  {}

  lemma {:induction false} RunOrdered(s: Sys, steps: seq<Step>, s': Sys)
    requires Conserved(s) && Ordered(s) && Run(s, steps, s')
    ensures Ordered(s')
    decreases |steps|
  {
    hide Ordered, Conserved;
    if steps != [] {
      StepConserved(s, steps[0]);
      StepOrdered(s, steps[0]);
      RunOrdered(Next(s, steps[0]), steps[1..], s');
    }
  }

  /** In every run, for each pointer the device executes the operations of its successive owners in
      the order of the owners; and when an operation has run, none of an earlier owner is still to run. */
  lemma ReuseIsStreamOrdered(steps: seq<Step>, s: Sys)
    requires Run(Initial(), steps, s)
    ensures InOwnerOrder(s.log)
    ensures forall j, stream, g | 0 <= j < |s.log| && s.log[j].Kernel? && Pending(s, stream, Kernel(s.log[j].ptr, g)) ::
              s.log[j].owner <= g
  {
    hide Run, Conserved, KernelsOk, ReleasesOk, HandoversOk, EventsOk, WaitsOk;
    InitialConserved();
    InitialOrdered();
    RunOrdered(Initial(), steps, s);
    forall j, stream, g | 0 <= j < |s.log| && s.log[j].Kernel? && Pending(s, stream, Kernel(s.log[j].ptr, g))
      ensures s.log[j].owner <= g
    {
      var i :| 0 <= i < |s.queues(stream)| && s.queues(stream)[i] == Kernel(s.log[j].ptr, g);
      assert At(s, stream, i, Kernel(s.log[j].ptr, g));
    }
  }

  /** The waits inserted for reuse never deadlock the device: if anything is pending, some stream can advance. */
  lemma {:induction false} DeviceAdvances(s: Sys, stream: nat) returns (ready: nat)
    requires Ordered(s) && s.queues(stream) != []
    ensures Enabled(s, Device(ready))
    decreases if s.queues(stream)[0].Wait? then s.queues(stream)[0].event + 1 else 0
  {
    hide KernelsOk, HandoversOk, ReleasesOk, EventsOk, LogOk;
    ready := stream;
    var head := s.queues(stream)[0];
    if head.Wait? && head.event !in s.fired {
      assert At(s, stream, 0, head) && WaitOk(s, stream, 0, head.event);
      var other :| Pending(s, other, Record(head.event));
      var i :| 0 <= i < |s.queues(other)| && s.queues(other)[i] == Record(head.event);
      var front := s.queues(other)[0];
      if front.Wait? {
        assert At(s, other, 0, Wait(front.event)) && At(s, other, i, Record(head.event));
        assert WaitOk(s, other, 0, front.event);
      }
      ready := DeviceAdvances(s, other);
    }
  }
}
