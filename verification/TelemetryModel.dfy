/** The telemetry pipeline: scopes start and stop events, stops are pending until one batched resolve,
    and a summary cuts a group's records into its replays. */
module TelemetryModel {
  import opened OpKinds

  /** What a scope is told and its record repeats. */
  datatype Info = Info(name: string, kind: OpKind, fromReplay: bool, bytes: nat, gflops: real)

  /** A stopped scope; `hint` points to its stream, the group is the one active at the stop. */
  datatype Entry = Entry(start: nat, end: nat, info: Info, hint: nat, group: string)

  datatype Record = Record(sequence: nat, info: Info, stream: nat, duration: real, group: string)

  /** The mutable state; `streams` numbers the stream pointers seen, `destroyed` counts the destructions of
      each CUDA event created so far and `open` holds the handles of the scopes not yet stopped (the last
      two are history). */
  datatype State = State(
    current: string, groupOps: map<string, nat>, nextSequence: nat, records: seq<Record>, streams: map<nat, nat>,
    inFlight: seq<nat>, pending: seq<Entry>, destroyed: seq<nat>, open: multiset<nat>)

  /** Elapsed time between two recorded events. */
  type Clock = (nat, nat) -> real

  function Fresh(): State { State("", map[], 0, [], map[], [], [], [], multiset{}) }

  /** The calls.  A start or stop fails when its event cannot be created, or cannot be recorded once created. */
  datatype Ev =
    | Start
    | StartFails(created: bool)
    | Stop(handle: nat, info: Info, hint: nat)
    | StopFails(handle: nat, created: bool)
    | BeginGroup(group: string, ops: nat)
    | EndGroup
    | Resolve

  function DestroyEvent(destroyed: seq<nat>, e: nat): (r: seq<nat>)
    ensures |r| == |destroyed|
  {
    if e < |destroyed| then destroyed[e := destroyed[e] + 1] else destroyed
  }

  /** resolve_stream_id: a pointer not seen before gets the next number. */
  function WithStream(streams: map<nat, nat>, hint: nat): (r: map<nat, nat>)
    ensures hint in r && forall h :: h in streams ==> h in r && r[h] == streams[h]
  {
    if hint in streams then streams else streams[hint := |streams|]
  }

  function WithRecord(s: State, p: Entry, duration: real): State {
    var streams := WithStream(s.streams, p.hint);
    s.(records := s.records + [Record(s.nextSequence, p.info, streams[p.hint], duration, p.group)],
       nextSequence := s.nextSequence + 1, streams := streams)
  }

  function DestroyBoth(s: State, p: Entry): (r: State)
    ensures |r.destroyed| == |s.destroyed|
  {
    s.(destroyed := DestroyEvent(DestroyEvent(s.destroyed, p.start), p.end))
  }

  /** The loop of resolve_pending over the first n entries. */
  function Resolved(s: State, clock: Clock, n: nat): (r: State)
    requires n <= |s.pending|
    ensures |r.destroyed| == |s.destroyed|
  {
    if n == 0 then s
    else
      var p := s.pending[n - 1];
      DestroyBoth(WithRecord(Resolved(s, clock, n - 1), p, clock(p.start, p.end)), p)
  }

  function Apply(s: State, clock: Clock, ev: Ev): State {
    match ev
    case Start =>
      s.(inFlight := s.inFlight + [|s.destroyed|], destroyed := s.destroyed + [0],
         open := s.open + multiset{|s.inFlight|})
    case StartFails(created) => if created then s.(destroyed := s.destroyed + [1]) else s
    case Stop(h, info, hint) =>
      var closed := s.(open := s.open - multiset{h});
      if h >= |s.inFlight| then closed
      else closed.(pending := s.pending + [Entry(s.inFlight[h], |s.destroyed|, info, hint, s.current)],
                   destroyed := s.destroyed + [0])
    case StopFails(h, created) =>
      var closed := s.(open := s.open - multiset{h});
      if h >= |s.inFlight| then closed
      else if !created then closed.(destroyed := DestroyEvent(s.destroyed, s.inFlight[h]))
      else closed.(destroyed := DestroyEvent(DestroyEvent(s.destroyed + [0], s.inFlight[h]), |s.destroyed|))
    case BeginGroup(group, ops) => s.(groupOps := s.groupOps[group := ops], current := group)
    case EndGroup => s.(current := "")
    case Resolve => Resolved(s, clock, |s.pending|).(pending := [], inFlight := [])
  }

  /** A scope is stopped once, with the handle its start returned. */
  predicate Scoped(s: State, ev: Ev) { ev.Stop? || ev.StopFails? ==> ev.handle in s.open }

  /** And no scope is open at a resolve. */
  predicate Legal(s: State, ev: Ev) { Scoped(s, ev) && (ev.Resolve? ==> s.open == multiset{}) }

  predicate Runs(s: State, clock: Clock, evs: seq<Ev>)
    decreases |evs|
  {
    evs == [] || (Legal(s, evs[0]) && Runs(Apply(s, clock, evs[0]), clock, evs[1..]))
  }

  function After(s: State, clock: Clock, evs: seq<Ev>): State
    decreases |evs|
  {
    if evs == [] then s else After(Apply(s, clock, evs[0]), clock, evs[1..])
  }

  lemma {:induction false} RunsConcat(s: State, clock: Clock, a: seq<Ev>, b: seq<Ev>)
    ensures Runs(s, clock, a + b) <==> Runs(s, clock, a) && Runs(After(s, clock, a), clock, b)
    ensures After(s, clock, a + b) == After(After(s, clock, a), clock, b)
    decreases |a|
  {
    hide Apply, Legal;
    if a == [] {
      assert a + b == b;
    } else {
      RunsConcat(Apply(s, clock, a[0]), clock, a[1..], b);
      assert (a + b)[1..] == a[1..] + b;
    }
  }

  // ---------------------------------------------------------------- events are created and destroyed once

  /** The events the pending entries still have to destroy. */
  function Owed(pending: seq<Entry>): multiset<nat> {
    if pending == [] then multiset{}
    else Owed(pending[..|pending| - 1]) + multiset{pending[|pending| - 1].start, pending[|pending| - 1].end}
  }

  ghost predicate OpenStart(s: State, e: nat) { exists h :: h in s.open && h < |s.inFlight| && s.inFlight[h] == e }

  /** Each event has been destroyed once, or is owed by one entry once, or started one open scope. */
  ghost predicate EventOk(s: State, e: nat)
    requires e < |s.destroyed|
  {
    s.destroyed[e] + Owed(s.pending)[e] + (if OpenStart(s, e) then 1 else 0) == 1
  }

  ghost predicate EventsOk(s: State) {
    && (forall h :: h in s.open ==> h < |s.inFlight| && s.open[h] == 1)
    && (forall i | 0 <= i < |s.inFlight| :: s.inFlight[i] < |s.destroyed|)
    && (forall i, j | 0 <= i < j < |s.inFlight| :: s.inFlight[i] != s.inFlight[j])
    && (forall p | p in s.pending :: p.start < |s.destroyed| && p.end < |s.destroyed|)
    && (forall e | 0 <= e < |s.destroyed| :: EventOk(s, e))
  }

  lemma {:induction false} OwedBound(pending: seq<Entry>, e: nat)
    requires forall p | p in pending :: p.start != e && p.end != e
    ensures Owed(pending)[e] == 0
    decreases |pending|
  {
    if pending != [] {
      OwedBound(pending[..|pending| - 1], e);
    }
  }

  lemma OwedAppend(pending: seq<Entry>, p: Entry)
    ensures Owed(pending + [p]) == Owed(pending) + multiset{p.start, p.end}
  {
    assert (pending + [p])[..|pending|] == pending;
  }

  lemma StartEvents(s: State, clock: Clock)
    requires EventsOk(s)
    ensures EventsOk(Apply(s, clock, Start))
  {
    hide Owed, Resolved, OpenStart, EventOk;
    var s' := Apply(s, clock, Start);
    forall e | 0 <= e < |s'.destroyed| ensures EventOk(s', e) {
      OpenScope(s, s', e);
      EventLaw(s', e);
      if e == |s.destroyed| {
        OwedBound(s.pending, e);
        NotYetOpen(s, e);
      } else {
        EventLaw(s, e);
      }
    }
  }

  lemma OpenScope(s: State, s': State, e: nat)
    requires EventsOk(s) && s'.inFlight == s.inFlight + [|s.destroyed|] && s'.open == s.open + multiset{|s.inFlight|}
    ensures OpenStart(s', e) <==> OpenStart(s, e) || e == |s.destroyed|
  {
    hide EventOk;
    assert s'.inFlight[|s.inFlight|] == |s.destroyed|;
    if OpenStart(s, e) {
      var h :| h in s.open && h < |s.inFlight| && s.inFlight[h] == e;
      assert s'.inFlight[h] == e;
    }
  }

  lemma NotYetOpen(s: State, e: nat)
    requires EventsOk(s) && e >= |s.destroyed|
    ensures !OpenStart(s, e)
  {}

  /** Closing the scope of handle h takes exactly its start event from the open ones. */
  lemma CloseScope(s: State, s': State, h: nat, e: nat)
    requires EventsOk(s) && h in s.open && s'.inFlight == s.inFlight && s'.open == s.open - multiset{h}
    ensures OpenStart(s', e) <==> OpenStart(s, e) && e != s.inFlight[h]
    ensures OpenStart(s, s.inFlight[h])
  {
    hide EventOk;
    if OpenStart(s, e) && e != s.inFlight[h] {
      var h' :| h' in s.open && h' < |s.inFlight| && s.inFlight[h'] == e;
      assert h' in s'.open;
    }
  }

  lemma StopEvents(s: State, clock: Clock, h: nat, info: Info, hint: nat)
    requires EventsOk(s) && Legal(s, Stop(h, info, hint))
    ensures EventsOk(Apply(s, clock, Stop(h, info, hint)))
  {
    hide Owed, Resolved, OpenStart, EventOk;
    var s' := Apply(s, clock, Stop(h, info, hint));
    var start := s.inFlight[h];
    OwedAppend(s.pending, Entry(start, |s.destroyed|, info, hint, s.current));
    forall e | 0 <= e < |s'.destroyed| ensures EventOk(s', e) {
      CloseScope(s, s', h, e);
      EventLaw(s', e);
      if e == |s.destroyed| {
        OwedBound(s.pending, e);
        NotYetOpen(s, e);
      } else {
        EventLaw(s, e);
      }
    }
  }

  /** A failing start or stop destroys what it leaves without an owner. */
  lemma FailureEvents(s: State, clock: Clock, ev: Ev)
    requires EventsOk(s) && Legal(s, ev) && (ev.StartFails? || ev.StopFails?)
    ensures EventsOk(Apply(s, clock, ev))
  {
    hide Owed, Resolved, OpenStart, EventOk;
    var s' := Apply(s, clock, ev);
    forall e | 0 <= e < |s'.destroyed| ensures EventOk(s', e) {
      EventLaw(s', e);
      if ev.StopFails? {
        CloseScope(s, s', ev.handle, e);
      } else {
        SameOpen(s, s', e);
      }
      if e == |s.destroyed| {
        OwedBound(s.pending, e);
        NotYetOpen(s, e);
      } else {
        EventLaw(s, e);
      }
    }
  }

  lemma SameOpen(s: State, s': State, e: nat)
    requires s'.inFlight == s.inFlight && s'.open == s.open
    ensures OpenStart(s', e) <==> OpenStart(s, e)
  {}

  lemma NothingOwed()
    ensures Owed([]) == multiset{}
  {}

  lemma DestroyPair(destroyed: seq<nat>, a: nat, b: nat, e: nat)
    requires e < |destroyed| && a < |destroyed| && b < |destroyed|
    ensures DestroyEvent(DestroyEvent(destroyed, a), b)[e] == destroyed[e] + multiset{a, b}[e]
  {}

  lemma {:induction false} ResolvedEvents(s: State, clock: Clock, n: nat, e: nat)
    requires n <= |s.pending| && e < |s.destroyed|
    requires forall p | p in s.pending :: p.start < |s.destroyed| && p.end < |s.destroyed|
    ensures Resolved(s, clock, n).destroyed[e] == s.destroyed[e] + Owed(s.pending[..n])[e]
  {
    hide Owed, DestroyEvent;
    if n == 0 {
      NothingOwed();
      assert s.pending[..0] == [];
    } else {
      ResolvedEvents(s, clock, n - 1, e);
      DestroyPair(Resolved(s, clock, n - 1).destroyed, s.pending[n - 1].start, s.pending[n - 1].end, e);
      assert s.pending[..n] == s.pending[..n - 1] + [s.pending[n - 1]];
      OwedAppend(s.pending[..n - 1], s.pending[n - 1]);
      assert s.pending[n - 1] in s.pending;
    }
  }

  lemma {:induction false} ResolvedKeeps(s: State, clock: Clock, n: nat)
    requires n <= |s.pending|
    ensures var r := Resolved(s, clock, n);
            r.open == s.open && r.current == s.current && r.groupOps == s.groupOps && r.pending == s.pending
            && r.inFlight == s.inFlight
  {
    hide DestroyEvent, WithStream;
    if n > 0 {
      ResolvedKeeps(s, clock, n - 1);
    }
  }

  /** A resolve leaves every event destroyed exactly once if and only if no scope is open. */
  lemma ResolveEvents(s: State, clock: Clock)
    requires EventsOk(s)
    ensures s.open == multiset{} ==> EventsOk(Apply(s, clock, Resolve))
    ensures s.open == multiset{} <==> forall e | 0 <= e < |s.destroyed| :: Apply(s, clock, Resolve).destroyed[e] == 1
  {
    hide EventOk, Owed;
    var s' := Apply(s, clock, Resolve);
    ResolvedKeeps(s, clock, |s.pending|);
    assert s.pending[..|s.pending|] == s.pending;
    forall e | 0 <= e < |s.destroyed| ensures s'.destroyed[e] == if OpenStart(s, e) then 0 else 1 {
      assert EventOk(s, e);
      ResolvedEvents(s, clock, |s.pending|, e);
      EventLaw(s, e);
    }
    if s.open == multiset{} {
      forall e | 0 <= e < |s'.destroyed| ensures EventOk(s', e) {
        NothingOwed();
        EventLaw(s', e);
      }
    } else {
      var h :| h in s.open;
      assert OpenStart(s, s.inFlight[h]) && s'.destroyed[s.inFlight[h]] == 0;
    }
  }

  lemma EventLaw(s: State, e: nat)
    requires e < |s.destroyed|
    ensures EventOk(s, e) <==> s.destroyed[e] + Owed(s.pending)[e] + (if OpenStart(s, e) then 1 else 0) == 1
  {}

  lemma ApplyEvents(s: State, clock: Clock, ev: Ev)
    requires EventsOk(s) && Legal(s, ev)
    ensures EventsOk(Apply(s, clock, ev))
  {
    match ev
    case Start => StartEvents(s, clock);
    case Stop(h, info, hint) => StopEvents(s, clock, h, info, hint);
    case StartFails(_) => FailureEvents(s, clock, ev);
    case StopFails(_, _) => FailureEvents(s, clock, ev);
    case Resolve => ResolveEvents(s, clock);
    case _ =>
      var s' := Apply(s, clock, ev);
      forall e | 0 <= e < |s'.destroyed| ensures EventOk(s', e) {
        assert EventOk(s, e);
        assert OpenStart(s', e) <==> OpenStart(s, e);
      }
  }

  lemma {:induction false} RunEvents(s: State, clock: Clock, evs: seq<Ev>)
    requires EventsOk(s) && Runs(s, clock, evs)
    ensures EventsOk(After(s, clock, evs))
    decreases |evs|
  {
    hide EventsOk, Legal;
    if evs != [] {
      ApplyEvents(s, clock, evs[0]);
      RunEvents(Apply(s, clock, evs[0]), clock, evs[1..]);
    }
  }

  /** In any legal run ending in a resolve, every event ever created has been destroyed exactly once. */
  lemma EventsDestroyedOnce(clock: Clock, evs: seq<Ev>, e: nat)
    requires Runs(Fresh(), clock, evs + [Resolve])
    requires e < |After(Fresh(), clock, evs + [Resolve]).destroyed|
    ensures After(Fresh(), clock, evs + [Resolve]).destroyed[e] == 1
  {
    RunsConcat(Fresh(), clock, evs, [Resolve]);
    RunEvents(Fresh(), clock, evs);
    var s := After(Fresh(), clock, evs);
    ResolveEvents(s, clock);
    assert After(s, clock, [Resolve]) == Apply(s, clock, Resolve);
  }

  // ---------------------------------------------------------------- one record per entry, in order

  function RecordOf(p: Entry, clock: Clock, sequence: nat, streams: map<nat, nat>): Record
    requires p.hint in streams
  {
    Record(sequence, p.info, streams[p.hint], clock(p.start, p.end), p.group)
  }

  /** Each pending entry becomes one record, in end order, with consecutive sequence numbers and the number of
      its stream; streams numbered before keep their numbers. */
  lemma {:induction false} ResolveRecords(s: State, clock: Clock, n: nat)
    requires n <= |s.pending|
    ensures var r := Resolved(s, clock, n);
            && r.nextSequence == s.nextSequence + n && |r.records| == |s.records| + n
            && s.records <= r.records && s.streams.Keys <= r.streams.Keys
            && (forall h :: h in s.streams ==> r.streams[h] == s.streams[h])
            && (forall j | 0 <= j < n :: s.pending[j].hint in r.streams)
            && forall j | 0 <= j < n ::
                 r.records[|s.records| + j] == RecordOf(s.pending[j], clock, s.nextSequence + j, r.streams)
  {
    hide DestroyEvent, WithStream;
    if n > 0 {
      ResolveRecords(s, clock, n - 1);
      var before, p := Resolved(s, clock, n - 1), s.pending[n - 1];
      var streams := WithStream(before.streams, p.hint);
      assert Resolved(s, clock, n).records == before.records + [RecordOf(p, clock, before.nextSequence, streams)];
    }
  }

  /** Numbers are dense, and different streams have different ones. */
  predicate StreamsOk(streams: map<nat, nat>) {
    && (forall h :: h in streams ==> streams[h] < |streams|)
    && (forall h, h' :: h in streams && h' in streams && streams[h] == streams[h'] ==> h == h')
  }

  lemma WithStreamOk(streams: map<nat, nat>, hint: nat)
    requires StreamsOk(streams)
    ensures StreamsOk(WithStream(streams, hint))
  {}

  lemma {:induction false} ResolvedStreamsOk(s: State, clock: Clock, n: nat)
    requires n <= |s.pending| && StreamsOk(s.streams)
    ensures StreamsOk(Resolved(s, clock, n).streams)
  {
    hide StreamsOk, WithStream;
    if n > 0 {
      ResolvedStreamsOk(s, clock, n - 1);
      WithStreamOk(Resolved(s, clock, n - 1).streams, s.pending[n - 1].hint);
    }
  }

  /** In every run, whatever the calls, streams keep apart. */
  lemma {:induction false} RunStreamsOk(s: State, clock: Clock, evs: seq<Ev>)
    requires StreamsOk(s.streams)
    ensures StreamsOk(After(s, clock, evs).streams)
    decreases |evs|
  {
    hide StreamsOk, Resolved;
    if evs != [] {
      ResolvedStreamsOk(s, clock, |s.pending|);
      RunStreamsOk(Apply(s, clock, evs[0]), clock, evs[1..]);
    }
  }

  // ---------------------------------------------------------------- scopes open at a resolve

  /** A run in which scopes are stopped once, but may be open at a resolve. */
  predicate ScopedRun(s: State, clock: Clock, evs: seq<Ev>)
    decreases |evs|
  {
    evs == [] || (Scoped(s, evs[0]) && ScopedRun(Apply(s, clock, evs[0]), clock, evs[1..]))
  }

  /** An event that nothing leads to any more. */
  ghost predicate Leaked(s: State, e: nat) {
    && e < |s.destroyed| && s.destroyed[e] == 0 && e !in s.inFlight
    && forall p | p in s.pending :: p.start != e && p.end != e
  }

  lemma {:induction false} ResolvedLeaks(s: State, clock: Clock, n: nat, e: nat)
    requires n <= |s.pending| && Leaked(s, e)
    ensures Resolved(s, clock, n).destroyed[e] == 0
  {
    hide WithStream;
    if n > 0 {
      ResolvedLeaks(s, clock, n - 1, e);
      assert s.pending[n - 1] in s.pending;
    }
  }

  lemma LeakStays(s: State, clock: Clock, ev: Ev, e: nat)
    requires Leaked(s, e)
    ensures Leaked(Apply(s, clock, ev), e)
  {
    hide Resolved;
    ResolvedLeaks(s, clock, |s.pending|, e);
    StopMakesNew(s, clock, ev);
  }

  /** Entries are made of started events and a new one. */
  lemma StopMakesNew(s: State, clock: Clock, ev: Ev)
    ensures forall p | p in Apply(s, clock, ev).pending && p !in s.pending :: p.start in s.inFlight && p.end == |s.destroyed|
  {}

  lemma {:induction false} LeakStaysForGood(s: State, clock: Clock, evs: seq<Ev>, e: nat)
    requires Leaked(s, e)
    ensures Leaked(After(s, clock, evs), e)
    decreases |evs|
  {
    hide Leaked;
    if evs != [] {
      LeakStays(s, clock, evs[0], e);
      LeakStaysForGood(Apply(s, clock, evs[0]), clock, evs[1..], e);
    }
  }

  /** The start event of a scope open at a resolve is leaked. */
  lemma OpenScopeLeaks(s: State, clock: Clock, evs: seq<Ev>)
    requires EventsOk(s) && evs != [] && Scoped(s, evs[0]) && !Legal(s, evs[0])
    ensures !AllDestroyed(After(Apply(s, clock, evs[0]), clock, evs[1..]))
  {
    hide EventOk, Owed;
    var h :| h in s.open;
    var e := s.inFlight[h];
    assert OpenStart(s, e) && EventOk(s, e);
    EventLaw(s, e);
    ResolvedEvents(s, clock, |s.pending|, e);
    assert s.pending[..|s.pending|] == s.pending;
    LeakStaysForGood(Apply(s, clock, Resolve), clock, evs[1..], e);
  }

  /** In any run in which scopes are stopped once, ending in a resolve: every event has been destroyed exactly
      once if and only if no resolve met an open scope. */
  lemma {:induction false} DestroyedOnceIff(s: State, clock: Clock, evs: seq<Ev>)
    requires EventsOk(s) && ScopedRun(s, clock, evs + [Resolve])
    ensures var s' := After(s, clock, evs + [Resolve]);
            AllDestroyed(s') <==> Runs(s, clock, evs + [Resolve])
    decreases |evs|
  {
    hide EventsOk, Apply, AllDestroyed, Legal;
    var all := evs + [Resolve];
    FirstCall(s, clock, all);
    if !Legal(s, all[0]) {
      OpenScopeLeaks(s, clock, all);
    } else if evs == [] {
      assert all[1..] == [];
      ResolveEvents(s, clock);
      LastResolve(s, clock);
    } else {
      ApplyEvents(s, clock, all[0]);
      assert all[1..] == evs[1..] + [Resolve];
      DestroyedOnceIff(Apply(s, clock, all[0]), clock, evs[1..]);
    }
  }

  ghost predicate AllDestroyed(s: State) { forall e | 0 <= e < |s.destroyed| :: s.destroyed[e] == 1 }

  lemma FirstCall(s: State, clock: Clock, evs: seq<Ev>)
    requires evs != []
    ensures After(s, clock, evs) == After(Apply(s, clock, evs[0]), clock, evs[1..])
    ensures Runs(s, clock, evs) <==> Legal(s, evs[0]) && Runs(Apply(s, clock, evs[0]), clock, evs[1..])
    ensures ScopedRun(s, clock, evs) <==> Scoped(s, evs[0]) && ScopedRun(Apply(s, clock, evs[0]), clock, evs[1..])
  {
    hide Apply, Legal, Scoped;
  }

  lemma LastResolve(s: State, clock: Clock)
    requires Legal(s, Resolve) && EventsOk(s)
    ensures AllDestroyed(Apply(s, clock, Resolve)) && Runs(Apply(s, clock, Resolve), clock, [])
    ensures After(Apply(s, clock, Resolve), clock, []) == Apply(s, clock, Resolve)
  {
    hide EventsOk, Resolved;
    ResolveEvents(s, clock);
  }

  /** Besides the leak, the handle of the scope left open names a later scope's slot: stopping both destroys
      the later start event (number 1) twice, and the first (number 0) never. */
  lemma StaleHandleDestroysTwice(clock: Clock, info: Info)
    ensures var reopen, stop := [Start, Resolve, Start], Stop(0, info, 0);
            var s := After(Fresh(), clock, reopen);
            && ScopedRun(Fresh(), clock, reopen) && ScopedRun(s, clock, [stop, stop, Resolve])
            && After(s, clock, [stop, stop, Resolve]).destroyed == [0, 2, 1, 1]
  {
    var s := State("", map[], 0, [], map[], [1], [], [0, 0], multiset{0, 0});
    ReopenedScope(clock);
    var stop := Stop(0, info, 0);
    var s1, s2 := Apply(s, clock, stop), Apply(Apply(s, clock, stop), clock, stop);
    assert [stop, stop, Resolve][1..] == [stop, Resolve] && [stop, Resolve][1..] == [Resolve] && [Resolve][1..] == [];
    assert s1.open == multiset{0};
    assert s2.pending == [Entry(1, 2, info, 0, ""), Entry(1, 3, info, 0, "")] && s2.destroyed == [0, 0, 0, 0];
    DestroysTwice(s2, clock);
  }

  lemma ReopenedScope(clock: Clock)
    ensures var reopen := [Start, Resolve, Start];
            ScopedRun(Fresh(), clock, reopen)
            && After(Fresh(), clock, reopen) == State("", map[], 0, [], map[], [1], [], [0, 0], multiset{0, 0})
  {
    assert [Start, Resolve, Start][1..] == [Resolve, Start] && [Resolve, Start][1..] == [Start] && [Start][1..] == [];
    var s1 := Apply(Fresh(), clock, Start);
    assert s1 == State("", map[], 0, [], map[], [0], [], [0], multiset{0});
    assert Apply(s1, clock, Resolve) == State("", map[], 0, [], map[], [], [], [0], multiset{0});
  }

  lemma DestroysTwice(s: State, clock: Clock)
    requires s.destroyed == [0, 0, 0, 0] && |s.pending| == 2
    requires s.pending[0].start == 1 && s.pending[0].end == 2 && s.pending[1].start == 1 && s.pending[1].end == 3
    ensures After(s, clock, [Resolve]).destroyed == [0, 2, 1, 1]
  {
    assert Resolved(s, clock, 1).destroyed == [0, 1, 1, 0];
    assert Resolved(s, clock, 2).destroyed == [0, 2, 1, 1];
  }

  /** A stop, failing or not, with a handle past the end changes nothing but that its scope is closed. */
  lemma StopPastTheEnd(s: State, clock: Clock, ev: Ev)
    requires (ev.Stop? || ev.StopFails?) && ev.handle >= |s.inFlight|
    ensures Apply(s, clock, ev) == s.(open := s.open - multiset{ev.handle})
  {}

  // ---------------------------------------------------------------- a resolve that fails

  /** Synchronising or timing entry i fails: its events are destroyed, and the call throws with the lists as they were. */
  function ResolveFailsAt(s: State, clock: Clock, i: nat): State
    requires i < |s.pending|
  {
    DestroyBoth(Resolved(s, clock, i), s.pending[i])
  }

  /** The entries already handled are still pending then.  Resolving again destroys their events, and those of
      the entry that failed, a second time. */
  lemma RetryDestroysTwice(s: State, clock: Clock, i: nat, e: nat)
    requires EventsOk(s) && s.open == multiset{} && i < |s.pending| && e < |s.destroyed|
    ensures var s' := Apply(ResolveFailsAt(s, clock, i), clock, Resolve);
            |s'.destroyed| == |s.destroyed| && s'.destroyed[e] == 1 + Owed(s.pending[..i + 1])[e]
  {
    hide Owed, DestroyEvent, EventOk;
    var p, r := s.pending[i], ResolveFailsAt(s, clock, i);
    assert p in s.pending && EventOk(s, e);
    EventLaw(s, e);
    ResolvedEvents(s, clock, i, e);
    DestroyPair(Resolved(s, clock, i).destroyed, p.start, p.end, e);
    OwedAppend(s.pending[..i], p);
    assert s.pending[..i + 1] == s.pending[..i] + [p];
    ResolvedKeeps(s, clock, i);
    assert r.pending == s.pending && s.pending[..|s.pending|] == s.pending;
    ResolvedEvents(r, clock, |s.pending|, e);
  }

  /** And it records the entries handled before the failure a second time. */
  lemma RetryRepeatsRecords(s: State, clock: Clock, i: nat)
    requires i < |s.pending|
    ensures |Apply(ResolveFailsAt(s, clock, i), clock, Resolve).records| == |s.records| + i + |s.pending|
  {
    hide Resolved, DestroyEvent, WithStream;
    ResolvedKeeps(s, clock, i);
    ResolveRecords(s, clock, i);
    ResolveRecords(ResolveFailsAt(s, clock, i), clock, |s.pending|);
  }
}
