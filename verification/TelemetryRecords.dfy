/** What the records say: over whole runs they are the stopped scopes, in the order of their stops. */
module TelemetryRecords {
  import opened TelemetryModel
  import opened TelemetrySummary
  import opened TelemetryScopes

  /** What a call hands over: the scope's own information and stream, the group active at the call, and the events
      of the scope's start and of the call. */
  datatype Handed = Handed(info: Info, hint: nat, group: string, started: nat, ended: nat)

  function Hands(s: State, ev: Ev): seq<Handed> {
    match ev
    case Stop(handle, info, hint) =>
      if handle < |s.inFlight| then [Handed(info, hint, s.current, s.inFlight[handle], |s.destroyed|)] else []
    case _ => []
  }

  function AllHanded(s: State, clock: Clock, evs: seq<Ev>): seq<Handed>
    decreases |evs|
  {
    if evs == [] then [] else Hands(s, evs[0]) + AllHanded(Apply(s, clock, evs[0]), clock, evs[1..])
  }

  ghost predicate IsEntry(p: Entry, h: Handed) {
    p.info == h.info && p.hint == h.hint && p.group == h.group && p.start == h.started && p.end == h.ended
  }

  /** Record j: all its fields, but the host's time. */
  ghost predicate IsRecord(r: Record, h: Handed, clock: Clock, j: nat, streams: map<nat, nat>) {
    && r.info == h.info && r.group == h.group && r.sequence == j && r.duration == clock(h.started, h.ended)
    && h.hint in streams && r.stream == streams[h.hint]
  }

  /** The records, then the pending entries, are what has been handed over, one for one and in order. */
  ghost predicate Transcribes(s: State, clock: Clock, handed: seq<Handed>) {
    && s.nextSequence == |s.records| && |s.records| + |s.pending| == |handed|
    && (forall j | 0 <= j < |s.records| :: IsRecord(s.records[j], handed[j], clock, j, s.streams))
    && (forall j | 0 <= j < |s.pending| :: IsEntry(s.pending[j], handed[|s.records| + j]))
  }

  lemma ResolveTranscribes(s: State, clock: Clock, handed: seq<Handed>)
    requires Transcribes(s, clock, handed)
    ensures Transcribes(Apply(s, clock, Resolve), clock, handed)
  {
    hide Resolved;
    ResolveRecords(s, clock, |s.pending|);
    var r := Resolved(s, clock, |s.pending|);
    forall j | 0 <= j < |r.records| ensures IsRecord(r.records[j], handed[j], clock, j, r.streams) {
      if j < |s.records| {
        assert r.records[j] == s.records[j] && IsRecord(s.records[j], handed[j], clock, j, s.streams);
      } else {
        var i := j - |s.records|;
        assert IsEntry(s.pending[i], handed[|s.records| + i]);
        assert r.records[|s.records| + i] == RecordOf(s.pending[i], clock, s.nextSequence + i, r.streams);
      }
    }
  }

  lemma ApplyTranscribes(s: State, clock: Clock, ev: Ev, handed: seq<Handed>)
    requires Transcribes(s, clock, handed)
    ensures Transcribes(Apply(s, clock, ev), clock, handed + Hands(s, ev))
  {
    hide Transcribes, Apply, Hands;
    if ev.Resolve? {
      ResolveTranscribes(s, clock, handed);
      ResolveHandsNothing(s);
      assert handed + [] == handed;
    } else {
      OnlyHands(s, clock, ev);
      PendingGrows(s, clock, handed, Apply(s, clock, ev), Hands(s, ev));
    }
  }

  lemma ResolveHandsNothing(s: State)
    ensures Hands(s, Resolve) == []
  {}

  /** A call other than a resolve leaves the records and adds what it hands over to the pending entries. */
  lemma OnlyHands(s: State, clock: Clock, ev: Ev)
    requires !ev.Resolve?
    ensures var s' := Apply(s, clock, ev);
            && s'.records == s.records && s'.streams == s.streams && s'.nextSequence == s.nextSequence
            && |s'.pending| == |s.pending| + |Hands(s, ev)| && s.pending <= s'.pending
            && forall i | 0 <= i < |Hands(s, ev)| :: IsEntry(s'.pending[|s.pending| + i], Hands(s, ev)[i])
  {
    hide Resolved, DestroyEvent, WithStream;
  }

  lemma PendingGrows(s: State, clock: Clock, handed: seq<Handed>, s': State, more: seq<Handed>)
    requires Transcribes(s, clock, handed)
    requires s'.records == s.records && s'.streams == s.streams && s'.nextSequence == s.nextSequence
    requires |s'.pending| == |s.pending| + |more| && s.pending <= s'.pending
    requires forall i | 0 <= i < |more| :: IsEntry(s'.pending[|s.pending| + i], more[i])
    ensures Transcribes(s', clock, handed + more)
  {
    hide IsRecord, IsEntry;
    var all := handed + more;
    forall j | 0 <= j < |s'.pending| ensures IsEntry(s'.pending[j], all[|s.records| + j]) {
      if j >= |s.pending| {
        assert all[|s.records| + j] == more[j - |s.pending|];
        assert s'.pending[|s.pending| + (j - |s.pending|)] == s'.pending[j];
      }
    }
  }

  /** In every run from the start, whatever the calls: record j is the j-th scope that was stopped, with its own
      name, kind, counts and stream, the group of its stop and its own duration; pending entries come after. */
  lemma {:induction false} RunTranscribes(s: State, clock: Clock, evs: seq<Ev>, handed: seq<Handed>)
    requires Transcribes(s, clock, handed)
    ensures Transcribes(After(s, clock, evs), clock, handed + AllHanded(s, clock, evs))
    decreases |evs|
  {
    hide Transcribes, Apply, Hands;
    if evs == [] {
      assert handed + [] == handed;
    } else {
      ApplyTranscribes(s, clock, evs[0], handed);
      RunTranscribes(Apply(s, clock, evs[0]), clock, evs[1..], handed + Hands(s, evs[0]));
      assert (handed + Hands(s, evs[0])) + AllHanded(Apply(s, clock, evs[0]), clock, evs[1..])
             == handed + AllHanded(s, clock, evs);
    }
  }

  lemma RecordsAreTheStops(clock: Clock, evs: seq<Ev>)
    ensures Transcribes(After(Fresh(), clock, evs), clock, AllHanded(Fresh(), clock, evs))
  {
    RunTranscribes(Fresh(), clock, evs, []);
    assert [] + AllHanded(Fresh(), clock, evs) == AllHanded(Fresh(), clock, evs);
  }

  // ---------------------------------------------------------------- calls of time()

  /** What calls of time() hand over when e events have been created before: each after the calls inside it, and
      timed from its own start event to its own end event. */
  function PostOrder(calls: seq<Call>, group: string, e: nat): seq<Handed> {
    if calls == [] then []
    else
      var call, inside := calls[0], 2 * Count(calls[0].inner);
      PostOrder(call.inner, group, e + 1) + [Handed(call.info, call.hint, group, e, e + 1 + inside)]
      + PostOrder(calls[1..], group, e + 2 + inside)
  }

  lemma {:induction false} AllHandedConcat(s: State, clock: Clock, a: seq<Ev>, b: seq<Ev>)
    ensures AllHanded(s, clock, a + b) == AllHanded(s, clock, a) + AllHanded(After(s, clock, a), clock, b)
    decreases |a|
  {
    hide Apply, Hands;
    if a == [] {
      assert a + b == b;
    } else {
      assert (a + b)[1..] == a[1..] + b;
      AllHandedConcat(Apply(s, clock, a[0]), clock, a[1..], b);
    }
  }

  lemma HandedOne(s: State, clock: Clock, ev: Ev)
    ensures AllHanded(s, clock, [ev]) == Hands(s, ev)
  {
    hide Apply, Hands;
    assert [ev][1..] == [];
    assert Hands(s, ev) + [] == Hands(s, ev);
  }

  lemma StartHandsNothing(s: State)
    ensures Hands(s, Start) == []
  {}

  /** The scope of one call, around what the calls inside it do. */
  lemma OneCallHands(s: State, clock: Clock, call: Call, inner: seq<Ev>)
    requires var t := After(Apply(s, clock, Start), clock, inner);
             && |s.inFlight| < |t.inFlight| && t.inFlight[|s.inFlight|] == |s.destroyed| && t.current == s.current
    ensures AllHanded(s, clock, [Start] + inner + [Stop(|s.inFlight|, call.info, call.hint)])
            == AllHanded(Apply(s, clock, Start), clock, inner)
               + [Handed(call.info, call.hint, s.current, |s.destroyed|, |After(Apply(s, clock, Start), clock, inner).destroyed|)]
  {
    hide After, Apply, AllHanded, Runs;
    var stop := Stop(|s.inFlight|, call.info, call.hint);
    var t := After(Apply(s, clock, Start), clock, inner);
    AllHandedConcat(s, clock, [Start] + inner, [stop]);
    AllHandedConcat(s, clock, [Start], inner);
    RunsConcat(s, clock, [Start], inner);
    RunsOne(s, clock, Start);
    HandedOne(s, clock, Start);
    StartHandsNothing(s);
    HandedOne(t, clock, stop);
    assert [] + AllHanded(Apply(s, clock, Start), clock, inner) == AllHanded(Apply(s, clock, Start), clock, inner);
  }

  lemma {:induction false} GroupStays(s: State, clock: Clock, evs: seq<Ev>)
    requires IsScopes(evs)
    ensures After(s, clock, evs).current == s.current
    decreases |evs|
  {
    hide Resolved;
    if evs != [] {
      ResolvedKeeps(s, clock, |s.pending|);
      GroupStays(Apply(s, clock, evs[0]), clock, evs[1..]);
    }
  }

  /** However they nest, calls of time() hand over exactly that. */
  lemma {:induction false} TimeCallsHand(s: State, clock: Clock, calls: seq<Call>)
    requires forall h | h in s.open :: h < |s.inFlight|
    ensures AllHanded(s, clock, Events(calls, |s.inFlight|)) == PostOrder(calls, s.current, |s.destroyed|)
    decreases calls
  {
    hide Runs, IsScopes, Stops, After, AllHanded;
    var n := |s.inFlight|;
    if calls == [] {
      NothingHanded(s, clock);
    } else {
      var s1, call := Apply(s, clock, Start), calls[0];
      var inner, stop := Events(call.inner, n + 1), Stop(n, call.info, call.hint);
      TimeCallsHand(s1, clock, call.inner);
      TimeCallsAreLegal(s1, clock, call.inner);
      GroupStays(s1, clock, inner);
      var t := After(s1, clock, inner);
      assert t.inFlight[n] == s1.inFlight[n] == |s.destroyed|;
      OneCallHands(s, clock, call, inner);
      OneCall(s, clock, stop, inner);
      var first := [Start] + inner + [stop];
      var s2 := After(s, clock, first);
      TimeCallsHand(s2, clock, calls[1..]);
      AllHandedConcat(s, clock, first, Events(calls[1..], |s2.inFlight|));
    }
  }

  lemma NothingHanded(s: State, clock: Clock)
    ensures AllHanded(s, clock, []) == []
  {}
}
