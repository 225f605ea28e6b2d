/** The Telemetry object.  Every method is one step (or run) of the state machine of TelemetryModel. */
module TelemetryRecorder {
  import opened Wrappers
  import opened TelemetryModel
  import opened TelemetrySummary
  import opened TelemetryScopes

  /** What print_summary prints: the average is the total over the number of replays. */
  datatype Report = Report(replays: nat, average: real, first: real, last: real)

  /** How the driver answers when an event is created and recorded. */
  datatype Driver = Works | CannotCreate | CannotRecord

  datatype Error = CreateFailed | RecordFailed | ResolveFailed

  class Telemetry {
    const clock: Clock
    var currentGroup: string
    var groupOps: map<string, nat>
    var nextSequence: nat
    var records: seq<Record>
    var streamIds: map<nat, nat>
    var inFlight: seq<nat>
    var pending: seq<Entry>

    // The driver's events, by their number, and the scopes still open.
    var destroyed: seq<nat>
    ghost var open: multiset<nat>

    ghost function View(): State
      reads this
    {
      State(currentGroup, groupOps, nextSequence, records, streamIds, inFlight, pending, destroyed, open)
    }

    constructor (clock: Clock)
      ensures View() == Fresh() && this.clock == clock
    {
      this.clock := clock;
      currentGroup, groupOps, nextSequence, records := "", map[], 0, [];
      streamIds, inFlight, pending, destroyed, open := map[], [], [], [], multiset{};
    }

    method BeginGroup(group: string, ops: nat)
      modifies this
      ensures View() == Apply(old(View()), clock, Ev.BeginGroup(group, ops))
    {
      groupOps := groupOps[group := ops];
      currentGroup := group;
    }

    method EndGroup()
      modifies this
      ensures View() == Apply(old(View()), clock, Ev.EndGroup)
    {
      currentGroup := "";
    }

    method ResolveStreamId(hint: nat) returns (id: nat)
      modifies `streamIds
      ensures streamIds == WithStream(old(streamIds), hint) && id == streamIds[hint]
    {
      if hint in streamIds {
        return streamIds[hint];
      }
      id := |streamIds|;
      streamIds := streamIds[hint := id];
    }

    method RecordWithGroup(info: Info, duration: real, hint: nat, group: string)
      modifies `records, `nextSequence, `streamIds
      ensures streamIds == WithStream(old(streamIds), hint)
      ensures records == old(records) + [Record(old(nextSequence), info, streamIds[hint], duration, group)]
      ensures nextSequence == old(nextSequence) + 1
    {
      var sequence := nextSequence;
      nextSequence := nextSequence + 1;
      var id := ResolveStreamId(hint);
      records := records + [Record(sequence, info, id, duration, group)];
    }

    method CreateEvent() returns (e: nat)
      modifies `destroyed
      ensures e == |old(destroyed)| && destroyed == old(destroyed) + [0]
    {
      e := |destroyed|;
      destroyed := destroyed + [0];
    }

    method Destroy(e: nat)
      modifies `destroyed
      ensures destroyed == DestroyEvent(old(destroyed), e)
    {
      if e < |destroyed| {
        destroyed := destroyed[e := destroyed[e] + 1];
      }
    }

    method BeginAsync(driver: Driver) returns (r: Result<nat, Error>)
      modifies this
      ensures View() == Apply(old(View()), clock, if driver.Works? then Start else StartFails(driver.CannotRecord?))
      ensures r == match driver
                   case Works => Success(|old(inFlight)|)
                   case CannotCreate => Failure(CreateFailed)
                   case CannotRecord => Failure(RecordFailed)
    {
      if driver.CannotCreate? {
        return Failure(CreateFailed);
      }
      var start := CreateEvent();
      if driver.CannotRecord? {
        Destroy(start);
        return Failure(RecordFailed);
      }
      inFlight := inFlight + [start];
      open := open + multiset{|inFlight| - 1};
      return Success(|inFlight| - 1);
    }

    method EndAsync(handle: nat, info: Info, hint: nat, driver: Driver) returns (error: Option<Error>)
      modifies this
      ensures View() == Apply(old(View()), clock, if driver.Works? then Stop(handle, info, hint)
                                                  else StopFails(handle, driver.CannotRecord?))
      ensures error == if driver.Works? || handle >= |old(inFlight)| then None
                       else Some(if driver.CannotCreate? then CreateFailed else RecordFailed)
    {
      hide Resolved, DestroyEvent;
      open := open - multiset{handle};
      if handle >= |inFlight| {
        return None;
      }
      var start := inFlight[handle];
      if driver.CannotCreate? {
        Destroy(start);
        return Some(CreateFailed);
      }
      var end := CreateEvent();
      if driver.CannotRecord? {
        Destroy(start);
        Destroy(end);
        return Some(RecordFailed);
      }
      pending := pending + [Entry(start, end, info, hint, currentGroup)];
      return None;
    }

    /** The driver fails at one entry, if at all. */
    method ResolvePending(failsAt: Option<nat>) returns (error: Option<Error>)
      modifies this
      ensures if failsAt.Some? && failsAt.value < |old(pending)|
              then error == Some(ResolveFailed) && View() == ResolveFailsAt(old(View()), clock, failsAt.value)
              else error == None && View() == Apply(old(View()), clock, Resolve)
    {
      hide Resolved, DestroyEvent, WithStream;
      ghost var s := View();
      ResolvedNone(s, clock);
      var i := 0;
      while i < |pending|
        invariant i <= |pending| && pending == s.pending
        invariant failsAt.Some? ==> i <= failsAt.value
        invariant View() == Resolved(s, clock, i)
      {
        var p := pending[i];
        if failsAt == Some(i) {
          Destroy(p.start);
          Destroy(p.end);
          return Some(ResolveFailed);
        }
        ResolvedStep(s, clock, i);
        RecordWithGroup(p.info, clock(p.start, p.end), p.hint, p.group);
        Destroy(p.start);
        Destroy(p.end);
        i := i + 1;
      }
      ResolvedKeeps(s, clock, |s.pending|);
      pending := [];
      inFlight := [];
      return None;
    }

    /** Telemetry::time, call after call: the scope's destructor stops it after the inner calls, whatever they are. */
    method TimeAll(calls: seq<Call>)
      modifies this
      ensures View() == After(old(View()), clock, Events(calls, |old(inFlight)|))
      ensures |inFlight| == |old(inFlight)| + Count(calls)
      decreases calls
    {
      hide Apply, Events;
      ghost var s := View();
      if calls == [] {
        NoEvents(s, clock, |inFlight|);
        return;
      }
      var begun := BeginAsync(Works);
      StartGrows(s, clock);
      TimeAll(calls[0].inner);
      ghost var t := View();
      var error := EndAsync(begun.value, calls[0].info, calls[0].hint, Works);
      StopKeeps(t, clock, begun.value, calls[0].info, calls[0].hint);
      TimeAll(calls[1..]);
      EventsUnfold(s, clock, calls, |s.inFlight|);
    }

    method Benchmark(group: string, ops: nat, iterations: seq<seq<Call>>)
      modifies this
      ensures View() == After(old(View()), clock, Body(Timed(group, ops, iterations, |old(inFlight)|)))
    {
      hide After, Apply, Events, Concat, IterationEvents;
      ghost var s, n := View(), |inFlight|;
      BeginGroup(group, ops);
      GroupKeeps(s, clock, group, ops);
      ghost var began, all := View(), Concat(IterationEvents(iterations, n));
      var i := 0;
      assert iterations[0..] == iterations;
      while i < |iterations|
        invariant 0 <= i <= |iterations|
        invariant After(View(), clock, Concat(IterationEvents(iterations[i..], |inFlight|))) == After(began, clock, all)
      {
        ghost var t := View();
        NextIteration(t, clock, iterations[i..]);
        TimeAll(iterations[i]);
        assert iterations[i..][1..] == iterations[i + 1..];
        i := i + 1;
      }
      NoIterations(View(), clock, |inFlight|);
      EndGroup();
      BodyUnfold(s, clock, Timed(group, ops, iterations, n));
    }

    /** None when there is no replay. */
    method PrintSummary(group: string) returns (report: Option<Report>)
      ensures var replays := Summary(View(), group);
              report == if replays == [] then None
                        else Some(Report(|replays|, Sum(replays) / |replays| as real, replays[0], replays[|replays| - 1]))
    {
      var ops := if group in groupOps then groupOps[group] else 1;
      var durations := CollectReplays(records, group, ops);
      if |durations| == 0 {
        return None;
      }
      var total := 0.0;
      var i := 0;
      while i < |durations|
        invariant 0 <= i <= |durations|
        invariant total == Sum(durations[..i])
      {
        assert durations[..i + 1] == durations[..i] + [durations[i]];
        SumStep(durations[..i], durations[i]);
        total := total + durations[i];
        i := i + 1;
      }
      assert durations[..i] == durations;
      return Some(Report(|durations|, total / |durations| as real, durations[0], durations[|durations| - 1]));
    }
  }

  lemma StartGrows(s: State, clock: Clock)
    ensures |Apply(s, clock, Start).inFlight| == |s.inFlight| + 1
  {}

  lemma StopKeeps(s: State, clock: Clock, handle: nat, info: Info, hint: nat)
    ensures Apply(s, clock, Stop(handle, info, hint)).inFlight == s.inFlight
  {}

  lemma GroupKeeps(s: State, clock: Clock, group: string, ops: nat)
    ensures Apply(s, clock, BeginGroup(group, ops)).inFlight == s.inFlight
  {}

  lemma NoEvents(s: State, clock: Clock, n: nat)
    ensures After(s, clock, Events([], n)) == s
  {}

  lemma NoIterations(s: State, clock: Clock, n: nat)
    ensures After(s, clock, Concat(IterationEvents([], n))) == s
  {}

  lemma NextIteration(s: State, clock: Clock, iterations: seq<seq<Call>>)
    requires iterations != []
    ensures var n, first := |s.inFlight|, iterations[0];
            After(After(s, clock, Events(first, n)), clock, Concat(IterationEvents(iterations[1..], n + Count(first))))
            == After(s, clock, Concat(IterationEvents(iterations, n)))
  {
    hide After, Runs, Concat, IterationEvents;
    var n, first := |s.inFlight|, iterations[0];
    RunsConcat(s, clock, Events(first, n), Concat(IterationEvents(iterations[1..], n + Count(first))));
    FirstIteration(iterations, n);
  }

  lemma FirstIteration(iterations: seq<seq<Call>>, n: nat)
    requires iterations != []
    ensures Concat(IterationEvents(iterations, n))
            == Events(iterations[0], n) + Concat(IterationEvents(iterations[1..], n + Count(iterations[0])))
  {
    hide Events, Count;
    var rest := IterationEvents(iterations[1..], n + Count(iterations[0]));
    assert IterationEvents(iterations, n)[1..] == rest;
  }

  lemma ResolvedStep(s: State, clock: Clock, i: nat)
    requires i < |s.pending|
    ensures var r, p := Resolved(s, clock, i), s.pending[i];
            Resolved(s, clock, i + 1) == DestroyBoth(WithRecord(r, p, clock(p.start, p.end)), p)
  {}

  lemma ResolvedNone(s: State, clock: Clock)
    ensures Resolved(s, clock, 0) == s
  {}

  lemma BodyUnfold(s: State, clock: Clock, b: Benchmark)
    ensures After(s, clock, Body(b)) == Apply(After(Opened(s, clock, b), clock, Concat(b.iterations)), clock, EndGroup)
  {
    hide After, Apply, Concat, Runs;
    var open := BeginGroup(b.group, b.ops);
    RunsOne(s, clock, open);
    RunsConcat(s, clock, [open], Concat(b.iterations));
    RunsConcat(s, clock, [open] + Concat(b.iterations), [EndGroup]);
    RunsOne(After(s, clock, [open] + Concat(b.iterations)), clock, EndGroup);
  }
}
