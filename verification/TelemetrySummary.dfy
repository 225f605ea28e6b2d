/** Groups: what a run of benchmarks leaves in the records, and how print_summary reads it back. */
module TelemetrySummary {
  import opened TelemetryModel

  // ---------------------------------------------------------------- print_summary

  function Sum(d: seq<real>): real { if d == [] then 0.0 else Sum(d[..|d| - 1]) + d[|d| - 1] }

  /** The durations of a group's records, in order. */
  function Durations(records: seq<Record>, group: string): seq<real> {
    if records == [] then []
    else
      var n := |records| - 1;
      Durations(records[..n], group) + if records[n].group == group then [records[n].duration] else []
  }

  /** The sums of consecutive chunks of k; an incomplete last chunk is dropped. */
  function ChunkSums(d: seq<real>, k: nat): seq<real>
    decreases |d|
  {
    if k == 0 || |d| < k then [] else [Sum(d[..k])] + ChunkSums(d[k..], k)
  }

  function OpsPerIteration(s: State, group: string): nat { if group in s.groupOps then s.groupOps[group] else 1 }

  function Concat<T>(parts: seq<seq<T>>): seq<T> { if parts == [] then [] else parts[0] + Concat(parts[1..]) }

  function SumEach(chunks: seq<seq<real>>): (sums: seq<real>)
    ensures |sums| == |chunks| && forall i :: 0 <= i < |chunks| ==> sums[i] == Sum(chunks[i])
  {
    seq(|chunks|, i requires 0 <= i < |chunks| => Sum(chunks[i]))
  }

  predicate AllOfLength<T>(chunks: seq<seq<T>>, k: nat) { forall i :: 0 <= i < |chunks| ==> |chunks[i]| == k }

  /** Cut every k durations, a sequence made of chunks of k falls back into these chunks. */
  lemma {:induction false} CutsIntoChunks(chunks: seq<seq<real>>, k: nat, rest: seq<real>)
    requires k > 0 && AllOfLength(chunks, k) && |rest| < k
    ensures ChunkSums(Concat(chunks) + rest, k) == SumEach(chunks)
    decreases |chunks|
  {
    if chunks == [] {
      assert Concat(chunks) + rest == rest;
    } else {
      CutsIntoChunks(chunks[1..], k, rest);
      var d := Concat(chunks) + rest;
      assert d == chunks[0] + (Concat(chunks[1..]) + rest);
      assert d[..k] == chunks[0] && d[k..] == Concat(chunks[1..]) + rest;
      assert SumEach(chunks) == [Sum(chunks[0])] + SumEach(chunks[1..]);
    }
  }

  lemma {:induction false} ConcatLast<T>(parts: seq<seq<T>>, last: seq<T>)
    ensures Concat(parts + [last]) == Concat(parts) + last
    decreases |parts|
  {
    if parts == [] {
      assert parts + [last] == [last];
      assert Concat([last]) == last + Concat([last][1..]);
    } else {
      ConcatLast(parts[1..], last);
      assert (parts + [last])[1..] == parts[1..] + [last];
    }
  }

  lemma DurationsStep(records: seq<Record>, group: string, i: nat)
    requires i < |records|
    ensures Durations(records[..i + 1], group)
            == Durations(records[..i], group) + if records[i].group == group then [records[i].duration] else []
  {
    assert records[..i + 1][..i] == records[..i];
  }

  lemma SumStep(part: seq<real>, d: real)
    ensures Sum(part + [d]) == Sum(part) + d
  {
    assert (part + [d])[..|part|] == part;
  }

  lemma {:induction false} SumConcat(a: seq<real>, b: seq<real>)
    ensures Sum(a + b) == Sum(a) + Sum(b)
    decreases |b|
  {
    if b == [] {
      assert a + b == a;
    } else {
      var n := |b| - 1;
      SumConcat(a, b[..n]);
      assert a + b == (a + b[..n]) + [b[n]];
      SumStep(a + b[..n], b[n]);
    }
  }

  /** The average times the number of replays is everything measured: chunking loses no time. */
  lemma {:induction false} TotalIsKept(chunks: seq<seq<real>>)
    ensures Sum(SumEach(chunks)) == Sum(Concat(chunks))
  {
    if chunks != [] {
      TotalIsKept(chunks[1..]);
      SumConcat(chunks[0], Concat(chunks[1..]));
      SumConcat([Sum(chunks[0])], SumEach(chunks[1..]));
      assert SumEach(chunks) == [Sum(chunks[0])] + SumEach(chunks[1..]);
    }
  }

  /** The accumulator loop of print_summary collects exactly the chunk sums. */
  method CollectReplays(records: seq<Record>, group: string, opsPerIteration: nat) returns (durations: seq<real>)
    ensures durations == ChunkSums(Durations(records, group), opsPerIteration)
  {
    hide Durations, ChunkSums, Sum, Concat;
    durations := [];
    var acc := 0.0;
    var countInGroup := 0;
    ghost var chunks: seq<seq<real>>, part: seq<real> := [], [];
    CollectStart(records, group);
    var i := 0;
    while i < |records|
      invariant 0 <= i <= |records|
      invariant Durations(records[..i], group) == Concat(chunks) + part
      invariant countInGroup == |part| && acc == Sum(part)
      invariant opsPerIteration > 0 ==> |part| < opsPerIteration
      invariant AllOfLength(chunks, opsPerIteration)
      invariant durations == SumEach(chunks) && (opsPerIteration == 0 ==> durations == [])
    {
      DurationsStep(records, group, i);
      var r := records[i];
      if r.group == group {
        SumStep(part, r.duration);
        part := part + [r.duration];
        acc := acc + r.duration;
        countInGroup := countInGroup + 1;
        if countInGroup == opsPerIteration {
          ConcatLast(chunks, part);
          chunks, part := chunks + [part], [];
          CollectStart(records, group);
          durations := durations + [acc];
          acc := 0.0;
          countInGroup := 0;
        }
      }
      i := i + 1;
    }
    assert records[..i] == records;
    CollectEnd(Durations(records, group), opsPerIteration, chunks, part);
  }

  lemma CollectStart(records: seq<Record>, group: string)
    ensures Durations(records[..0], group) == [] && Sum([]) == 0.0 && Concat<real>([]) == []
  {}

  lemma CollectEnd(d: seq<real>, k: nat, chunks: seq<seq<real>>, part: seq<real>)
    requires d == Concat(chunks) + part && AllOfLength(chunks, k) && (k > 0 ==> |part| < k) && (k == 0 ==> chunks == [])
    ensures ChunkSums(d, k) == SumEach(chunks)
  {
    if k > 0 {
      CutsIntoChunks(chunks, k, part);
    }
  }

  /** The replay durations print_summary reports for a group. */
  function Summary(s: State, group: string): seq<real> {
    ChunkSums(Durations(s.records, group), OpsPerIteration(s, group))
  }

  lemma {:induction false} ChunksOfOne(d: seq<real>)
    ensures ChunkSums(d, 1) == d
    decreases |d|
  {
    if d != [] {
      ChunksOfOne(d[1..]);
      SumStep([], d[0]);
      assert d[..1] == [] + [d[0]] && d == [d[0]] + d[1..];
    }
  }

  /** A group that was never begun has one operation an iteration: each of its durations is a replay. */
  lemma UnknownGroupListsEach(s: State, group: string)
    requires group !in s.groupOps
    ensures Summary(s, group) == Durations(s.records, group)
  {
    ChunksOfOne(Durations(s.records, group));
  }

  // ---------------------------------------------------------------- what a group has measured

  /** The durations the pending entries of a group will get. */
  function Waiting(pending: seq<Entry>, clock: Clock, group: string): seq<real> {
    if pending == [] then []
    else
      var n := |pending| - 1;
      Waiting(pending[..n], clock, group)
      + if pending[n].group == group then [clock(pending[n].start, pending[n].end)] else []
  }

  /** Everything measured for a group, resolved or not. */
  function Measured(s: State, clock: Clock, group: string): seq<real> {
    Durations(s.records, group) + Waiting(s.pending, clock, group)
  }

  /** What one call measures for a group. */
  function Measures(s: State, clock: Clock, ev: Ev, group: string): seq<real> {
    if ev.Stop? && ev.handle < |s.inFlight| && s.current == group
    then [clock(s.inFlight[ev.handle], |s.destroyed|)] else []
  }

  lemma WaitingAppend(pending: seq<Entry>, p: Entry, clock: Clock, group: string)
    ensures Waiting(pending + [p], clock, group)
            == Waiting(pending, clock, group) + if p.group == group then [clock(p.start, p.end)] else []
  {
    assert (pending + [p])[..|pending|] == pending;
  }

  lemma DurationsAppend(records: seq<Record>, r: Record, group: string)
    ensures Durations(records + [r], group) == Durations(records, group) + if r.group == group then [r.duration] else []
  {
    assert (records + [r])[..|records|] == records;
  }

  function NewRecord(s: State, p: Entry, duration: real): (r: Record)
    ensures r.duration == duration && r.group == p.group && WithRecord(s, p, duration).records == s.records + [r]
  {
    Record(s.nextSequence, p.info, WithStream(s.streams, p.hint)[p.hint], duration, p.group)
  }

  /** Resolving moves a group's durations from the pending entries to the records, in order. */
  lemma {:induction false} ResolveMoves(s: State, clock: Clock, group: string, n: nat)
    requires n <= |s.pending|
    ensures Durations(Resolved(s, clock, n).records, group)
            == Durations(s.records, group) + Waiting(s.pending[..n], clock, group)
  {
    hide Durations, Waiting, NewRecord, WithStream, DestroyEvent;
    if n == 0 {
      assert s.pending[..0] == [];
      NothingWaits(clock, group);
    } else {
      ResolveMoves(s, clock, group, n - 1);
      var r, p := Resolved(s, clock, n - 1), s.pending[n - 1];
      DurationsAppend(r.records, NewRecord(r, p, clock(p.start, p.end)), group);
      assert s.pending[..n] == s.pending[..n - 1] + [p];
      WaitingAppend(s.pending[..n - 1], p, clock, group);
    }
  }

  lemma NothingWaits(clock: Clock, group: string)
    ensures Waiting([], clock, group) == [] && Durations([], group) == []
  {}

  /** No call loses, repeats or reorders a measurement; resolving changes none. */
  lemma ApplyMeasured(s: State, clock: Clock, ev: Ev, group: string)
    ensures Measured(Apply(s, clock, ev), clock, group) == Measured(s, clock, group) + Measures(s, clock, ev, group)
  {
    hide Durations, Waiting, Resolved;
    match ev
    case Stop(h, info, hint) =>
      if h < |s.inFlight| {
        WaitingAppend(s.pending, Entry(s.inFlight[h], |s.destroyed|, info, hint, s.current), clock, group);
      }
    case Resolve =>
      ResolveMoves(s, clock, group, |s.pending|);
      assert s.pending[..|s.pending|] == s.pending;
      NothingWaits(clock, group);
    case _ =>
  }

  // ---------------------------------------------------------------- benchmarks

  /** Calls made while the group stays as it is: scopes, nested or not, failing or not, and resolves. */
  predicate IsScopes(evs: seq<Ev>) { forall i :: 0 <= i < |evs| ==> !evs[i].BeginGroup? && !evs[i].EndGroup? }

  function Stops(evs: seq<Ev>): nat {
    if evs == [] then 0 else (if evs[0].Stop? then 1 else 0) + Stops(evs[1..])
  }

  /** Scopes outside any group, then one call of benchmark(). */
  datatype Benchmark = Benchmark(before: seq<Ev>, group: string, ops: nat, iterations: seq<seq<Ev>>)

  predicate AreIterations(iterations: seq<seq<Ev>>, k: nat) {
    forall i :: 0 <= i < |iterations| ==> IsScopes(iterations[i]) && Stops(iterations[i]) == k
  }

  /** Exactly `ops` scopes stopped in each iteration. */
  predicate IsBenchmark(b: Benchmark) { b.ops >= 1 && IsScopes(b.before) && AreIterations(b.iterations, b.ops) }

  /** benchmark(): open the group, run the iterations, close the group. */
  function Body(b: Benchmark): seq<Ev> { [BeginGroup(b.group, b.ops)] + Concat(b.iterations) + [EndGroup] }

  function Trace(bs: seq<Benchmark>): seq<Ev> {
    if bs == [] then [] else Trace(bs[..|bs| - 1]) + bs[|bs| - 1].before + Body(bs[|bs| - 1])
  }

  /** The durations of the scopes stopped in a stretch of calls, in order. */
  function Times(s: State, clock: Clock, evs: seq<Ev>): seq<real>
    decreases |evs|
  {
    if evs == [] then []
    else Measures(s, clock, evs[0], s.current) + Times(Apply(s, clock, evs[0]), clock, evs[1..])
  }

  lemma {:induction false} ScopesMeasure(s: State, clock: Clock, evs: seq<Ev>, group: string)
    requires IsScopes(evs) && Runs(s, clock, evs) && EventsOk(s)
    ensures var s' := After(s, clock, evs);
            && Measured(s', clock, group)
               == Measured(s, clock, group) + (if s.current == group then Times(s, clock, evs) else [])
            && |Times(s, clock, evs)| == Stops(evs)
            && s'.groupOps == s.groupOps && s'.current == s.current && EventsOk(s')
    decreases |evs|
  {
    hide EventsOk, Measured, Apply, Measures, Legal;
    if evs != [] {
      OneMeasure(s, clock, evs[0], group);
      ApplyEvents(s, clock, evs[0]);
      ApplyMeasured(s, clock, evs[0], group);
      ScopesMeasure(Apply(s, clock, evs[0]), clock, evs[1..], group);
    }
  }

  /** A call that leaves the group alone measures for the current group only, once if it stops a scope. */
  lemma OneMeasure(s: State, clock: Clock, ev: Ev, group: string)
    requires EventsOk(s) && Legal(s, ev) && !ev.BeginGroup? && !ev.EndGroup?
    ensures Measures(s, clock, ev, group) == if s.current == group then Measures(s, clock, ev, s.current) else []
    ensures |Measures(s, clock, ev, s.current)| == if ev.Stop? then 1 else 0
    ensures Apply(s, clock, ev).current == s.current && Apply(s, clock, ev).groupOps == s.groupOps
  {
    hide EventOk, Resolved, DestroyEvent;
    ResolvedKeeps(s, clock, |s.pending|);
  }

  /** The durations of each iteration, the state being the one in which the first starts. */
  function IterationTimes(s: State, clock: Clock, iterations: seq<seq<Ev>>): (r: seq<seq<real>>)
    ensures |r| == |iterations|
    decreases |iterations|
  {
    if iterations == [] then []
    else [Times(s, clock, iterations[0])] + IterationTimes(After(s, clock, iterations[0]), clock, iterations[1..])
  }

  lemma {:induction false} IterationsMeasure(s: State, clock: Clock, k: nat, iterations: seq<seq<Ev>>, group: string)
    requires EventsOk(s) && Runs(s, clock, Concat(iterations)) && AreIterations(iterations, k)
    ensures var s', times := After(s, clock, Concat(iterations)), IterationTimes(s, clock, iterations);
            && Measured(s', clock, group)
               == Measured(s, clock, group) + (if s.current == group then Concat(times) else [])
            && AllOfLength(times, k)
            && s'.groupOps == s.groupOps && s'.current == s.current && EventsOk(s')
    decreases |iterations|
  {
    hide EventsOk, Stops, IsScopes, Measured, Times;
    if iterations != [] {
      RunsConcat(s, clock, iterations[0], Concat(iterations[1..]));
      ScopesMeasure(s, clock, iterations[0], group);
      IterationsMeasure(After(s, clock, iterations[0]), clock, k, iterations[1..], group);
    }
  }

  /** The state in which a benchmark's first iteration starts. */
  function Opened(s: State, clock: Clock, b: Benchmark): State { Apply(s, clock, BeginGroup(b.group, b.ops)) }

  lemma BodyMeasures(s: State, clock: Clock, b: Benchmark, group: string)
    requires EventsOk(s) && IsBenchmark(b) && Runs(s, clock, Body(b))
    ensures var s', times := After(s, clock, Body(b)), IterationTimes(Opened(s, clock, b), clock, b.iterations);
            && Measured(s', clock, group)
               == Measured(s, clock, group) + (if b.group == group then Concat(times) else [])
            && AllOfLength(times, b.ops)
            && s'.groupOps == s.groupOps[b.group := b.ops] && s'.current == "" && EventsOk(s')
  {
    hide EventsOk, Measured, IterationTimes, AreIterations, AllOfLength, Concat, Resolved, IsScopes;
    var o := Opened(s, clock, b);
    ApplyEvents(s, clock, BeginGroup(b.group, b.ops));
    ApplyMeasured(s, clock, BeginGroup(b.group, b.ops), group);
    var body := Concat(b.iterations);
    assert Body(b)[1..] == body + [EndGroup];
    RunsConcat(o, clock, body, [EndGroup]);
    IterationsMeasure(o, clock, b.ops, b.iterations, group);
    var e := After(o, clock, body);
    assert After(e, clock, [EndGroup]) == Apply(e, clock, EndGroup);
    ApplyEvents(e, clock, EndGroup);
    ApplyMeasured(e, clock, EndGroup, group);
  }

  /** The state in which the last benchmark of a session is called. */
  function Called(clock: Clock, bs: seq<Benchmark>): State
    requires bs != []
  {
    After(Fresh(), clock, Trace(bs[..|bs| - 1]) + bs[|bs| - 1].before)
  }

  predicate IsSession(clock: Clock, bs: seq<Benchmark>) {
    (forall i :: 0 <= i < |bs| ==> IsBenchmark(bs[i])) && Runs(Fresh(), clock, Trace(bs))
  }

  /** Scopes outside every group have the empty label; a benchmark with that label must not meet any. */
  predicate Apart(bs: seq<Benchmark>, group: string) {
    group != "" || forall i :: 0 <= i < |bs| ==> Stops(bs[i].before) == 0
  }

  lemma FreshMeasures(clock: Clock, group: string)
    ensures EventsOk(Fresh()) && Fresh().current == "" && Measured(Fresh(), clock, group) == []
  {}

  /** A session is the shorter session, then loose scopes, then a benchmark. */
  lemma SessionSplits(clock: Clock, bs: seq<Benchmark>)
    requires bs != [] && IsSession(clock, bs)
    ensures var shorter, last := bs[..|bs| - 1], bs[|bs| - 1];
            var s := After(Fresh(), clock, Trace(shorter));
            && IsSession(clock, shorter) && IsBenchmark(last)
            && Runs(s, clock, last.before) && After(s, clock, last.before) == Called(clock, bs)
            && Runs(Called(clock, bs), clock, Body(last))
            && After(Fresh(), clock, Trace(bs)) == After(Called(clock, bs), clock, Body(last))
  {
    hide Runs, After, IsBenchmark, Body;
    var shorter, last := bs[..|bs| - 1], bs[|bs| - 1];
    RunsConcat(Fresh(), clock, Trace(shorter) + last.before, Body(last));
    RunsConcat(Fresh(), clock, Trace(shorter), last.before);
  }

  /** What the last benchmark of a session adds to a group's measurements. */
  lemma {:induction false} SessionStep(clock: Clock, bs: seq<Benchmark>, group: string)
    requires bs != [] && IsSession(clock, bs) && Apart(bs, group)
    requires var s := After(Fresh(), clock, Trace(bs[..|bs| - 1])); EventsOk(s) && s.current == ""
    ensures var before, s, b := After(Fresh(), clock, Trace(bs[..|bs| - 1])), After(Fresh(), clock, Trace(bs)), bs[|bs| - 1];
            var times := IterationTimes(Opened(Called(clock, bs), clock, b), clock, b.iterations);
            && EventsOk(s) && s.current == "" && s.groupOps == before.groupOps[b.group := b.ops]
            && AllOfLength(times, b.ops)
            && Measured(s, clock, group) == Measured(before, clock, group) + (if b.group == group then Concat(times) else [])
  {
    hide EventsOk, Measured, IterationTimes, AllOfLength, Concat, Runs, After, Body, Trace, Opened, Called, Stops, Times;
    SessionSplits(clock, bs);
    var b := bs[|bs| - 1];
    var s := After(Fresh(), clock, Trace(bs[..|bs| - 1]));
    ScopesMeasure(s, clock, b.before, group);
    if group == "" {
      assert Stops(b.before) == 0;
    }
    BodyMeasures(Called(clock, bs), clock, b, group);
  }

  /** After any session: the invariant holds, no group is open, and a label no benchmark used has measured nothing. */
  lemma {:induction false} UnusedLabel(clock: Clock, bs: seq<Benchmark>, group: string)
    requires IsSession(clock, bs)
    ensures var s := After(Fresh(), clock, Trace(bs));
            && EventsOk(s) && s.current == ""
            && (Apart(bs, group) && (forall i :: 0 <= i < |bs| ==> bs[i].group != group) ==> Measured(s, clock, group) == [])
    decreases |bs|
  {
    hide EventsOk, Measured, IterationTimes, AllOfLength, Concat, Runs, Body, Opened, Called, Stops, Fresh, IsBenchmark;
    FreshMeasures(clock, group);
    if bs != [] {
      SessionSplits(clock, bs);
      UnusedLabel(clock, bs[..|bs| - 1], group);
      SessionStep(clock, bs, "x");
      if Apart(bs, group) && forall i :: 0 <= i < |bs| ==> bs[i].group != group {
        SessionStep(clock, bs, group);
      }
    }
  }

  /** With distinct labels, what is measured for a benchmark's group is its iterations' scopes, chunk by chunk. */
  lemma {:induction false} LabelMeasures(clock: Clock, bs: seq<Benchmark>, i: nat)
    requires IsSession(clock, bs) && i < |bs| && Apart(bs, bs[i].group)
    requires forall j :: 0 <= j < |bs| && j != i ==> bs[j].group != bs[i].group
    ensures var s := After(Fresh(), clock, Trace(bs));
            var times := IterationTimes(Opened(Called(clock, bs[..i + 1]), clock, bs[i]), clock, bs[i].iterations);
            && Measured(s, clock, bs[i].group) == Concat(times) && AllOfLength(times, bs[i].ops)
            && OpsPerIteration(s, bs[i].group) == bs[i].ops
    decreases |bs|
  {
    hide EventsOk, Measured, IterationTimes, AllOfLength, Concat, Runs, Body, Opened, Called, Stops, Fresh, IsBenchmark, Trace, After;
    SessionSplits(clock, bs);
    var shorter := bs[..|bs| - 1];
    UnusedLabel(clock, shorter, bs[i].group);
    SessionStep(clock, bs, bs[i].group);
    if i == |bs| - 1 {
      assert bs[..i + 1] == bs;
    } else {
      LabelMeasures(clock, shorter, i);
      assert shorter[..i + 1] == bs[..i + 1];
    }
  }

  /** A resolve turns what was measured into the summary. */
  lemma ResolveSums(s: State, clock: Clock, group: string, times: seq<seq<real>>)
    requires OpsPerIteration(s, group) > 0 && AllOfLength(times, OpsPerIteration(s, group))
    requires Measured(s, clock, group) == Concat(times)
    ensures Summary(Apply(s, clock, Resolve), group) == SumEach(times)
  {
    hide Durations, Concat, ChunkSums, SumEach, Resolved, AllOfLength;
    ApplyMeasured(s, clock, Resolve, group);
    ResolvedKeeps(s, clock, |s.pending|);
    NothingWaits(clock, group);
    assert Durations(Apply(s, clock, Resolve).records, group) == Concat(times) + [];
    CutsIntoChunks(times, OpsPerIteration(s, group), []);
  }

  /** Run any benchmarks with distinct labels, with scopes and resolves in between, and resolve at the end: then
      print_summary cuts each group into exactly its replays, the i-th sum being iteration i's durations. */
  lemma SummaryReportsReplays(clock: Clock, bs: seq<Benchmark>, i: nat)
    requires IsSession(clock, bs) && i < |bs| && Apart(bs, bs[i].group)
    requires forall j :: 0 <= j < |bs| && j != i ==> bs[j].group != bs[i].group
    ensures Summary(After(Fresh(), clock, Trace(bs) + [Resolve]), bs[i].group)
            == SumEach(IterationTimes(Opened(Called(clock, bs[..i + 1]), clock, bs[i]), clock, bs[i].iterations))
  {
    hide Measured, IterationTimes, AllOfLength, Concat, Runs, Opened, Called, Trace, Summary, SumEach, Apply, Fresh, Apart, OpsPerIteration;
    var s := After(Fresh(), clock, Trace(bs));
    LabelMeasures(clock, bs, i);
    RunsConcat(Fresh(), clock, Trace(bs), [Resolve]);
    assert After(s, clock, [Resolve]) == Apply(s, clock, Resolve);
    ResolveSums(s, clock, bs[i].group, IterationTimes(Opened(Called(clock, bs[..i + 1]), clock, bs[i]), clock, bs[i].iterations));
  }
}
