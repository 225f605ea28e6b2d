/** Telemetry::time as a tree of calls: each opens a scope, runs the calls inside it and stops the scope. */
module TelemetryScopes {
  import opened TelemetryModel
  import opened TelemetrySummary

  /** One call of time(), and the calls its function makes. */
  datatype Call = Time(info: Info, hint: nat, inner: seq<Call>)

  function Count(calls: seq<Call>): nat { if calls == [] then 0 else 1 + Count(calls[0].inner) + Count(calls[1..]) }

  /** The events of calls made when n scopes have been started since the last resolve. */
  function Events(calls: seq<Call>, n: nat): seq<Ev> {
    if calls == [] then []
    else [Start] + Events(calls[0].inner, n + 1) + [Stop(n, calls[0].info, calls[0].hint)]
         + Events(calls[1..], n + 1 + Count(calls[0].inner))
  }

  lemma {:induction false} StopsConcat(a: seq<Ev>, b: seq<Ev>)
    ensures Stops(a + b) == Stops(a) + Stops(b) && (IsScopes(a) && IsScopes(b) ==> IsScopes(a + b))
  {
    if a == [] {
      assert a + b == b;
    } else {
      assert (a + b)[1..] == a[1..] + b;
      StopsConcat(a[1..], b);
    }
  }

  /** The first call's scope, run around its inner calls. */
  lemma OneCall(s: State, clock: Clock, stop: Ev, inner: seq<Ev>)
    requires stop.Stop? && stop.handle == |s.inFlight|
    requires var s1 := Apply(s, clock, Start); Runs(s1, clock, inner) && |s.inFlight| in After(s1, clock, inner).open
    ensures var s1, evs := Apply(s, clock, Start), [Start] + inner + [stop];
            && Runs(s, clock, evs)
            && After(s, clock, evs) == Apply(After(s1, clock, inner), clock, stop)
  {
    hide Runs, After, Apply;
    var s1 := Apply(s, clock, Start);
    RunsOne(s, clock, Start);
    RunsConcat(s, clock, [Start], inner);
    RunsConcat(s, clock, [Start] + inner, [stop]);
    RunsOne(After(s1, clock, inner), clock, stop);
  }

  lemma RunsOne(s: State, clock: Clock, ev: Ev)
    ensures Runs(s, clock, [ev]) == Legal(s, ev) && After(s, clock, [ev]) == Apply(s, clock, ev)
  {
    hide Apply, Legal;
    assert [ev][1..] == [];
  }

  lemma StopsOfOne(inner: seq<Ev>, stop: Ev)
    requires IsScopes(inner) && stop.Stop?
    ensures var evs := [Start] + inner + [stop]; IsScopes(evs) && Stops(evs) == Stops(inner) + 1
  {
    StopsConcat([Start] + inner, [stop]);
    StopsConcat([Start], inner);
  }

  /** Whatever calls of time() are made and however they nest, each scope is stopped exactly once, and all are
      stopped at the end: so the run is legal, and one event pair becomes pending per call. */
  lemma {:induction false} TimeCallsAreLegal(s: State, clock: Clock, calls: seq<Call>)
    requires forall h | h in s.open :: h < |s.inFlight|
    ensures var evs := Events(calls, |s.inFlight|); var s' := After(s, clock, evs);
            && Runs(s, clock, evs) && IsScopes(evs) && Stops(evs) == Count(calls)
            && s'.open == s.open && |s'.inFlight| == |s.inFlight| + Count(calls)
            && |s'.pending| == |s.pending| + Count(calls)
            && s.inFlight <= s'.inFlight && |s'.destroyed| == |s.destroyed| + 2 * Count(calls)
    decreases calls
  {
    hide Runs, IsScopes, Stops, After;
    var n := |s.inFlight|;
    if calls == [] {
      NoCalls(s, clock);
    } else {
      var s1 := Apply(s, clock, Start);
      var inner, stop := Events(calls[0].inner, n + 1), Stop(n, calls[0].info, calls[0].hint);
      TimeCallsAreLegal(s1, clock, calls[0].inner);
      OneCall(s, clock, stop, inner);
      StopsOfOne(inner, stop);
      var first := [Start] + inner + [stop];
      var s2 := After(s, clock, first);
      assert s2.open == s.open;
      TimeCallsAreLegal(s2, clock, calls[1..]);
      var rest := Events(calls[1..], |s2.inFlight|);
      RunsConcat(s, clock, first, rest);
      StopsConcat(first, rest);
    }
  }

  lemma NoCalls(s: State, clock: Clock)
    ensures Runs(s, clock, []) && IsScopes([]) && Stops([]) == 0 && After(s, clock, []) == s
  {}

  /** Running the events of some calls is running the first one's scope around its inner calls, then the others. */
  lemma EventsUnfold(s: State, clock: Clock, calls: seq<Call>, n: nat)
    requires calls != []
    ensures var inner := After(Apply(s, clock, Start), clock, Events(calls[0].inner, n + 1));
            After(s, clock, Events(calls, n))
            == After(Apply(inner, clock, Stop(n, calls[0].info, calls[0].hint)), clock, Events(calls[1..], n + 1 + Count(calls[0].inner)))
  {
    hide After, Apply, Count, Runs;
    var inner, stop := Events(calls[0].inner, n + 1), Stop(n, calls[0].info, calls[0].hint);
    var rest := Events(calls[1..], n + 1 + Count(calls[0].inner));
    RunsOne(s, clock, Start);
    RunsConcat(s, clock, [Start], inner);
    RunsConcat(s, clock, [Start] + inner, [stop]);
    RunsOne(After(s, clock, [Start] + inner), clock, stop);
    RunsConcat(s, clock, [Start] + inner + [stop], rest);
  }

  // ---------------------------------------------------------------- benchmark() over time() calls

  /** The events of each iteration when n scopes have been started before the first. */
  function IterationEvents(iterations: seq<seq<Call>>, n: nat): (r: seq<seq<Ev>>)
    ensures |r| == |iterations|
  {
    if iterations == [] then [] else [Events(iterations[0], n)] + IterationEvents(iterations[1..], n + Count(iterations[0]))
  }

  function Timed(group: string, ops: nat, iterations: seq<seq<Call>>, n: nat): Benchmark {
    Benchmark([], group, ops, IterationEvents(iterations, n))
  }

  lemma {:induction false} IterationsAreLegal(s: State, clock: Clock, ops: nat, iterations: seq<seq<Call>>)
    requires forall h | h in s.open :: h < |s.inFlight|
    requires forall i :: 0 <= i < |iterations| ==> Count(iterations[i]) == ops
    ensures var evs := IterationEvents(iterations, |s.inFlight|);
            && AreIterations(evs, ops) && Runs(s, clock, Concat(evs))
            && After(s, clock, Concat(evs)).open == s.open
            && |After(s, clock, Concat(evs)).inFlight| >= |s.inFlight|
    decreases |iterations|
  {
    hide IsScopes, Stops, Count, Events, Runs, After;
    if iterations == [] {
      NoCalls(s, clock);
    } else {
      TimeCallsAreLegal(s, clock, iterations[0]);
      var first := Events(iterations[0], |s.inFlight|);
      var s1 := After(s, clock, first);
      IterationsAreLegal(s1, clock, ops, iterations[1..]);
      RunsConcat(s, clock, first, Concat(IterationEvents(iterations[1..], |s1.inFlight|)));
    }
  }

  /** A call of benchmark() whose iterations each make exactly `ops` calls of time(), nested or not, is a legal
      benchmark and leaves no scope open that was not open before. */
  lemma TimedBenchmarkIsLegal(s: State, clock: Clock, group: string, ops: nat, iterations: seq<seq<Call>>)
    requires ops >= 1 && forall h | h in s.open :: h < |s.inFlight|
    requires forall i :: 0 <= i < |iterations| ==> Count(iterations[i]) == ops
    ensures var b := Timed(group, ops, iterations, |s.inFlight|);
            IsBenchmark(b) && Runs(s, clock, Body(b)) && After(s, clock, Body(b)).open == s.open
  {
    hide After, Runs, AreIterations, Concat, IterationEvents, Count;
    var b := Timed(group, ops, iterations, |s.inFlight|);
    var s1 := Opened(s, clock, b);
    IterationsAreLegal(s1, clock, ops, iterations);
    RunsOne(s, clock, BeginGroup(group, ops));
    RunsConcat(s, clock, [BeginGroup(group, ops)], Concat(b.iterations));
    RunsConcat(s, clock, [BeginGroup(group, ops)] + Concat(b.iterations), [EndGroup]);
    RunsOne(After(s1, clock, Concat(b.iterations)), clock, EndGroup);
  }
}
