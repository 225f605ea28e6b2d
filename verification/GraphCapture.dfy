/** Capturing graphs: what one capture does to a graph and to the driver, on every outcome. */
module GraphCapture {
  import opened Wrappers
  import opened PoolModel
  import opened PoolConservation
  import opened PoolHighWater

  /** The fields of Graph that a capture touches; graph and exec are driver handles. */
  datatype Graph = Graph(graph: Option<nat>, exec: Option<nat>, capturing: bool, strict: bool, before: int)

  /** The driver: how often each handle created so far has been destroyed, the graph an executable
      was instantiated from, and the streams in capture. */
  datatype Driver = Driver(destroyed: seq<nat>, source: map<nat, nat>, inCapture: set<nat>)

  datatype Error = AlreadyCapturing | NoCapture | BeginFailed | CallbackThrew | EndFailed | PoolGrew | InstantiateFailed
                 | NotInstantiated | UnknownGraph | LaunchFailed

  /** How the calls of one capture turn out: the driver's answers, whether the callback throws, the
      pool's bytes_reserved at both ends, and whether an aborted capture leaves a graph behind. */
  datatype Outcome = Outcome(beginOk: bool, fnThrows: bool, endOk: bool, instantiateOk: bool,
                             reservedBefore: int, reservedAfter: int, abortGraph: bool)

  function NewGraph(): Graph { Graph(None, None, false, true, 0) }

  // ---------------------------------------------------------------- the driver

  function Create(d: Driver): Driver { d.(destroyed := d.destroyed + [0]) }

  function Destroy(d: Driver, h: nat): Driver {
    if h < |d.destroyed| then d.(destroyed := d.destroyed[h := d.destroyed[h] + 1]) else d
  }

  function DestroyIf(d: Driver, h: Option<nat>): Driver { if h.Some? then Destroy(d, h.value) else d }

  // ---------------------------------------------------------------- Graph's methods

  datatype State = State(g: Graph, d: Driver)

  function Begin(s: State, stream: nat, strict: bool, o: Outcome): (State, Option<Error>) {
    if s.g.capturing then (s, Some(AlreadyCapturing))
    else
      var g := s.g.(strict := strict, before := o.reservedBefore);
      if !o.beginOk then (State(g, s.d), Some(BeginFailed))
      else (State(g.(capturing := true), s.d.(inCapture := s.d.inCapture + {stream})), None)
  }

  function Instantiate(s: State, o: Outcome): (State, Option<Error>) {
    var d := DestroyIf(s.d, s.g.exec);
    if !o.instantiateOk then (State(s.g.(exec := None), d), Some(InstantiateFailed))
    else
      var h := |d.destroyed|;
      var d' := Create(d);
      (State(s.g.(exec := Some(h)), if s.g.graph.Some? then d'.(source := d'.source[h := s.g.graph.value]) else d'), None)
  }

  /** end_capture up to the driver's answer: the old graph is destroyed, the new one, if any, kept. */
  function TakeGraph(s: State, stream: nat, o: Outcome): State {
    var d := DestroyIf(s.d, s.g.graph).(inCapture := s.d.inCapture - {stream});
    var g := s.g.(graph := None, capturing := false);
    if !o.endOk then State(g, d) else State(g.(graph := Some(|d.destroyed|)), Create(d))
  }

  function End(s: State, stream: nat, o: Outcome): (State, Option<Error>) {
    if !s.g.capturing then (s, Some(NoCapture))
    else
      var ended := TakeGraph(s, stream, o);
      if !o.endOk then (ended, Some(EndFailed))
      else if s.g.strict && o.reservedAfter != s.g.before then (ended, Some(PoolGrew))
      else Instantiate(ended, o)
  }

  function Abort(s: State, stream: nat, o: Outcome): State {
    if !s.g.capturing then s
    else
      var d := s.d.(inCapture := s.d.inCapture - {stream});
      State(s.g.(capturing := false), if o.abortGraph then Destroy(Create(d), |d.destroyed|) else d)
  }

  /** GraphManager::capture on one graph: begin, then callback and end inside the try block. */
  function Capture(s: State, stream: nat, strict: bool, o: Outcome): (State, Option<Error>) {
    var (begun, beginError) := Begin(s, stream, strict, o);
    if beginError.Some? then (begun, beginError)
    else if o.fnThrows then (Abort(begun, stream, o), Some(CallbackThrew))
    else
      var (ended, endError) := End(begun, stream, o);
      if endError.Some? then (Abort(ended, stream, o), endError) else (ended, None)
  }

  /** The destructor. */
  function Destruct(s: State): Driver { DestroyIf(DestroyIf(s.d, s.g.exec), s.g.graph) }

  // ---------------------------------------------------------------- one capture

  predicate Holds(g: Graph, h: nat) { g.graph == Some(h) || g.exec == Some(h) }

  predicate Distinct(g: Graph) { g.graph.Some? && g.exec.Some? ==> g.graph.value != g.exec.value }

  predicate Alive(h: Option<nat>, d: Driver) { h.Some? ==> h.value < |d.destroyed| && d.destroyed[h.value] == 0 }

  /** The graph's handles exist, are two, and have not been destroyed. */
  predicate Sound(s: State) { Distinct(s.g) && Alive(s.g.graph, s.d) && Alive(s.g.exec, s.d) }

  /** Every handle a change from s to s' creates or drops is held by the graph afterwards, or has
      been destroyed exactly once; nobody else's handle is touched. */
  ghost predicate Accounts(s: State, s': State) {
    && |s.d.destroyed| <= |s'.d.destroyed|
    && (forall h: nat :: Holds(s'.g, h) ==> h < |s'.d.destroyed| && (h < |s.d.destroyed| ==> Holds(s.g, h)))
    && (forall h | 0 <= h < |s'.d.destroyed| ::
          s'.d.destroyed[h] ==
            if Holds(s'.g, h) then 0
            else if h >= |s.d.destroyed| || Holds(s.g, h) then 1
            else s.d.destroyed[h])
  }

  lemma AccountsCompose(s: State, mid: State, s': State)
    requires Accounts(s, mid) && Accounts(mid, s')
    ensures Accounts(s, s')
  {}

  lemma InstantiateAccounts(s: State, o: Outcome)
    requires Sound(s)
    ensures Sound(Instantiate(s, o).0) && Accounts(s, Instantiate(s, o).0)
  {}

  lemma TakeGraphAccounts(s: State, stream: nat, o: Outcome)
    requires Sound(s)
    ensures Sound(TakeGraph(s, stream, o)) && Accounts(s, TakeGraph(s, stream, o))
  {}

  lemma AbortAccounts(s: State, stream: nat, o: Outcome)
    requires Sound(s)
    ensures Sound(Abort(s, stream, o)) && Accounts(s, Abort(s, stream, o))
  {}

  lemma BeginAccounts(s: State, stream: nat, strict: bool, o: Outcome)
    requires Sound(s)
    ensures Sound(Begin(s, stream, strict, o).0) && Accounts(s, Begin(s, stream, strict, o).0)
  {}

  lemma CaptureAccounts(s: State, stream: nat, strict: bool, o: Outcome)
    requires Sound(s) && !s.g.capturing
    ensures var s' := Capture(s, stream, strict, o).0; Sound(s') && Accounts(s, s')
  {
    hide Sound, Accounts, Instantiate, TakeGraph;
    var begun := Begin(s, stream, strict, o).0;
    BeginAccounts(s, stream, strict, o);
    if begun.g.capturing {
      AbortAccounts(begun, stream, o);
      AccountsCompose(s, begun, Abort(begun, stream, o));
      var ended := TakeGraph(begun, stream, o);
      TakeGraphAccounts(begun, stream, o);
      TakeGraphStops(begun, stream, o);
      AccountsCompose(s, begun, ended);
      InstantiateAccounts(ended, o);
      AccountsCompose(s, ended, Instantiate(ended, o).0);
      InstantiateStops(ended, o);
    }
  }

  lemma TakeGraphStops(s: State, stream: nat, o: Outcome)
    ensures !TakeGraph(s, stream, o).g.capturing
  {}

  lemma InstantiateStops(s: State, o: Outcome)
    ensures Instantiate(s, o).0.g.capturing == s.g.capturing
  {}

  /** Whatever happens, the graph is not capturing and the stream is out of capture. */
  lemma CaptureEnds(s: State, stream: nat, strict: bool, o: Outcome)
    requires !s.g.capturing && stream !in s.d.inCapture
    ensures var s' := Capture(s, stream, strict, o).0; !s'.g.capturing && s'.d.inCapture == s.d.inCapture
  {}

  /** A capture whose new graph has passed the growth check. */
  predicate Passes(strict: bool, o: Outcome) {
    o.beginOk && !o.fnThrows && o.endOk && (strict ==> o.reservedAfter == o.reservedBefore)
  }

  /** The executable is none, or comes from the graph of the latest capture that passed. */
  predicate ExecFrom(s: State, latest: Option<nat>) {
    s.g.exec.Some? ==> latest.Some? && s.g.exec.value in s.d.source && s.d.source[s.g.exec.value] == latest.value
  }

  /** The graph handle made by a capture that ends without a driver error. */
  function MadeGraph(s: State): nat { |s.d.destroyed| }

  lemma CaptureExec(s: State, stream: nat, strict: bool, o: Outcome, latest: Option<nat>)
    requires Sound(s) && !s.g.capturing && ExecFrom(s, latest)
    requires forall h :: h in s.d.source ==> h < |s.d.destroyed|
    ensures var (s', error) := Capture(s, stream, strict, o);
            && ExecFrom(s', if Passes(strict, o) then Some(MadeGraph(s)) else latest)
            && (error.None? <==> Passes(strict, o) && o.instantiateOk)
            && (error.None? ==> s'.g.exec.Some? && s'.g.graph == Some(MadeGraph(s)))
            && (error.Some? && Passes(strict, o) ==> s'.g.exec.None?)
            && (!Passes(strict, o) ==> s'.g.exec == s.g.exec)
            && (forall h :: h in s'.d.source ==> h < |s'.d.destroyed|)
            && (forall h :: h in s.d.source && h < |s.d.destroyed| ==> h in s'.d.source && s'.d.source[h] == s.d.source[h])
  {}

  /** Which error each guard gives, in the order of the calls. */
  lemma CaptureErrors(s: State, stream: nat, strict: bool, o: Outcome)
    requires !s.g.capturing
    ensures var error := Capture(s, stream, strict, o).1;
            && (error == Some(BeginFailed) <==> !o.beginOk)
            && (error == Some(CallbackThrew) <==> o.beginOk && o.fnThrows)
            && (error == Some(EndFailed) <==> o.beginOk && !o.fnThrows && !o.endOk)
            && (error == Some(PoolGrew) <==>
                  o.beginOk && !o.fnThrows && o.endOk && strict && o.reservedAfter != o.reservedBefore)
            && (error == Some(InstantiateFailed) <==> Passes(strict, o) && !o.instantiateOk)
            && (error == None <==> Passes(strict, o) && o.instantiateOk)
  {}

  /** What becomes of the recorded graph: kept when nothing was recorded, gone when ending failed, and otherwise
      the new one, also when the pool grew or the executable could not be made. */
  lemma CaptureGraph(s: State, stream: nat, strict: bool, o: Outcome)
    requires Sound(s) && !s.g.capturing
    ensures var s' := Capture(s, stream, strict, o).0;
            && (!o.beginOk || o.fnThrows ==> s'.g.graph == s.g.graph && s'.g.exec == s.g.exec)
            && (o.beginOk && !o.fnThrows && !o.endOk ==> s'.g.graph == None && s'.g.exec == s.g.exec)
            && (o.beginOk && !o.fnThrows && o.endOk ==> s'.g.graph == Some(MadeGraph(s)))
            && s'.g.strict == strict && s'.g.before == o.reservedBefore
  {}

  /** Calls that do not fit leave everything as it is: a second begin, and an end or abort without a begin. */
  lemma Guards(s: State, stream: nat, strict: bool, o: Outcome)
    ensures s.g.capturing ==> Begin(s, stream, strict, o) == (s, Some(AlreadyCapturing))
    ensures !s.g.capturing ==> End(s, stream, o) == (s, Some(NoCapture)) && Abort(s, stream, o) == s
  {}

  /** While a capture is open, its stream is in capture. */
  lemma BeginOpens(s: State, stream: nat, strict: bool, o: Outcome)
    requires !s.g.capturing && o.beginOk
    ensures var (s', error) := Begin(s, stream, strict, o);
            error == None && s'.g.capturing && s'.d.inCapture == s.d.inCapture + {stream} && s'.d.destroyed == s.d.destroyed
  {}

  /** After the destructor all handles the graph held have been destroyed once. */
  lemma DestructReleases(s: State)
    requires Sound(s)
    ensures |Destruct(s).destroyed| == |s.d.destroyed|
    ensures forall h | 0 <= h < |s.d.destroyed| ::
              Destruct(s).destroyed[h] == if Holds(s.g, h) then 1 else s.d.destroyed[h]
  {}

  // ---------------------------------------------------------------- many graphs, any sequence of captures

  /** The manager's graphs and streams by name, and (history) the graph handle of each name's latest
      capture that passed the growth check. */
  datatype Manager = Manager(graphs: map<string, Graph>, streams: map<string, nat>, d: Driver,
                             latest: map<string, Option<nat>>)

  datatype Call = Call(name: string, strict: bool, o: Outcome)

  function WithName(m: Manager, name: string): Manager {
    m.(graphs := if name in m.graphs then m.graphs else m.graphs[name := NewGraph()],
       streams := if name in m.streams then m.streams else m.streams[name := |m.streams|],
       latest := if name in m.latest then m.latest else m.latest[name := None])
  }

  /** One outermost call of GraphManager::capture. */
  function CaptureCall(m: Manager, c: Call): (Manager, Option<Error>) {
    var m1 := WithName(m, c.name);
    var s := State(m1.graphs[c.name], m1.d);
    var (s', error) := Capture(s, m1.streams[c.name], c.strict, c.o);
    (m1.(graphs := m1.graphs[c.name := s'.g], d := s'.d,
         latest := m1.latest[c.name := if Passes(c.strict, c.o) then Some(MadeGraph(s)) else m1.latest[c.name]]), error)
  }

  lemma WithNameIs(m: Manager, name: string)
    ensures WithName(m, name).d == m.d && name in WithName(m, name).graphs && name in WithName(m, name).streams
  {}

  /** A capture call changes only its own graph's entry, and the driver. */
  lemma CaptureCallIs(m: Manager, c: Call)
    ensures var named := WithName(m, c.name);
            var (s', error) := Capture(State(named.graphs[c.name], named.d), named.streams[c.name], c.strict, c.o);
            var (m', error') := CaptureCall(m, c);
            m'.graphs == named.graphs[c.name := s'.g] && m'.d == s'.d && m'.streams == named.streams && error' == error
  {}

  function AfterCalls(m: Manager, calls: seq<Call>): Manager
    decreases |calls|
  {
    if calls == [] then m else AfterCalls(CaptureCall(m, calls[0]).0, calls[1..])
  }

  /** Different names have different streams. */
  predicate StreamsApart(streams: map<string, nat>) {
    && (forall n :: n in streams ==> streams[n] < |streams|)
    && (forall n, n' :: n in streams && n' in streams && n != n' ==> streams[n] != streams[n'])
  }

  /** After any sequence of captures, names keep their own streams. */
  lemma {:induction false} CallsKeepStreams(m: Manager, calls: seq<Call>)
    requires StreamsApart(m.streams)
    ensures var m' := AfterCalls(m, calls);
            StreamsApart(m'.streams) && forall n :: n in m.streams ==> n in m'.streams && m'.streams[n] == m.streams[n]
    decreases |calls|
  {
    hide Capture;
    if calls != [] {
      NewStreamApart(m, calls[0].name);
      CaptureCallIs(m, calls[0]);
      CallsKeepStreams(CaptureCall(m, calls[0]).0, calls[1..]);
    }
  }

  lemma NewStreamApart(m: Manager, name: string)
    requires StreamsApart(m.streams)
    ensures var m' := WithName(m, name);
            StreamsApart(m'.streams) && name in m'.streams
            && forall n :: n in m.streams ==> n in m'.streams && m'.streams[n] == m.streams[n]
  {}

  function Empty(): Manager { Manager(map[], map[], Driver([], map[], {}), map[]) }

  ghost predicate Tidy(m: Manager) {
    && m.graphs.Keys == m.latest.Keys
    && m.d.inCapture == {}
    && (forall h :: h in m.d.source ==> h < |m.d.destroyed|)
    && (forall n | n in m.graphs :: !m.graphs[n].capturing && Sound(State(m.graphs[n], m.d))
                                    && ExecFrom(State(m.graphs[n], m.d), m.latest[n]))
    && (forall n, n', h | n in m.graphs && n' in m.graphs && n != n' && Holds(m.graphs[n], h) :: !Holds(m.graphs[n'], h))
    && (forall h | 0 <= h < |m.d.destroyed| :: Accounted(m, h))
  }

  /** A handle is held by a field of some graph, or has been destroyed exactly once. */
  ghost predicate Accounted(m: Manager, h: nat)
    requires h < |m.d.destroyed|
  {
    m.d.destroyed[h] == if HeldBySome(m, h) then 0 else 1
  }

  ghost predicate HeldBySome(m: Manager, h: nat) { exists n :: n in m.graphs && Holds(m.graphs[n], h) }

  lemma NewGraphHolds(d: Driver)
    ensures (forall h :: !Holds(NewGraph(), h)) && Sound(State(NewGraph(), d)) && ExecFrom(State(NewGraph(), d), None)
  {}

  lemma WithNameTidy(m: Manager, name: string)
    requires Tidy(m)
    ensures Tidy(WithName(m, name)) && name in WithName(m, name).graphs && name in WithName(m, name).streams
  {
    hide Holds, Sound, ExecFrom;
    NewGraphHolds(m.d);
    var m1 := WithName(m, name);
    forall h | 0 <= h < |m1.d.destroyed| ensures Accounted(m1, h) {
      assert Accounted(m, h);
      if HeldBySome(m, h) {
        var n :| n in m.graphs && Holds(m.graphs[n], h);
        assert n in m1.graphs && Holds(m1.graphs[n], h);
      }
    }
  }

  lemma CallTidy(m: Manager, c: Call)
    requires Tidy(m)
    ensures Tidy(CaptureCall(m, c).0)
  {
    hide Capture, Accounts, Sound, ExecFrom, Holds;
    WithNameTidy(m, c.name);
    var m1 := WithName(m, c.name);
    var s := State(m1.graphs[c.name], m1.d);
    CaptureAccounts(s, m1.streams[c.name], c.strict, c.o);
    CaptureEnds(s, m1.streams[c.name], c.strict, c.o);
    CaptureExec(s, m1.streams[c.name], c.strict, c.o, m1.latest[c.name]);
    OthersKeep(m1, c.name, s, CaptureCall(m, c).0, Capture(s, m1.streams[c.name], c.strict, c.o).0);
  }

  /** A change that accounts for its own handles leaves the other graphs as they were. */
  lemma OthersKeep(m: Manager, name: string, s: State, m': Manager, s': State)
    requires Tidy(m) && name in m.graphs && s == State(m.graphs[name], m.d)
    requires m'.graphs == m.graphs[name := s'.g] && m'.d == s'.d
    requires m'.latest.Keys == m'.graphs.Keys && forall n | n in m.graphs && n != name :: m'.latest[n] == m.latest[n]
    requires Sound(s') && Accounts(s, s') && !s'.g.capturing && s'.d.inCapture == {}
    requires ExecFrom(s', m'.latest[name])
    requires forall h :: h in s'.d.source ==> h < |s'.d.destroyed|
    requires forall h :: h in s.d.source && h < |s.d.destroyed| ==> h in s'.d.source && s'.d.source[h] == s.d.source[h]
    ensures Tidy(m')
  {
    hide Holds, Sound, ExecFrom, Accounts, Accounted;
    forall n | n in m'.graphs
      ensures !m'.graphs[n].capturing && Sound(State(m'.graphs[n], m'.d)) && ExecFrom(State(m'.graphs[n], m'.d), m'.latest[n])
    {
      if n != name {
        OtherSound(m.graphs[n], m.latest[n], s, s');
      }
    }
    HeldApart(m, name, s, m', s');
    forall h | 0 <= h < |m'.d.destroyed| ensures Accounted(m', h) {
      HandleAccounted(m, name, s, m', s', h);
    }
  }

  lemma OtherSound(g: Graph, latest: Option<nat>, s: State, s': State)
    requires Sound(State(g, s.d)) && ExecFrom(State(g, s.d), latest) && Accounts(s, s')
    requires forall h: nat | Holds(g, h) :: !Holds(s.g, h)
    requires forall h :: h in s.d.source && h < |s.d.destroyed| ==> h in s'.d.source && s'.d.source[h] == s.d.source[h]
    ensures Sound(State(g, s'.d)) && ExecFrom(State(g, s'.d), latest)
  {
    assert g.graph.Some? ==> Holds(g, g.graph.value);
    assert g.exec.Some? ==> Holds(g, g.exec.value);
  }

  lemma HeldApart(m: Manager, name: string, s: State, m': Manager, s': State)
    requires Tidy(m) && name in m.graphs && s == State(m.graphs[name], m.d)
    requires m'.graphs == m.graphs[name := s'.g] && Accounts(s, s')
    ensures forall n, n', h | n in m'.graphs && n' in m'.graphs && n != n' && Holds(m'.graphs[n], h) ::
              !Holds(m'.graphs[n'], h)
  {
    hide ExecFrom, Accounted, Holds;
    forall n, h: nat | n in m.graphs && n != name && Holds(m.graphs[n], h) ensures !Holds(s'.g, h) {
      OldHandle(m.graphs[n], m.d, h);
    }
  }

  lemma OldHandle(g: Graph, d: Driver, h: nat)
    requires Sound(State(g, d)) && Holds(g, h)
    ensures h < |d.destroyed|
  {}

  lemma HandleAccounted(m: Manager, name: string, s: State, m': Manager, s': State, h: nat)
    requires Tidy(m) && name in m.graphs && s == State(m.graphs[name], m.d)
    requires m'.graphs == m.graphs[name := s'.g] && m'.d == s'.d && Accounts(s, s') && h < |s'.d.destroyed|
    ensures Accounted(m', h)
  {
    if Holds(s'.g, h) {
      assert name in m'.graphs && Holds(m'.graphs[name], h);
    } else if h < |s.d.destroyed| && !Holds(s.g, h) {
      assert Accounted(m, h);
      assert HeldBySome(m', h) <==> HeldBySome(m, h) by {
        if HeldBySome(m, h) {
          var n :| n in m.graphs && Holds(m.graphs[n], h);
          assert n in m'.graphs && Holds(m'.graphs[n], h);
        }
      }
    } else {
      forall n | n in m'.graphs ensures !Holds(m'.graphs[n], h) {
        if n != name {
          assert Sound(State(m.graphs[n], m.d));
        }
      }
    }
  }

  /** For every sequence of outermost captures with any mix of outcomes: no graph is capturing, no stream
      is in capture, every handle ever created is held by exactly one field or destroyed exactly
      once, and each executable is none or from its graph's latest capture that passed. */
  lemma {:induction false} CapturesStayTidy(m: Manager, calls: seq<Call>)
    requires Tidy(m)
    ensures Tidy(AfterCalls(m, calls))
    decreases |calls|
  {
    hide Tidy, CaptureCall;
    if calls != [] {
      CallTidy(m, calls[0]);
      CapturesStayTidy(CaptureCall(m, calls[0]).0, calls[1..]);
    }
  }

  lemma FromEmpty(calls: seq<Call>)
    ensures Tidy(AfterCalls(Empty(), calls))
  {
    CapturesStayTidy(Empty(), calls);
  }

  /** A strict capture whose callback and driver calls succeed passes exactly when, in the pool's window
      between its two readings, nothing is preallocated and no class needs more than its free blocks. */
  lemma StrictCapturePassesIff(p: Sys, window: seq<Step>, p': Sys, o: Outcome)
    requires Conserved(p) && Run(p, window, p')
    requires o.beginOk && !o.fnThrows && o.endOk
    requires o.reservedBefore == p.pool.reserved && o.reservedAfter == p'.pool.reserved
    ensures Passes(true, o) <==> NonePreallocated(window) && forall k :: FitsFreeBlocks(p, window, k)
  {
    StrictCheckPassesIff(p, window, p');
  }
}
