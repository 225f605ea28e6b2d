/** Graph and GraphManager as objects whose methods update their fields; each method is proved to do
    what the capture specification says, throw paths included. */
module GraphManager {
  import opened Wrappers
  import G = GraphCapture

  class CudaDriver {
    var d: G.Driver

    constructor ()
      ensures d == G.Empty().d
    {
      d := G.Empty().d;
    }

    method CreateHandle() returns (h: nat)
      modifies this
      ensures h == old(|d.destroyed|) && d == G.Create(old(d))
    {
      h := |d.destroyed|;
      d := G.Create(d);
    }

    method DestroyHandle(h: nat)
      modifies this
      ensures d == G.Destroy(old(d), h)
    {
      d := G.Destroy(d, h);
    }
  }

  class GraphObject {
    var graph: Option<nat>
    var exec: Option<nat>
    var capturing: bool
    var strict: bool
    var bytesReservedBefore: int

    function View(): G.Graph
      reads this
    {
      G.Graph(graph, exec, capturing, strict, bytesReservedBefore)
    }

    constructor ()
      ensures View() == G.NewGraph()
    {
      graph, exec, capturing, strict, bytesReservedBefore := None, None, false, true, 0;
    }

    method BeginCapture(cuda: CudaDriver, stream: nat, strictly: bool, o: G.Outcome) returns (error: Option<G.Error>)
      modifies this, cuda
      ensures (G.State(View(), cuda.d), error) == G.Begin(old(G.State(View(), cuda.d)), stream, strictly, o)
    {
      if capturing {
        return Some(G.AlreadyCapturing);
      }
      strict := strictly;
      bytesReservedBefore := o.reservedBefore;
      if !o.beginOk {
        return Some(G.BeginFailed);
      }
      cuda.d := cuda.d.(inCapture := cuda.d.inCapture + {stream});
      capturing := true;
      return None;
    }

    method EndCapture(cuda: CudaDriver, stream: nat, o: G.Outcome) returns (error: Option<G.Error>)
      modifies this, cuda
      ensures (G.State(View(), cuda.d), error) == G.End(old(G.State(View(), cuda.d)), stream, o)
    {
      if !capturing {
        return Some(G.NoCapture);
      }
      if graph.Some? {
        cuda.DestroyHandle(graph.value);
        graph := None;
      }
      cuda.d := cuda.d.(inCapture := cuda.d.inCapture - {stream});
      if o.endOk {
        var h := cuda.CreateHandle();
        graph := Some(h);
      }
      capturing := false;
      if !o.endOk {
        return Some(G.EndFailed);
      }
      if strict {
        var bytesAfter := o.reservedAfter;
        if bytesAfter != bytesReservedBefore {
          return Some(G.PoolGrew);
        }
      }
      error := InstantiateGraph(cuda, o);
    }

    method InstantiateGraph(cuda: CudaDriver, o: G.Outcome) returns (error: Option<G.Error>)
      modifies this, cuda
      ensures (G.State(View(), cuda.d), error) == G.Instantiate(old(G.State(View(), cuda.d)), o)
    {
      if exec.Some? {
        cuda.DestroyHandle(exec.value);
        exec := None;
      }
      if !o.instantiateOk {
        return Some(G.InstantiateFailed);
      }
      var h := cuda.CreateHandle();
      exec := Some(h);
      if graph.Some? {
        cuda.d := cuda.d.(source := cuda.d.source[h := graph.value]);
      }
      return None;
    }

    method AbortCapture(cuda: CudaDriver, stream: nat, o: G.Outcome)
      modifies this, cuda
      ensures G.State(View(), cuda.d) == G.Abort(old(G.State(View(), cuda.d)), stream, o)
    {
      if !capturing {
        return;
      }
      cuda.d := cuda.d.(inCapture := cuda.d.inCapture - {stream});
      if o.abortGraph {
        var dangling := cuda.CreateHandle();
        cuda.DestroyHandle(dangling);
      }
      capturing := false;
    }

    /** launch: refused when no executable exists, or by the driver; otherwise it replays the executable. */
    method Launch(driverOk: bool) returns (r: Result<nat, G.Error>)
      ensures r == if exec.None? then Failure(G.NotInstantiated)
                   else if !driverOk then Failure(G.LaunchFailed) else Success(exec.value)
    {
      if exec.None? {
        return Failure(G.NotInstantiated);
      }
      if !driverOk {
        return Failure(G.LaunchFailed);
      }
      return Success(exec.value);
    }
  }

  class Manager {
    var graphs: map<string, GraphObject>
    var ownedStreams: map<string, nat>
    const cuda: CudaDriver
    /** History: the graph of each name's latest capture that passed the growth check. */
    ghost var latest: map<string, Option<nat>>

    ghost function Graphs(): map<string, G.Graph>
      reads this, graphs.Values
    {
      map n | n in graphs :: graphs[n].View()
    }

    ghost function Model(): G.Manager
      reads this, graphs.Values, cuda
    {
      G.Manager(Graphs(), ownedStreams, cuda.d, latest)
    }

    /** Different names have different graphs. */
    predicate Apart()
      reads this
    {
      forall n, n' :: n in graphs && n' in graphs && n != n' ==> graphs[n] != graphs[n']
    }

    ghost predicate Valid()
      reads this, graphs.Values, cuda
    {
      Apart() && G.Tidy(Model())
    }

    constructor (cuda: CudaDriver)
      requires cuda.d == G.Empty().d
      ensures Valid() && Model() == G.Empty() && this.cuda == cuda
    {
      graphs, ownedStreams, this.cuda, latest := map[], map[], cuda, map[];
    }

    method GetOrCreate(name: string) returns (g: GraphObject)
      requires Apart()
      modifies this`graphs
      ensures Apart() && name in graphs && graphs[name] == g
      ensures old(name in graphs) ==> graphs == old(graphs)
      ensures old(name !in graphs) ==> graphs == old(graphs)[name := g] && fresh(g) && g.View() == G.NewGraph()
      ensures Graphs() == if old(name in graphs) then old(Graphs()) else old(Graphs())[name := G.NewGraph()]
    {
      if name in graphs {
        return graphs[name];
      }
      g := new GraphObject();
      graphs := graphs[name := g];
    }

    method StreamFor(name: string) returns (stream: nat)
      modifies this`ownedStreams
      ensures name in ownedStreams && ownedStreams[name] == stream
      ensures ownedStreams ==
              if old(name in ownedStreams) then old(ownedStreams) else old(ownedStreams)[name := old(|ownedStreams|)]
    {
      if name !in ownedStreams {
        ownedStreams := ownedStreams[name := |ownedStreams|];
      }
      stream := ownedStreams[name];
    }

    /** capture: on every outcome the object ends in the specified state, and the error is rethrown.
        Being valid it has no capture open, and each handle is held by one field or destroyed once. */
    method Capture(name: string, strict: bool, o: G.Outcome) returns (error: Option<G.Error>)
      requires Valid()
      modifies this, cuda, graphs.Values
      ensures Valid() && (Model(), error) == G.CaptureCall(old(Model()), G.Call(name, strict, o))
    {
      hide G.Tidy, G.Capture, G.CaptureCall, G.WithName;
      ghost var before, call := Model(), G.Call(name, strict, o);
      ghost var named := G.WithName(before, name);
      var g, stream := LookUp(name);
      assert Graphs()[name] == g.View();
      assert G.State(g.View(), cuda.d) == G.State(named.graphs[name], before.d);
      error := CaptureIn(name, g, stream, strict, o);
      latest := G.CaptureCall(before, call).0.latest;
      G.CaptureCallIs(before, call);
      G.WithNameIs(before, name);
      G.CallTidy(before, call);
      assert Graphs() == G.CaptureCall(before, call).0.graphs && cuda.d == G.CaptureCall(before, call).0.d;
      assert Model() == G.CaptureCall(before, call).0;
    }

    /** get_or_create and stream_for, the first two lines of capture. */
    method LookUp(name: string) returns (g: GraphObject, stream: nat)
      requires Apart()
      modifies this`graphs, this`ownedStreams
      ensures Apart() && name in graphs && graphs[name] == g
      ensures Graphs() == G.WithName(old(Model()), name).graphs
      ensures ownedStreams == G.WithName(old(Model()), name).streams && stream == ownedStreams[name]
      ensures g in old(graphs.Values) || fresh(g)
      ensures forall n | n in graphs :: graphs[n] in old(graphs.Values) || fresh(graphs[n])
    {
      g := GetOrCreate(name);
      stream := StreamFor(name);
    }

    method CaptureIn(name: string, g: GraphObject, stream: nat, strict: bool, o: G.Outcome)
      returns (error: Option<G.Error>)
      requires Apart() && name in graphs && graphs[name] == g
      modifies g, cuda
      ensures (G.State(g.View(), cuda.d), error) == G.Capture(old(G.State(g.View(), cuda.d)), stream, strict, o)
      ensures Graphs() == old(Graphs())[name := g.View()]
    {
      hide G.Capture;
      error := CaptureOn(g, stream, strict, o);
      assert forall n | n in graphs && n != name :: graphs[n] != g;
    }

    /** The part of capture after the lookups, on one graph. */
    method CaptureOn(g: GraphObject, stream: nat, strict: bool, o: G.Outcome) returns (error: Option<G.Error>)
      modifies g, cuda
      ensures (G.State(g.View(), cuda.d), error) == G.Capture(old(G.State(g.View(), cuda.d)), stream, strict, o)
    {
      error := g.BeginCapture(cuda, stream, strict, o);
      if error.Some? {
        return;
      }
      if o.fnThrows {
        error := Some(G.CallbackThrew);
      } else {
        error := g.EndCapture(cuda, stream, o);
      }
      if error.Some? {
        g.AbortCapture(cuda, stream, o);
      }
    }

    /** launch by name: unknown names are refused; the launch goes to the name's own stream. */
    method LaunchNamed(name: string, driverOk: bool) returns (r: Result<(nat, nat), G.Error>)
      modifies this`ownedStreams
      ensures ownedStreams ==
              if old(name in ownedStreams) then old(ownedStreams) else old(ownedStreams)[name := old(|ownedStreams|)]
      ensures name !in graphs ==> r == Failure(G.UnknownGraph)
      ensures name in graphs && graphs[name].exec.None? ==> r == Failure(G.NotInstantiated)
      ensures name in graphs && graphs[name].exec.Some? && !driverOk ==> r == Failure(G.LaunchFailed)
      ensures name in graphs && graphs[name].exec.Some? && driverOk ==>
                name in ownedStreams && r == Success((graphs[name].exec.value, ownedStreams[name]))
    {
      var stream := StreamFor(name);
      if name !in graphs {
        return Failure(G.UnknownGraph);
      }
      var launched := graphs[name].Launch(driverOk);
      return if launched.Failure? then Failure(launched.error) else Success((launched.value, stream));
    }
  }
}
