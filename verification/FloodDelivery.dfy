/** Where the answers of the code arrive. */
module FloodDelivery {
  import opened Basics
  import opened Wire
  import opened SearchRules
  import opened Sending
  import opened Flood
  import opened FloodLaws
  import opened FloodConservation
  import opened FloodPolicies

  /** The handler finds the file here, and says so to the client or to a node at the address x names. */
  predicate Delivers(s: Network, e: Event, x: Finding)
    requires Enabled(s, e)
  {
    e.Serve? && e.hit && s.nodes[e.n].self == x.machine &&
    match s.nodes[e.n].pending[0]
    case LocalSearch(file) => file == x.file && s.nodes[e.n].self.ip == x.asker
    case RemoteSearch(_, req) =>
      !IsSource(s.nodes[e.n], req) && req.file == x.file && exists r :: r in e.to && s.nodes[r].self.ip == x.asker
  }

  ghost predicate SomeDelivers(s: Network, events: seq<Event>, x: Finding)
    requires Run(s, events)
    decreases |events|
  {
    events != [] && (Delivers(s, events[0], x) || SomeDelivers(Next(s, events[0]), events[1..], x))
  }

  /** An answer under way to the address x names, or read there. */
  ghost predicate Answering(s: Network, x: Finding) {
    exists fl :: fl in s.wire && !fl.Request? && FlightHas(s.nodes, fl, x)
  }

  ghost predicate Coming(s: Network, x: Finding) {
    Answering(s, x) || Indexed(s, x)
  }

  lemma IndexStays(s: Network, e: Event, n: nat, x: Finding)
    requires WellFormed(s) && Enabled(s, e) && n < |s.nodes| && IndexHas(s.nodes[n], x)
    ensures |Next(s, e).nodes| == |s.nodes| && IndexHas(Next(s, e).nodes[n], x)
  {
    hide Emits, CanServe, Discovers, SendsOut;
  }

  lemma AnswerStays(s: Network, e: Event, fl: Flight, x: Finding)
    requires WellFormed(s) && Enabled(s, e) && fl in s.wire && !fl.Request? && FlightHas(s.nodes, fl, x)
    ensures Coming(Next(s, e), x)
  {
    var s' := Next(s, e);
    NodesGrow(s, e);
    FlightHasStill(s.nodes, s'.nodes, fl, x);
    hide Emits, CanServe, Discovers, SendsOut;
    if !(e.Arrive? || e.Read?) {
      assert fl in s'.wire;
    } else if s.wire[e.k] != fl {
      StaysInFlight(s.wire, e.k, fl);
      assert fl in s'.wire;
    } else if e.Read? {
      assert IndexHas(s'.nodes[fl.dst], x);
    } else {
      var c := ToClient(fl.dst, fl.file, fl.found);
      assert s'.wire[|s'.wire| - 1] == c;
      assert c in s'.wire && FlightHas(s'.nodes, c, x);
    }
  }

  lemma ComingStays(s: Network, e: Event, x: Finding)
    requires WellFormed(s) && Enabled(s, e) && Coming(s, x)
    ensures Coming(Next(s, e), x)
  {
    hide Next, Enabled, WellFormed, FlightHas, IndexHas;
    if n :| 0 <= n < |s.nodes| && IndexHas(s.nodes[n], x) {
      IndexStays(s, e, n, x);
    } else {
      var fl :| fl in s.wire && !fl.Request? && FlightHas(s.nodes, fl, x);
      AnswerStays(s, e, fl, x);
    }
  }

  /** What one handler sends brings x to its address exactly when the handler delivers it. */
  lemma SentExact(s: Network, e: Event, memory: iset<int>, x: Finding)
    requires WellFormed(s) && Enabled(s, e) && AsWritten(s, e, memory) && OneHop(s) && e.Serve?
    ensures Delivers(s, e, x) <==>
            exists fl :: fl in Emits(s.nodes[e.n], e) && !fl.Request? && FlightHas(s.nodes, fl, x)
  {
    var node := s.nodes[e.n];
    var out := Emits(node, e);
    assert node.pending[0] in node.pending && OneHopPending(s.nodes)(e.n, node.pending[0]);
    OneHopEmitted(s, e, memory);
    if Delivers(s, e, x) {
      if node.pending[0].LocalSearch? {
        assert FlightHas(s.nodes, out[0], x);
      } else {
        var r :| r in e.to && s.nodes[r].self.ip == x.asker;
        var i :| 0 <= i < |e.to| && e.to[i] == r;
        assert FlightHas(s.nodes, out[i], x);
      }
    }
  }

  lemma IndexedFrom(s: Network, e: Event, x: Finding)
    requires WellFormed(s) && Enabled(s, e) && Indexed(Next(s, e), x)
    ensures Coming(s, x)
  {
    hide Emits, CanServe, Discovers, SendsOut;
    var n :| 0 <= n < |Next(s, e).nodes| && IndexHas(Next(s, e).nodes[n], x);
    if !IndexHas(s.nodes[n], x) {
      assert e.Read? && s.wire[e.k] in s.wire && FlightHas(s.nodes, s.wire[e.k], x);
    }
  }

  lemma WireFrom(s: Network, e: Event, fl: Flight)
    requires WellFormed(s) && Enabled(s, e) && fl in Next(s, e).wire
    ensures || fl in s.wire
            || (e.Serve? && fl in Emits(s.nodes[e.n], e))
            || (e.Arrive? && s.wire[e.k].Answer? && fl == ToClient(s.wire[e.k].dst, s.wire[e.k].file, s.wire[e.k].found))
  {
    hide Emits, CanServe, Discovers, SendsOut, Merge;
  }

  lemma AnsweringFrom(s: Network, e: Event, memory: iset<int>, x: Finding)
    requires WellFormed(s) && Enabled(s, e) && AsWritten(s, e, memory) && OneHop(s) && Answering(Next(s, e), x)
    ensures Coming(s, x) || Delivers(s, e, x)
  {
    var nodes' := Next(s, e).nodes;
    NodesGrow(s, e);
    var fl :| fl in Next(s, e).wire && !fl.Request? && FlightHas(nodes', fl, x);
    WireFrom(s, e, fl);
    if e.Serve? {
      SentExact(s, e, memory, x);
    }
    hide Next, Emits, Enabled, AsWritten, OneHop, Delivers;
    assert FlightHas(s.nodes, fl, x);
    if fl !in s.wire && e.Arrive? {
      assert s.wire[e.k] in s.wire && FlightHas(s.nodes, s.wire[e.k], x);
    }
  }

  lemma ComingExact(s: Network, e: Event, memory: iset<int>, x: Finding)
    requires WellFormed(s) && Enabled(s, e) && AsWritten(s, e, memory) && OneHop(s)
    ensures Coming(Next(s, e), x) <==> Coming(s, x) || Delivers(s, e, x)
  {
    var s' := Next(s, e);
    NodesGrow(s, e);
    if e.Serve? {
      SentExact(s, e, memory, x);
    }
    hide Emits, CanServe, Discovers, SendsOut, AsWritten, OneHop, Delivers, Indexed;
    if Coming(s, x) {
      ComingStays(s, e, x);
    } else if Delivers(s, e, x) {
      var fl :| fl in Emits(s.nodes[e.n], e) && !fl.Request? && FlightHas(s.nodes, fl, x);
      FlightHasStill(s.nodes, s'.nodes, fl, x);
      assert fl in s'.wire;
    }
    if Answering(s', x) {
      AnsweringFrom(s, e, memory, x);
    }
    if Indexed(s', x) {
      IndexedFrom(s, e, x);
    }
  }

  lemma {:induction false} ComingAlways(s: Network, events: seq<Event>, memory: iset<int>, x: Finding)
    requires WrittenRun(s, events, memory) && OneHop(s) && AlongLinks(s)
    ensures Run(s, events) && (Coming(After(s, events), x) <==> Coming(s, x) || SomeDelivers(s, events, x))
    decreases |events|
  {
    WrittenRunsAreRuns(s, events, memory);
    if events != [] {
      ComingExact(s, events[0], memory, x);
      OneHopNext(s, events[0], memory);
      AlongLinksNext(s, events[0]);
      hide Next, Enabled, AsWritten, OneHop, AlongLinks, Coming, Delivers;
      ComingAlways(Next(s, events[0]), events[1..], memory, x);
    }
  }

  /**
   * Where the answers of the code arrive, exactly: once a run is quiet, the clients at an address list a
   * machine for a file if and only if some handler of the run found the file on that machine and sent its
   * answer to a node at that address, or answered its own client there.
   */
  lemma ListedExact(s: Network, events: seq<Event>, memory: iset<int>, x: Finding)
    requires Initial(s) && WrittenRun(s, events, memory)
    ensures Run(s, events)
    ensures Quiet(After(s, events)) ==> (Indexed(After(s, events), x) <==> SomeDelivers(s, events, x))
  {
    InitialIsOneHop(s);
    assert !Coming(s, x);
    hide Next, Enabled, AsWritten, OneHop, AlongLinks, SomeDelivers, Indexed;
    ComingAlways(s, events, memory, x);
  }
}
