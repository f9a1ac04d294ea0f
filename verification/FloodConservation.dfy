/** No discovery disappears as long as every list that is handled is sent on. */
module FloodConservation {
  import opened Basics
  import opened Wire
  import opened SearchRules
  import opened Flood
  import opened FloodLaws

  /** The packet carries the finding towards the asker: as a request of the asker, or to its address. */
  predicate FlightHas(nodes: seq<Node>, fl: Flight, x: Finding) {
    match fl
    case Request(_, _, req) => req.source.ip == x.asker && req.file == x.file && x.machine in req.found
    case Answer(_, dst, file, found) =>
      dst < |nodes| && nodes[dst].self.ip == x.asker && file == x.file && x.machine in found
    case ToClient(dst, file, found) =>
      dst < |nodes| && nodes[dst].self.ip == x.asker && file == x.file && x.machine in found
  }

  predicate PendingHas(p: Pending, x: Finding) {
    p.RemoteSearch? && p.req.source.ip == x.asker && p.req.file == x.file && x.machine in p.req.found
  }

  /** The client of a node at the asker's address lists the machine for the file. */
  predicate IndexHas(node: Node, x: Finding) {
    node.self.ip == x.asker && x.file in node.index && x.machine in node.index[x.file]
  }

  ghost predicate InFlight(s: Network, x: Finding) {
    exists fl :: fl in s.wire && FlightHas(s.nodes, fl, x)
  }

  ghost predicate Queued(s: Network, x: Finding) {
    exists n, p :: 0 <= n < |s.nodes| && p in s.nodes[n].pending && PendingHas(p, x)
  }

  ghost predicate Indexed(s: Network, x: Finding) {
    exists n :: 0 <= n < |s.nodes| && IndexHas(s.nodes[n], x)
  }

  ghost predicate Live(s: Network, x: Finding) {
    InFlight(s, x) || Queued(s, x) || Indexed(s, x)
  }

  /** Everything found is still carried, or listed for the asker. */
  ghost predicate Conserved(s: Network) {
    forall x :: x in s.found ==> Live(s, x)
  }

  /** The packets sent give the list a way on: a relay to anybody, an answer to the asker's address. */
  predicate GoesOn(nodes: seq<Node>, e: Event, req: SearchRequest)
    requires e.Serve? && forall r :: r in e.to ==> r < |nodes|
  {
    if e.answer then exists r :: r in e.to && nodes[r].self.ip == req.source.ip else e.to != []
  }

  /** The request that is handled lists somebody, and its list is not sent on. */
  predicate Stops(s: Network, e: Event)
    requires Enabled(s, e)
  {
    && e.Serve? && s.nodes[e.n].pending[0].RemoteSearch?
    && var req := s.nodes[e.n].pending[0].req;
       !IsSource(s.nodes[e.n], req) && Listed(req, s.nodes[e.n].self, e.hit) != [] && !GoesOn(s.nodes, e, req)
  }

  lemma StaysInFlight(wire: seq<Flight>, k: nat, fl: Flight)
    requires k < |wire| && fl in wire && fl != wire[k]
    ensures fl in Without(wire, k)
  {
    var i :| 0 <= i < |wire| && wire[i] == fl;
    var w := Without(wire, k);
    if i < k {
      assert w[i] == fl;
    } else {
      assert w[i - 1] == fl;
    }
  }

  /** Renaming never happens, so a packet carries for the nodes after a step what it carried before. */
  lemma FlightHasStill(nodes: seq<Node>, nodes': seq<Node>, fl: Flight, x: Finding)
    requires Grows(nodes, nodes') && FlightHas(nodes, fl, x)
    ensures FlightHas(nodes', fl, x)
  {
  }

  lemma InFlightNext(s: Network, e: Event, fl: Flight, x: Finding)
    requires WellFormed(s) && Enabled(s, e)
    requires fl in s.wire && FlightHas(s.nodes, fl, x)
    ensures Live(Next(s, e), x)
  {
    hide Emits, CanServe, Discovers, SendsOut;
    var s' := Next(s, e);
    NodesGrow(s, e);
    if (e.Arrive? || e.Read?) && s.wire[e.k] == fl {
      if e.Read? {
        assert IndexHas(s'.nodes[fl.dst], x);
      } else if fl.Request? {
        var p := RemoteSearch(fl.src, fl.req);
        var queue := s.nodes[fl.dst].pending;
        assert (queue + [p])[|queue|] == p;
        assert p in s'.nodes[fl.dst].pending && PendingHas(p, x);
      } else {
        var c := ToClient(fl.dst, fl.file, fl.found);
        assert s'.wire[|s'.wire| - 1] == c;
        assert c in s'.wire && FlightHas(s'.nodes, c, x);
      }
    } else {
      if e.Arrive? || e.Read? {
        StaysInFlight(s.wire, e.k, fl);
      }
      FlightHasStill(s.nodes, s'.nodes, fl, x);
      assert fl in s'.wire && FlightHas(s'.nodes, fl, x);
    }
  }

  /** Serving the request that carries a finding, or makes it, sends it on. */
  lemma ServedGoesOn(s: Network, e: Event, x: Finding)
    requires WellFormed(s) && Enabled(s, e) && e.Serve? && !Stops(s, e)
    requires PendingHas(s.nodes[e.n].pending[0], x) || x in Discovers(s.nodes[e.n], e)
    ensures exists fl :: fl in Emits(s.nodes[e.n], e) && FlightHas(s.nodes, fl, x)
  {
    var node := s.nodes[e.n];
    var out := Emits(node, e);
    if node.pending[0].LocalSearch? {
      assert FlightHas(s.nodes, out[0], x);
    } else {
      var req := node.pending[0].req;
      if IsSource(node, req) {
        assert FlightHas(s.nodes, out[0], x);
      } else {
        assert x.machine in Listed(req, node.self, e.hit);
        if e.answer {
          var r :| r in e.to && s.nodes[r].self.ip == req.source.ip;
          var i :| 0 <= i < |e.to| && e.to[i] == r;
          assert FlightHas(s.nodes, out[i], x);
        } else {
          assert FlightHas(s.nodes, out[0], x);
        }
      }
    }
  }

  lemma SentIsLive(s: Network, e: Event, x: Finding)
    requires WellFormed(s) && Enabled(s, e) && e.Serve? && !Stops(s, e)
    requires PendingHas(s.nodes[e.n].pending[0], x) || x in Discovers(s.nodes[e.n], e)
    ensures Live(Next(s, e), x)
  {
    ServedGoesOn(s, e, x);
    NodesGrow(s, e);
    hide Emits, CanServe, Discovers, SendsOut;
    var fl :| fl in Emits(s.nodes[e.n], e) && FlightHas(s.nodes, fl, x);
    FlightHasStill(s.nodes, Next(s, e).nodes, fl, x);
    assert fl in Next(s, e).wire && FlightHas(Next(s, e).nodes, fl, x);
  }

  lemma QueuedNext(s: Network, e: Event, n: nat, p: Pending, x: Finding)
    requires WellFormed(s) && Enabled(s, e)
    requires n < |s.nodes| && p in s.nodes[n].pending && PendingHas(p, x) && !Stops(s, e)
    ensures Live(Next(s, e), x)
  {
    hide Emits, CanServe, Discovers, SendsOut;
    if e.Serve? && e.n == n && p == s.nodes[n].pending[0] {
      SentIsLive(s, e, x);
    } else {
      var i :| 0 <= i < |s.nodes[n].pending| && s.nodes[n].pending[i] == p;
      var queue := Next(s, e).nodes[n].pending;
      assert queue[if e.Serve? && e.n == n then i - 1 else i] == p;
      assert p in queue && PendingHas(p, x);
    }
  }

  lemma IndexedNext(s: Network, e: Event, n: nat, x: Finding)
    requires WellFormed(s) && Enabled(s, e)
    requires n < |s.nodes| && IndexHas(s.nodes[n], x)
    ensures Live(Next(s, e), x)
  {
    hide Emits, CanServe, Discovers, SendsOut;
    assert IndexHas(Next(s, e).nodes[n], x);
  }

  lemma LiveNext(s: Network, e: Event, x: Finding)
    requires WellFormed(s) && Enabled(s, e) && Live(s, x) && !Stops(s, e)
    ensures Live(Next(s, e), x)
  {
    hide Next, Enabled;
    if InFlight(s, x) {
      var fl :| fl in s.wire && FlightHas(s.nodes, fl, x);
      InFlightNext(s, e, fl, x);
    } else if Queued(s, x) {
      var n, p :| 0 <= n < |s.nodes| && p in s.nodes[n].pending && PendingHas(p, x);
      QueuedNext(s, e, n, p, x);
    } else {
      var n :| 0 <= n < |s.nodes| && IndexHas(s.nodes[n], x);
      IndexedNext(s, e, n, x);
    }
  }

  lemma HistoryNext(s: Network, e: Event)
    requires WellFormed(s) && Enabled(s, e)
    ensures Next(s, e).found == s.found + if e.Serve? then Discovers(s.nodes[e.n], e) else {}
    ensures Next(s, e).asked == s.asked + if e.Serve? then SendsOut(s.nodes[e.n], e) else {}
  {
    hide Emits, CanServe, Discovers, SendsOut, Merge;
  }

  lemma ConservedNext(s: Network, e: Event)
    requires WellFormed(s) && Enabled(s, e) && Conserved(s) && !Stops(s, e)
    ensures Conserved(Next(s, e))
  {
    HistoryNext(s, e);
    hide Next, Live, Discovers, SendsOut, Stops;
    forall x | x in Next(s, e).found
      ensures Live(Next(s, e), x)
    {
      if x !in s.found {
        SentIsLive(s, e, x);
      } else {
        LiveNext(s, e, x);
      }
    }
  }

  ghost predicate NothingStopped(s: Network, events: seq<Event>)
    requires Run(s, events)
    decreases |events|
  {
    events == [] || (!Stops(s, events[0]) && NothingStopped(Next(s, events[0]), events[1..]))
  }

  /**
   * Conservation of discoveries, for every policy and every run that sends on each list it handles: a node
   * that was found to hold a file is listed in a packet in flight, in a queued request or in the index of
   * a client at the asker's address.
   */
  lemma {:induction false} DiscoveriesConserved(s: Network, events: seq<Event>)
    requires Run(s, events) && Conserved(s) && NothingStopped(s, events)
    ensures Conserved(After(s, events))
    decreases |events|
  {
    hide Next, Enabled, Conserved, Stops;
    if events != [] {
      ConservedNext(s, events[0]);
      DiscoveriesConserved(Next(s, events[0]), events[1..]);
    }
  }

  /** Once the network is quiet, a finding is live only in the asker's index. */
  lemma QuietMeansIndexed(s: Network)
    requires Quiet(s)
    ensures forall x :: Live(s, x) <==> Indexed(s, x)
  {
    forall x
      ensures Live(s, x) <==> Indexed(s, x)
    {
    }
  }
}
