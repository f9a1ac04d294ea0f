/** What the documented flood lists for an asker, it found on the asker's behalf. */
module FloodResults {
  import opened Basics
  import opened Wire
  import opened SearchRules
  import opened Flood
  import opened FloodLaws
  import opened FloodConservation
  import opened FloodPolicies
  import opened FloodOpening
  import opened FloodGraphs

  ghost function FoundFlight(nodes: seq<Node>, found: set<Finding>): Flight -> bool {
    (fl: Flight) =>
      match fl
      case Request(_, _, req) => FindingsOf(req.source.ip, req.file, req.found) <= found
      case Answer(_, dst, file, list) => dst < |nodes| && FindingsOf(nodes[dst].self.ip, file, list) <= found
      case ToClient(dst, file, list) => dst < |nodes| && FindingsOf(nodes[dst].self.ip, file, list) <= found
  }

  ghost function FoundPending(found: set<Finding>): (nat, Pending) -> bool {
    (n: nat, p: Pending) => p.RemoteSearch? ==> FindingsOf(p.req.source.ip, p.req.file, p.req.found) <= found
  }

  ghost predicate FoundIndexes(s: Network, found: set<Finding>) {
    forall n, file, m :: 0 <= n < |s.nodes| && file in s.nodes[n].index && m in s.nodes[n].index[file] ==>
      Finding(s.nodes[n].self.ip, file, m) in found
  }

  /** Each machine listed on behalf of an address was found on behalf of that address. */
  ghost predicate OnlyFound(s: Network) {
    Everywhere(s, FoundFlight(s.nodes, s.found), FoundPending(s.found)) && FoundIndexes(s, s.found)
  }

  lemma FoundStill(s: Network, nodes': seq<Node>, found': set<Finding>)
    requires OnlyFound(s) && Grows(s.nodes, nodes') && s.found <= found'
    ensures Everywhere(s, FoundFlight(nodes', found'), FoundPending(found')) && FoundIndexes(s, found')
  {
    hide FindingsOf;
    forall fl | fl in s.wire
      ensures FoundFlight(nodes', found')(fl)
    {
      assert FoundFlight(s.nodes, s.found)(fl);
    }
    forall n, p | 0 <= n < |s.nodes| && p in s.nodes[n].pending
      ensures FoundPending(found')(n, p)
    {
      assert FoundPending(s.found)(n, p);
    }
  }

  lemma EmittedFound(s: Network, e: Event, lifetime: nat)
    requires WellFormed(s) && Enabled(s, e) && AsIntended(s, e, lifetime) && e.Serve? && OnlyFound(s)
    ensures forall fl :: fl in Emits(s.nodes[e.n], e) ==>
              FoundFlight(s.nodes, s.found + Discovers(s.nodes[e.n], e))(fl)
  {
    var node := s.nodes[e.n];
    assert node.pending[0] in node.pending && FoundPending(s.found)(e.n, node.pending[0]);
    forall fl | fl in Emits(node, e)
      ensures FoundFlight(s.nodes, s.found + Discovers(node, e))(fl)
    {
      if ServesRemote(s, e) {
        var req := ServedRequest(s, e);
        ListedFindings(req, node.self, e.hit);
      }
    }
  }

  lemma ListedFindings(req: SearchRequest, self: Endpoint, hit: bool)
    ensures FindingsOf(req.source.ip, req.file, Listed(req, self, hit)) ==
            FindingsOf(req.source.ip, req.file, req.found) + if hit then {Finding(req.source.ip, req.file, self)} else {}
  {
  }

  lemma FoundIndexesNext(s: Network, e: Event, found: set<Finding>)
    requires WellFormed(s) && Enabled(s, e)
    requires FoundIndexes(s, found)
    requires Everywhere(s, FoundFlight(Next(s, e).nodes, found), FoundPending(found))
    ensures FoundIndexes(Next(s, e), found)
  {
    hide Emits, CanServe, Discovers, SendsOut;
    if e.Read? {
      var fl := s.wire[e.k];
      assert FoundFlight(Next(s, e).nodes, found)(fl);
      forall m | m in fl.found
        ensures Finding(s.nodes[fl.dst].self.ip, fl.file, m) in found
      {
        assert Finding(s.nodes[fl.dst].self.ip, fl.file, m) in FindingsOf(s.nodes[fl.dst].self.ip, fl.file, fl.found);
      }
    }
  }

  lemma OnlyFoundNext(s: Network, e: Event, lifetime: nat)
    requires WellFormed(s) && Enabled(s, e) && AsIntended(s, e, lifetime) && OnlyFound(s)
    ensures OnlyFound(Next(s, e))
  {
    var s' := Next(s, e);
    NodesGrow(s, e);
    HistoryNext(s, e);
    FoundStill(s, s'.nodes, s'.found);
    FoundIndexesNext(s, e, s'.found);
    if e.Serve? {
      EmittedFound(s, e, lifetime);
      hide Discovers, Emits, FindingsOf, Next;
      forall fl | fl in Emits(s.nodes[e.n], e)
        ensures FoundFlight(s'.nodes, s'.found)(fl)
      {
        assert FoundFlight(s.nodes, s.found + Discovers(s.nodes[e.n], e))(fl);
      }
    }
    hide Next, Emits, FindingsOf, AsIntended;
    EverywhereNext(s, e, FoundFlight(s'.nodes, s'.found), FoundPending(s'.found));
  }

  lemma {:induction false} OnlyFoundAlways(s: Network, events: seq<Event>, lifetime: nat)
    requires IntendedRun(s, events, lifetime) && OnlyFound(s)
    ensures Run(s, events) && OnlyFound(After(s, events))
    decreases |events|
  {
    IntendedRunsAreRuns(s, events, lifetime);
    hide Next, Enabled, AsIntended, OnlyFound;
    if events != [] {
      OnlyFoundNext(s, events[0], lifetime);
      OnlyFoundAlways(Next(s, events[0]), events[1..], lifetime);
    }
  }

  /**
   * The documented flood on a graph without leaves: as soon as it is quiet, the clients at the asker's
   * address list for a file exactly the machines found to hold it.
   */
  lemma {:induction false} QuietIndexesExact(s: Network, events: seq<Event>, lifetime: nat)
    requires Initial(s) && IntendedRun(s, events, lifetime) && NoLeaf(LinksOf(s.nodes))
    ensures Run(s, events)
    ensures Quiet(After(s, events)) ==> forall x :: x in After(s, events).found <==> Indexed(After(s, events), x)
  {
    assert OnlyFound(s);
    InitialConserves(s);
    hide Next, Enabled, AsIntended, OnlyFound, Live, Indexed, NoLeaf;
    OnlyFoundAlways(s, events, lifetime);
    KeepsWhatItFinds(s, events, lifetime);
    var end := After(s, events);
    if Quiet(end) {
      QuietMeansIndexed(end);
      IndexedWasFound(end);
    }
  }

  lemma IndexedWasFound(s: Network)
    requires OnlyFound(s)
    ensures forall x :: Indexed(s, x) ==> x in s.found
  {
    forall x | Indexed(s, x)
      ensures x in s.found
    {
      var n :| 0 <= n < |s.nodes| && IndexHas(s.nodes[n], x);
      assert Finding(s.nodes[n].self.ip, x.file, x.machine) in s.found;
    }
  }
}
