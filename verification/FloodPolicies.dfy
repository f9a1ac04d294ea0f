/** The two answer policies: the code as written, and the flood its comments describe. */
module FloodPolicies {
  import opened Basics
  import opened Wire
  import opened SearchRules
  import opened Sending
  import opened Flood
  import opened FloodLaws
  import opened FloodConservation

  /** The event handles a request that came from another machine. */
  predicate ServesRemote(s: Network, e: Event) {
    && e.Serve? && e.n < |s.nodes| && s.nodes[e.n].pending != []
    && s.nodes[e.n].pending[0].RemoteSearch? && !IsSource(s.nodes[e.n], s.nodes[e.n].pending[0].req)
  }

  function ServedRequest(s: Network, e: Event): SearchRequest
    requires ServesRemote(s, e)
  {
    s.nodes[e.n].pending[0].req
  }

  predicate IsRelay(s: Network, e: Event) {
    ServesRemote(s, e) && !e.answer
  }

  /** A search of the own client that is not answered at once asks every neighbour. */
  predicate AsksEveryone(s: Network, e: Event)
    requires Enabled(s, e)
  {
    e.Serve? && s.nodes[e.n].pending[0].LocalSearch? && !e.hit ==> e.to == Wanted(s.nodes[e.n].slots, NO_SOCKET)
  }

  /**
   * The code: decisions from its own duplicate test, recipients from its own array, no insertion into the
   * log, timers compared and not counted down.
   */
  ghost predicate AsWritten(s: Network, e: Event, memory: iset<int>)
    requires Enabled(s, e)
  {
    && AsksEveryone(s, e)
    && (ServesRemote(s, e) ==>
          var node, req := s.nodes[e.n], ServedRequest(s, e);
          && e.answer == CodeAnswers(node.log, req)
          && e.hit == (CodeUnique(node.log, req) && req.file in node.files)
          && e.log == node.log
          && CodeRecipients(node.slots, memory, e.to))
    && (e.Tick? ==> e.log == CodeTick(s.nodes[e.n].log, e.ms))
  }

  /**
   * The comments: a request is answered when it was seen before or has no TTL left; it is logged when it
   * is new; an answer goes straight to the asker, a relay to every neighbour but the one it came from.
   */
  predicate AsIntended(s: Network, e: Event, lifetime: nat)
    requires Enabled(s, e)
  {
    && AsksEveryone(s, e)
    && (ServesRemote(s, e) ==>
          var node, req := s.nodes[e.n], ServedRequest(s, e);
          var unique := IntendedUnique(node.log, req);
          && e.answer == IntendedAnswers(node.log, req)
          && e.hit == (unique && req.file in node.files)
          && e.log == node.log + (if unique then [LogEntry(lifetime, req.source, req.file)] else [])
          && (e.answer ==> e.to != [] && forall r :: r in e.to ==> s.nodes[r].self.ip == req.source.ip)
          && (!e.answer ==> e.to == Wanted(node.slots, node.pending[0].src)))
    && (e.Tick? ==> e.log == IntendedTick(s.nodes[e.n].log, e.ms))
  }

  ghost predicate WrittenRun(s: Network, events: seq<Event>, memory: iset<int>)
    decreases |events|
  {
    WellFormed(s) &&
    (events == [] ||
     (Enabled(s, events[0]) && AsWritten(s, events[0], memory) &&
      WrittenRun(Next(s, events[0]), events[1..], memory)))
  }

  ghost predicate IntendedRun(s: Network, events: seq<Event>, lifetime: nat)
    decreases |events|
  {
    WellFormed(s) &&
    (events == [] ||
     (Enabled(s, events[0]) && AsIntended(s, events[0], lifetime) &&
      IntendedRun(Next(s, events[0]), events[1..], lifetime)))
  }

  lemma {:induction false} WrittenRunsAreRuns(s: Network, events: seq<Event>, memory: iset<int>)
    requires WrittenRun(s, events, memory)
    ensures Run(s, events)
    decreases |events|
  {
    hide Next, Enabled, AsWritten;
    if events != [] {
      WrittenRunsAreRuns(Next(s, events[0]), events[1..], memory);
    }
  }

  lemma {:induction false} IntendedRunsAreRuns(s: Network, events: seq<Event>, lifetime: nat)
    requires IntendedRun(s, events, lifetime)
    ensures Run(s, events)
    decreases |events|
  {
    hide Next, Enabled, AsIntended;
    if events != [] {
      IntendedRunsAreRuns(Next(s, events[0]), events[1..], lifetime);
    }
  }

  lemma OneMoreIntended(s: Network, e: Event, rest: seq<Event>, lifetime: nat)
    requires WellFormed(s) && Enabled(s, e) && Run(Next(s, e), rest)
    requires AsIntended(s, e, lifetime) && IntendedRun(Next(s, e), rest, lifetime)
    ensures Run(s, [e] + rest) && After(s, [e] + rest) == After(Next(s, e), rest)
    ensures IntendedRun(s, [e] + rest, lifetime)
  {
    assert ([e] + rest)[1..] == rest;
  }

  lemma OneMoreWritten(s: Network, e: Event, rest: seq<Event>, memory: iset<int>)
    requires WellFormed(s) && Enabled(s, e) && Run(Next(s, e), rest)
    requires AsWritten(s, e, memory) && WrittenRun(Next(s, e), rest, memory)
    ensures Run(s, [e] + rest) && After(s, [e] + rest) == After(Next(s, e), rest)
    ensures WrittenRun(s, [e] + rest, memory)
  {
    assert ([e] + rest)[1..] == rest;
  }

  // ----- Requests travel along links -----

  ghost function LinkFlight(nodes: seq<Node>): Flight -> bool {
    (fl: Flight) => fl.Request? ==> fl.src < |nodes| && fl.dst in nodes[fl.src].slots
  }

  ghost function LinkPending(nodes: seq<Node>): (nat, Pending) -> bool {
    (n: nat, p: Pending) => p.RemoteSearch? ==> p.src < |nodes| && n in nodes[p.src].slots
  }

  /** Each request was sent to a neighbour of its sender. */
  ghost predicate AlongLinks(s: Network) {
    Everywhere(s, LinkFlight(s.nodes), LinkPending(s.nodes))
  }

  lemma AskedAreNeighbours(s: Network, e: Event)
    requires WellFormed(s) && Enabled(s, e) && e.Serve? && AsksEveryone(s, e)
    requires IsRelay(s, e) ==> forall r :: r in e.to ==> r in s.nodes[e.n].slots
    ensures forall fl :: fl in Emits(s.nodes[e.n], e) && fl.Request? ==> fl.src == e.n && fl.dst in s.nodes[e.n].slots
  {
    var node := s.nodes[e.n];
    WantedAreChosen(node.slots, NO_SOCKET);
  }

  /** Both policies send to neighbours. */
  lemma RelaysToNeighbours(s: Network, e: Event, lifetime: nat, memory: iset<int>)
    requires Enabled(s, e) && (AsIntended(s, e, lifetime) || AsWritten(s, e, memory))
    ensures IsRelay(s, e) ==> forall r :: r in e.to ==> r in s.nodes[e.n].slots
  {
    if IsRelay(s, e) {
      WantedAreChosen(s.nodes[e.n].slots, s.nodes[e.n].pending[0].src);
    }
  }

  lemma AlongLinksNext(s: Network, e: Event)
    requires WellFormed(s) && Enabled(s, e) && AlongLinks(s) && AsksEveryone(s, e)
    requires IsRelay(s, e) ==> forall r :: r in e.to ==> r in s.nodes[e.n].slots
    ensures AlongLinks(Next(s, e))
  {
    var nodes' := Next(s, e).nodes;
    NodesGrow(s, e);
    if e.Serve? {
      AskedAreNeighbours(s, e);
    }
    hide Next, Emits, IsRelay, AsksEveryone;
    forall n, p | 0 <= n < |s.nodes| && p in s.nodes[n].pending
      ensures LinkPending(nodes')(n, p)
    {
      assert LinkPending(s.nodes)(n, p);
    }
    assert Everywhere(s, LinkFlight(nodes'), LinkPending(nodes'));
    EverywhereNext(s, e, LinkFlight(nodes'), LinkPending(nodes'));
  }

  // ----- A request on its way to a node -----

  predicate IsFor(req: SearchRequest, source: Endpoint, file: CString) {
    req.source == source && req.file == file
  }

  ghost predicate OnItsWay(s: Network, r: nat, source: Endpoint, file: CString)
    requires r < |s.nodes|
  {
    || (exists fl :: fl in s.wire && fl.Request? && fl.dst == r && IsFor(fl.req, source, file))
    || (exists p :: p in s.nodes[r].pending && p.RemoteSearch? && IsFor(p.req, source, file))
  }

  /** The event makes r handle a request of this search. */
  predicate Handles(s: Network, e: Event, r: nat, source: Endpoint, file: CString)
    requires Enabled(s, e)
  {
    e.Serve? && e.n == r && s.nodes[r].pending[0].RemoteSearch? && IsFor(s.nodes[r].pending[0].req, source, file)
  }

  lemma StaysOnItsWay(s: Network, e: Event, r: nat, source: Endpoint, file: CString)
    requires WellFormed(s) && Enabled(s, e) && r < |s.nodes| && OnItsWay(s, r, source, file)
    ensures |Next(s, e).nodes| == |s.nodes|
    ensures OnItsWay(Next(s, e), r, source, file) || Handles(s, e, r, source, file)
  {
    var s' := Next(s, e);
    hide Emits, CanServe, Discovers, SendsOut, Merge;
    if fl :| fl in s.wire && fl.Request? && fl.dst == r && IsFor(fl.req, source, file) {
      if (e.Arrive? || e.Read?) && s.wire[e.k] == fl {
        var queue := s.nodes[r].pending;
        assert s'.nodes[r].pending == queue + [RemoteSearch(fl.src, fl.req)];
        assert s'.nodes[r].pending[|queue|] in s'.nodes[r].pending;
      } else {
        if e.Arrive? || e.Read? {
          StaysInFlight(s.wire, e.k, fl);
        }
        assert fl in s'.wire;
      }
    } else {
      var p :| p in s.nodes[r].pending && p.RemoteSearch? && IsFor(p.req, source, file);
      if !(e.Serve? && e.n == r && p == s.nodes[r].pending[0]) {
        PendingStays(s, e, r, p);
      }
    }
  }

  lemma PendingStays(s: Network, e: Event, n: nat, p: Pending)
    requires WellFormed(s) && Enabled(s, e) && n < |s.nodes| && p in s.nodes[n].pending
    requires !(e.Serve? && e.n == n && p == s.nodes[n].pending[0])
    ensures |Next(s, e).nodes| == |s.nodes| && p in Next(s, e).nodes[n].pending
  {
    hide Emits, CanServe, Discovers, SendsOut, Merge;
    var i :| 0 <= i < |s.nodes[n].pending| && s.nodes[n].pending[i] == p;
    var queue := Next(s, e).nodes[n].pending;
    assert queue[if e.Serve? && e.n == n then i - 1 else i] == p;
  }

  lemma AskedIsOnItsWay(s: Network, e: Event, r: nat, req: SearchRequest)
    requires WellFormed(s) && Enabled(s, e) && e.Serve? && r in e.to
    requires Emits(s.nodes[e.n], e) == Requests(e.n, e.to, req)
    ensures r < |Next(s, e).nodes| && OnItsWay(Next(s, e), r, req.source, req.file)
  {
    var i :| 0 <= i < |e.to| && e.to[i] == r;
    var fl := Requests(e.n, e.to, req)[i];
    hide Emits, CanServe, Discovers, SendsOut;
    assert fl in Next(s, e).wire;
    WellFormedNext(s, e);
  }

  // ----- The code as written reaches one hop -----

  predicate FirstHand(nodes: seq<Node>, src: nat, req: SearchRequest) {
    src < |nodes| && req.source == nodes[src].self && req.ttl == DEFAULT_TTL && req.found == []
  }

  ghost function OneHopFlight(nodes: seq<Node>): Flight -> bool {
    (fl: Flight) =>
      match fl
      case Request(src, _, req) => FirstHand(nodes, src, req)
      case Answer(src, _, _, found) => src < |nodes| && (found == [] || found == [nodes[src].self])
      case ToClient(_, _, found) => |found| <= 1
  }

  ghost function OneHopPending(nodes: seq<Node>): (nat, Pending) -> bool {
    (n: nat, p: Pending) => p.RemoteSearch? ==> FirstHand(nodes, p.src, p.req)
  }

  ghost predicate OneHop(s: Network) {
    && (forall n :: 0 <= n < |s.nodes| ==> s.nodes[n].log == [])
    && Everywhere(s, OneHopFlight(s.nodes), OneHopPending(s.nodes))
  }

  lemma OneHopEmitted(s: Network, e: Event, memory: iset<int>)
    requires WellFormed(s) && Enabled(s, e) && AsWritten(s, e, memory) && OneHop(s) && e.Serve?
    ensures !IsRelay(s, e) && e.log == []
    ensures forall fl :: fl in Emits(s.nodes[e.n], e) ==> OneHopFlight(s.nodes)(fl)
  {
    var node := s.nodes[e.n];
    assert node.pending[0] in node.pending && OneHopPending(s.nodes)(e.n, node.pending[0]);
  }

  lemma OneHopStill(s: Network, nodes': seq<Node>)
    requires OneHop(s) && Grows(s.nodes, nodes')
    ensures Everywhere(s, OneHopFlight(nodes'), OneHopPending(nodes'))
  {
    forall fl | fl in s.wire
      ensures OneHopFlight(nodes')(fl)
    {
      assert OneHopFlight(s.nodes)(fl);
    }
    forall n, p | 0 <= n < |s.nodes| && p in s.nodes[n].pending
      ensures OneHopPending(nodes')(n, p)
    {
      assert OneHopPending(s.nodes)(n, p);
    }
  }

  lemma OneHopLogs(s: Network, e: Event, memory: iset<int>)
    requires WellFormed(s) && Enabled(s, e) && AsWritten(s, e, memory) && OneHop(s)
    ensures forall n :: 0 <= n < |s.nodes| ==> Next(s, e).nodes[n].log == []
  {
    if e.Serve? {
      OneHopEmitted(s, e, memory);
    }
    hide Emits, CanServe, Discovers, SendsOut, Merge;
  }

  lemma OneHopNext(s: Network, e: Event, memory: iset<int>)
    requires WellFormed(s) && Enabled(s, e) && AsWritten(s, e, memory) && OneHop(s)
    ensures OneHop(Next(s, e)) && !IsRelay(s, e)
  {
    var nodes' := Next(s, e).nodes;
    NodesGrow(s, e);
    OneHopStill(s, nodes');
    OneHopLogs(s, e, memory);
    if e.Serve? {
      OneHopEmitted(s, e, memory);
      forall fl | fl in Emits(s.nodes[e.n], e)
        ensures OneHopFlight(nodes')(fl)
      {
        assert OneHopFlight(s.nodes)(fl);
      }
    }
    hide Next, Emits, AsWritten;
    EverywhereNext(s, e, OneHopFlight(nodes'), OneHopPending(nodes'));
  }

  ghost predicate NeverRelays(s: Network, events: seq<Event>)
    requires Run(s, events)
    decreases |events|
  {
    events == [] || (!IsRelay(s, events[0]) && NeverRelays(Next(s, events[0]), events[1..]))
  }

  /**
   * The reach of the code as written: from an initial network, no run ever relays a request. Every log
   * stays empty, every request in flight or queued is still the asker's own with its full TTL and an
   * empty list, and went to a neighbour of the asker; every answer lists its own sender or nobody.
   */
  lemma {:induction false} CodeReachesOneHop(s: Network, events: seq<Event>, memory: iset<int>)
    requires WrittenRun(s, events, memory) && OneHop(s) && AlongLinks(s)
    ensures Run(s, events) && NeverRelays(s, events) && OneHop(After(s, events)) && AlongLinks(After(s, events))
    decreases |events|
  {
    WrittenRunsAreRuns(s, events, memory);
    if events != [] {
      OneHopNext(s, events[0], memory);
      AlongLinksNext(s, events[0]);
      hide Next, Enabled, AsWritten, OneHop, AlongLinks, IsRelay;
      CodeReachesOneHop(Next(s, events[0]), events[1..], memory);
    }
  }

  lemma InitialIsOneHop(s: Network)
    requires Initial(s)
    ensures WellFormed(s) && OneHop(s) && AlongLinks(s)
  {
  }

  /** As nothing is ever logged, the test as written and the documented one agree in the code itself. */
  lemma CodeSeesOnlyNew(s: Network, events: seq<Event>, memory: iset<int>, n: nat, req: SearchRequest)
    requires Initial(s) && WrittenRun(s, events, memory) && Run(s, events) && n < |After(s, events).nodes|
    ensures var log := After(s, events).nodes[n].log;
            CodeUnique(log, req) && IntendedUnique(log, req)
  {
    InitialIsOneHop(s);
    CodeReachesOneHop(s, events, memory);
  }
}
