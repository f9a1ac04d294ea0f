/** What holds of every run of the flood, whatever a node answers or relays. */
module FloodLaws {
  import opened Basics
  import opened Wire
  import opened SearchRules
  import opened Flood

  // ----- TTL arithmetic -----

  predicate RequestWithinTtl(req: SearchRequest) {
    req.ttl as int + |req.found| <= DEFAULT_TTL as int
  }

  predicate FlightWithinTtl(fl: Flight) {
    match fl
    case Request(_, _, req) => RequestWithinTtl(req)
    case Answer(_, _, _, found) => |found| <= DEFAULT_TTL as int + 1
    case ToClient(_, _, found) => |found| <= DEFAULT_TTL as int + 1
  }

  predicate PendingWithinTtl(n: nat, p: Pending) {
    p.RemoteSearch? ==> RequestWithinTtl(p.req)
  }

  ghost predicate WithinTtl(s: Network) {
    Everywhere(s, FlightWithinTtl, PendingWithinTtl)
  }

  lemma WithinTtlNext(s: Network, e: Event)
    requires WellFormed(s) && Enabled(s, e) && WithinTtl(s)
    ensures WithinTtl(Next(s, e))
  {
    hide Next;
    if e.Serve? {
      assert s.nodes[e.n].pending[0] in s.nodes[e.n].pending;
      assert PendingWithinTtl(e.n, s.nodes[e.n].pending[0]);
      forall fl | fl in Emits(s.nodes[e.n], e)
        ensures FlightWithinTtl(fl)
      {
      }
    }
    EverywhereNext(s, e, FlightWithinTtl, PendingWithinTtl);
  }

  /**
   * Over every run from an initial network, each request satisfies ttl + length <= 10 and each answer
   * lists at most 11 machines: the assertion `ttl > 0` of a relay cannot fail and the length byte of a
   * rebuilt packet cannot wrap.
   */
  lemma {:induction false} TtlBounds(s: Network, events: seq<Event>)
    requires Run(s, events) && WithinTtl(s)
    ensures WithinTtl(After(s, events))
    decreases |events|
  {
    if events != [] {
      WithinTtlNext(s, events[0]);
      TtlBounds(Next(s, events[0]), events[1..]);
    }
  }

  // ----- Soundness -----

  predicate Holds(nodes: seq<Node>, m: Endpoint, file: CString) {
    exists n :: 0 <= n < |nodes| && nodes[n].self == m && file in nodes[n].files
  }

  predicate AllHold(nodes: seq<Node>, file: CString, list: seq<Endpoint>) {
    forall m :: m in list ==> Holds(nodes, m, file)
  }

  ghost function SoundFlight(nodes: seq<Node>): Flight -> bool {
    (fl: Flight) => if fl.Request? then AllHold(nodes, fl.req.file, fl.req.found) else AllHold(nodes, fl.file, fl.found)
  }

  ghost function SoundPending(nodes: seq<Node>): (nat, Pending) -> bool {
    (n: nat, p: Pending) => p.RemoteSearch? ==> AllHold(nodes, p.req.file, p.req.found)
  }

  ghost predicate SoundIndexes(nodes: seq<Node>, s: Network) {
    forall n, file, m :: 0 <= n < |s.nodes| && file in s.nodes[n].index && m in s.nodes[n].index[file] ==>
      Holds(nodes, m, file)
  }

  /** Every machine listed for a file, in any packet, queue or index, is a node holding the file. */
  ghost predicate Sound(s: Network) {
    Everywhere(s, SoundFlight(s.nodes), SoundPending(s.nodes)) && SoundIndexes(s.nodes, s)
  }

  /** No step takes a file away, renames a node or changes its neighbours. */
  ghost predicate Grows(nodes: seq<Node>, nodes': seq<Node>) {
    |nodes| == |nodes'| && forall n :: 0 <= n < |nodes| ==>
      nodes'[n].self == nodes[n].self && nodes'[n].slots == nodes[n].slots && nodes[n].files <= nodes'[n].files
  }

  lemma NodesGrow(s: Network, e: Event)
    requires WellFormed(s) && Enabled(s, e)
    ensures Grows(s.nodes, Next(s, e).nodes)
  {
    hide Emits, CanServe, Discovers, SendsOut, Merge;
  }

  lemma {:induction false} NodesGrowAlways(s: Network, events: seq<Event>)
    requires Run(s, events)
    ensures Grows(s.nodes, After(s, events).nodes)
    decreases |events|
  {
    hide Next, Enabled;
    if events != [] {
      NodesGrow(s, events[0]);
      NodesGrowAlways(Next(s, events[0]), events[1..]);
    }
  }

  lemma HoldsStill(nodes: seq<Node>, nodes': seq<Node>, m: Endpoint, file: CString)
    requires Grows(nodes, nodes') && Holds(nodes, m, file)
    ensures Holds(nodes', m, file)
  {
    var n :| 0 <= n < |nodes| && nodes[n].self == m && file in nodes[n].files;
    assert nodes'[n].self == m && file in nodes'[n].files;
  }

  lemma SoundStill(s: Network, nodes': seq<Node>)
    requires Sound(s) && Grows(s.nodes, nodes')
    ensures Everywhere(s, SoundFlight(nodes'), SoundPending(nodes')) && SoundIndexes(nodes', s)
  {
    forall m, file | Holds(s.nodes, m, file)
      ensures Holds(nodes', m, file)
    {
      HoldsStill(s.nodes, nodes', m, file);
    }
    forall n, p | 0 <= n < |s.nodes| && p in s.nodes[n].pending
      ensures SoundPending(nodes')(n, p)
    {
      assert SoundPending(s.nodes)(n, p);
    }
  }

  lemma EmittedSound(s: Network, e: Event)
    requires WellFormed(s) && Enabled(s, e) && e.Serve? && Sound(s)
    ensures forall fl :: fl in Emits(s.nodes[e.n], e) ==> SoundFlight(s.nodes)(fl)
  {
    var node := s.nodes[e.n];
    assert node.pending[0] in node.pending && SoundPending(s.nodes)(e.n, node.pending[0]);
    if e.hit {
      var file := if node.pending[0].LocalSearch? then node.pending[0].file else node.pending[0].req.file;
      assert file in node.files ==> Holds(s.nodes, node.self, file);
    }
  }

  lemma IndexesSoundNext(s: Network, e: Event, nodes': seq<Node>)
    requires WellFormed(s) && Enabled(s, e)
    requires Everywhere(s, SoundFlight(nodes'), SoundPending(nodes')) && SoundIndexes(nodes', s)
    ensures SoundIndexes(nodes', Next(s, e))
  {
    hide Emits, CanServe, Discovers, SendsOut;
    if e.Read? {
      assert s.wire[e.k] in s.wire;
    }
  }

  lemma SoundNext(s: Network, e: Event)
    requires WellFormed(s) && Enabled(s, e) && Sound(s)
    ensures Sound(Next(s, e))
  {
    var nodes' := Next(s, e).nodes;
    NodesGrow(s, e);
    SoundStill(s, nodes');
    IndexesSoundNext(s, e, nodes');
    if e.Serve? {
      EmittedSound(s, e);
      forall fl | fl in Emits(s.nodes[e.n], e)
        ensures SoundFlight(nodes')(fl)
      {
        forall m, file | Holds(s.nodes, m, file)
          ensures Holds(nodes', m, file)
        {
          HoldsStill(s.nodes, nodes', m, file);
        }
      }
    }
    hide Next, Emits;
    EverywhereNext(s, e, SoundFlight(nodes'), SoundPending(nodes'));
  }

  /** Soundness of search results over every run. */
  lemma {:induction false} ResultsSound(s: Network, events: seq<Event>)
    requires Run(s, events) && Sound(s)
    ensures Sound(After(s, events))
    decreases |events|
  {
    if events != [] {
      SoundNext(s, events[0]);
      ResultsSound(Next(s, events[0]), events[1..]);
    }
  }

  lemma InitialLaws(s: Network)
    requires Initial(s)
    ensures WithinTtl(s) && Sound(s)
  {
  }

  // ----- Every packet of every run survives the wire -----

  function PacketOf(fl: Flight): Packet {
    match fl
    case Request(_, _, req) => Search(req)
    case Answer(_, _, file, found) => SearchAnswer(file, found)
    case ToClient(_, file, found) => IntSearchAnswer(file, found)
  }

  predicate ShortRequest(req: SearchRequest) {
    && RequestWithinTtl(req) && ShortEndpoint(req.source) && |req.file| < 256
    && forall m :: m in req.found ==> ShortEndpoint(m)
  }

  predicate ShortFlight(fl: Flight) {
    && FlightWithinTtl(fl)
    && match fl
       case Request(_, _, req) => ShortRequest(req)
       case Answer(_, _, file, found) => |file| < 256 && forall m :: m in found ==> ShortEndpoint(m)
       case ToClient(_, file, found) => |file| < 256 && forall m :: m in found ==> ShortEndpoint(m)
  }

  predicate ShortPending(n: nat, p: Pending) {
    match p
    case LocalSearch(file) => |file| < 256
    case RemoteSearch(_, req) => ShortRequest(req)
  }

  /** Addresses, ports and the names searched for are shorter than 256 characters. */
  ghost predicate ShortNames(s: Network) {
    && (forall n :: 0 <= n < |s.nodes| ==> ShortEndpoint(s.nodes[n].self))
    && Everywhere(s, ShortFlight, ShortPending)
  }

  predicate ShortAsks(events: seq<Event>) {
    forall e :: e in events ==> e.Ask? ==> |e.file| < 256
  }

  lemma EmittedShort(s: Network, e: Event)
    requires WellFormed(s) && Enabled(s, e) && e.Serve? && ShortNames(s)
    ensures forall fl :: fl in Emits(s.nodes[e.n], e) ==> ShortFlight(fl)
  {
    var node := s.nodes[e.n];
    assert node.pending[0] in node.pending && ShortPending(e.n, node.pending[0]);
    forall fl | fl in Emits(node, e)
      ensures ShortFlight(fl)
    {
    }
  }

  lemma ShortNamesNext(s: Network, e: Event)
    requires WellFormed(s) && Enabled(s, e) && ShortNames(s)
    requires e.Ask? ==> |e.file| < 256
    ensures ShortNames(Next(s, e))
  {
    NodesGrow(s, e);
    if e.Serve? {
      EmittedShort(s, e);
    }
    hide Next;
    EverywhereNext(s, e, ShortFlight, ShortPending);
  }

  /**
   * In every run of a network with short names, each packet in flight, written to a socket in front of
   * anything else, is read back as itself.
   */
  lemma {:induction false} FlightsRoundTrip(s: Network, events: seq<Event>, fl: Flight, rest: Bytes)
    requires Run(s, events) && ShortNames(s) && ShortAsks(events)
    requires fl in After(s, events).wire
    ensures Decode(Encode(PacketOf(fl)) + rest) == Some((PacketOf(fl), rest))
    decreases |events|
  {
    hide Decode, Encode, Next;
    if events == [] {
      assert ShortFlight(fl);
      RoundTripExact(PacketOf(fl), rest);
    } else {
      assert events[0] in events;
      ShortNamesNext(s, events[0]);
      FlightsRoundTrip(Next(s, events[0]), events[1..], fl, rest);
    }
  }

  // ----- Files and queues over whole runs -----

  /** A node holds what it held at first, and what it has downloaded since. */
  lemma {:induction false} FilesExact(s: Network, events: seq<Event>, n: nat, file: CString)
    requires Run(s, events) && n < |s.nodes|
    ensures |After(s, events).nodes| == |s.nodes|
    ensures file in After(s, events).nodes[n].files <==> file in s.nodes[n].files || Gain(n, file) in events
    decreases |events|
  {
    if events != [] {
      FilesNext(s, events[0], n, file);
      hide Next, Enabled;
      FilesExact(Next(s, events[0]), events[1..], n, file);
      assert events == [events[0]] + events[1..];
    }
  }

  lemma FilesNext(s: Network, e: Event, n: nat, file: CString)
    requires WellFormed(s) && Enabled(s, e) && n < |s.nodes|
    ensures |Next(s, e).nodes| == |s.nodes|
    ensures file in Next(s, e).nodes[n].files <==> file in s.nodes[n].files || e == Gain(n, file)
  {
    hide Emits, CanServe, Discovers, SendsOut, Merge;
  }

  /** A file once downloaded is found at once: the own client is told of the node itself, and nobody asked. */
  lemma DownloadedIsFound(s: Network, events: seq<Event>, e: Event, n: nat, file: CString)
    requires Run(s, events) && n < |s.nodes| && Gain(n, file) in events
    requires e.Serve? && e.n == n && Enabled(After(s, events), e)
    requires After(s, events).nodes[n].pending[0] == LocalSearch(file)
    ensures e.hit && n < |After(s, events).nodes|
    ensures Emits(After(s, events).nodes[n], e) == [ToClient(n, file, [After(s, events).nodes[n].self])]
  {
    FilesExact(s, events, n, file);
  }

  /** What an event puts into the queue of node n. */
  function Arrivals(s: Network, e: Event, n: nat): seq<Pending>
    requires Enabled(s, e)
  {
    if e.Ask? && e.n == n then [LocalSearch(e.file)]
    else if e.Arrive? && s.wire[e.k].Request? && s.wire[e.k].dst == n then [RemoteSearch(s.wire[e.k].src, s.wire[e.k].req)]
    else []
  }

  /** Everything that was queued at node n in the course of a run, in order. */
  ghost function AllArrivals(s: Network, events: seq<Event>, n: nat): seq<Pending>
    requires Run(s, events)
    decreases |events|
  {
    if events == [] then [] else Arrivals(s, events[0], n) + AllArrivals(Next(s, events[0]), events[1..], n)
  }

  function Serves(events: seq<Event>, n: nat): nat {
    if events == [] then 0 else (if events[0].Serve? && events[0].n == n then 1 else 0) + Serves(events[1..], n)
  }

  lemma QueueNext(s: Network, e: Event, n: nat)
    requires WellFormed(s) && Enabled(s, e) && n < |s.nodes|
    ensures |Next(s, e).nodes| == |s.nodes|
    ensures var queue, served := s.nodes[n].pending + Arrivals(s, e, n), if e.Serve? && e.n == n then 1 else 0;
            served <= |queue| && Next(s, e).nodes[n].pending == queue[served..]
  {
    hide Emits, CanServe, Discovers, SendsOut, Merge;
  }

  /** Requests are served once each, first come first served: a queue is what arrived, less as many as were served. */
  lemma {:induction false} QueuesAreFifo(s: Network, events: seq<Event>, n: nat)
    requires Run(s, events) && n < |s.nodes|
    ensures |After(s, events).nodes| == |s.nodes|
    ensures var all := s.nodes[n].pending + AllArrivals(s, events, n);
            Serves(events, n) <= |all| && After(s, events).nodes[n].pending == all[Serves(events, n)..]
    decreases |events|
  {
    if events != [] {
      var e, rest, s' := events[0], events[1..], Next(s, events[0]);
      QueueNext(s, e, n);
      assert AllArrivals(s, events, n) == Arrivals(s, e, n) + AllArrivals(s', rest, n);
      hide Next, Enabled, Arrivals;
      QueuesAreFifo(s', rest, n);
      Dropped(s.nodes[n].pending, Arrivals(s, e, n), AllArrivals(s', rest, n),
              if e.Serve? && e.n == n then 1 else 0, Serves(rest, n));
    } else {
      assert s.nodes[n].pending + [] == s.nodes[n].pending;
    }
  }

  lemma Dropped<T>(a: seq<T>, b: seq<T>, c: seq<T>, i: nat, j: nat)
    requires i <= |a + b| && j <= |(a + b)[i..] + c|
    ensures i + j <= |a + (b + c)| && ((a + b)[i..] + c)[j..] == (a + (b + c))[i + j..]
  {
  }

  predicate Lists(node: Node, file: CString, m: Endpoint) {
    file in node.index && m in node.index[file]
  }

  /** The client of n reads a packet that lists m for the file. */
  predicate ReadsOf(s: Network, e: Event, n: nat, file: CString, m: Endpoint)
    requires Enabled(s, e)
  {
    e.Read? && s.wire[e.k].dst == n && s.wire[e.k].file == file && m in s.wire[e.k].found
  }

  ghost predicate SomeReadsOf(s: Network, events: seq<Event>, n: nat, file: CString, m: Endpoint)
    requires Run(s, events)
    decreases |events|
  {
    events != [] && (ReadsOf(s, events[0], n, file, m) || SomeReadsOf(Next(s, events[0]), events[1..], n, file, m))
  }

  lemma IndexNext(s: Network, e: Event, n: nat, file: CString, m: Endpoint)
    requires WellFormed(s) && Enabled(s, e) && n < |s.nodes|
    ensures |Next(s, e).nodes| == |s.nodes|
    ensures Lists(Next(s, e).nodes[n], file, m) <==> Lists(s.nodes[n], file, m) || ReadsOf(s, e, n, file, m)
  {
    hide Emits, CanServe, Discovers, SendsOut;
  }

  /** A client lists exactly what it listed at first and what it has read since. */
  lemma {:induction false} IndexExact(s: Network, events: seq<Event>, n: nat, file: CString, m: Endpoint)
    requires Run(s, events) && n < |s.nodes|
    ensures |After(s, events).nodes| == |s.nodes|
    ensures Lists(After(s, events).nodes[n], file, m) <==>
            Lists(s.nodes[n], file, m) || SomeReadsOf(s, events, n, file, m)
    decreases |events|
  {
    if events != [] {
      IndexNext(s, events[0], n, file, m);
      hide Next, Enabled, Lists, ReadsOf;
      IndexExact(Next(s, events[0]), events[1..], n, file, m);
    }
  }
}
