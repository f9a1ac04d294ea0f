/**
 * The flooded search as a network of nodes: packets in flight, a request queue, a log and a client index
 * per node. Delivery order is arbitrary. What a node decides about a request (answer or relay, and to
 * whom) is part of the event, so one step relation covers the code as written and the documented intent;
 * the module `FloodPolicies` says which events each of them takes.
 */
module Flood {
  import opened Basics
  import opened Wire
  import opened SearchRules

  /** A queued request (`request_t`); a remote one remembers who it was read from. */
  datatype Pending =
    | LocalSearch(file: CString)
    | RemoteSearch(src: nat, req: SearchRequest)

  datatype Node = Node(
    self: Endpoint,
    slots: seq<int>,   // the neighbour table: a neighbour's socket is named by the number of its node
    files: set<CString>,
    pending: seq<Pending>,
    log: seq<LogEntry>,
    index: map<CString, set<Endpoint>>)

  /** A packet between two servents, or from a servent to its own client. */
  datatype Flight =
    | Request(src: nat, dst: nat, req: SearchRequest)
    | Answer(src: nat, dst: nat, file: CString, found: seq<Endpoint>)
    | ToClient(dst: nat, file: CString, found: seq<Endpoint>)

  /** Somewhere, a machine was found to hold `file` on behalf of the searcher at address `asker`. */
  datatype Finding = Finding(asker: CString, file: CString, machine: Endpoint)

  /** A node asked its neighbours for a file. */
  datatype Inquiry = Inquiry(asker: nat, file: CString)

  /** `found` and `asked` are history: the discoveries made and the searches sent out. */
  datatype Network = Network(nodes: seq<Node>, wire: seq<Flight>, found: set<Finding>, asked: set<Inquiry>)

  datatype Event =
    | Ask(n: nat, file: CString)                    // the client of n asks for a file
    | Arrive(k: nat)                                // the k-th packet in flight is read by its servent
    | Read(k: nat)                                  // ... or by its client
    | Serve(n: nat, answer: bool, hit: bool, to: seq<nat>, log: seq<LogEntry>) // n handles its oldest request
    | Gain(n: nat, file: CString)                   // a download ends
    | Tick(n: nat, ms: nat, log: seq<LogEntry>)     // n updates its log timers

  predicate WellFormed(s: Network) {
    forall fl :: fl in s.wire ==> fl.dst < |s.nodes|
  }

  /** The node takes a request for its own when the source *address* is its own; ports are not compared. */
  predicate IsSource(node: Node, req: SearchRequest) {
    node.self.ip == req.source.ip
  }

  /** Some slot is taken: without neighbours the loop leaves the queue of requests alone. */
  predicate HasNeighbour(slots: seq<int>) {
    exists r :: r in slots && r != NO_SOCKET
  }

  predicate Enabled(s: Network, e: Event) {
    match e
    case Ask(n, _) => n < |s.nodes|
    case Arrive(k) => k < |s.wire| && !s.wire[k].ToClient?
    case Read(k) => k < |s.wire| && s.wire[k].ToClient?
    case Serve(n, _, _, to, _) =>
      && n < |s.nodes| && s.nodes[n].pending != [] && HasNeighbour(s.nodes[n].slots)
      && |to| <= MAX_NEIGHBOURS && (forall r :: r in to ==> r < |s.nodes|)
      && CanServe(s.nodes[n], e)
    case Gain(n, _) => n < |s.nodes|
    case Tick(n, _, _) => n < |s.nodes|
  }

  /** All that is asked of an answer policy: a request without TTL is answered, and a hit is a file held. */
  predicate CanServe(node: Node, e: Event)
    requires e.Serve? && node.pending != []
  {
    match node.pending[0]
    case LocalSearch(file) => e.hit == (file in node.files) && e.log == node.log
    case RemoteSearch(_, req) =>
      if IsSource(node, req) then e.log == node.log
      else (req.ttl == 0 ==> e.answer) && (e.hit ==> req.file in node.files)
  }

  function Requests(src: nat, to: seq<nat>, req: SearchRequest): (r: seq<Flight>)
    ensures |r| == |to| && forall i :: 0 <= i < |r| ==> r[i] == Request(src, to[i], req)
    ensures forall fl :: fl in r ==> fl.Request? && fl.src == src && fl.req == req && fl.dst in to
  {
    seq(|to|, i requires 0 <= i < |to| => Request(src, to[i], req))
  }

  function Answers(src: nat, to: seq<nat>, file: CString, found: seq<Endpoint>): (r: seq<Flight>)
    ensures |r| == |to| && forall i :: 0 <= i < |r| ==> r[i] == Answer(src, to[i], file, found)
    ensures forall fl :: fl in r ==> fl.Answer? && fl.src == src && fl.file == file && fl.found == found && fl.dst in to
  {
    seq(|to|, i requires 0 <= i < |to| => Answer(src, to[i], file, found))
  }

  /** The packets one `Serve` puts in flight. */
  function Emits(node: Node, e: Event): seq<Flight>
    requires e.Serve? && node.pending != [] && CanServe(node, e)
  {
    match node.pending[0]
    case LocalSearch(file) =>
      if e.hit then [ToClient(e.n, file, [node.self])]
      else Requests(e.n, e.to, SearchRequest(node.self, file, DEFAULT_TTL, []))
    case RemoteSearch(_, req) =>
      if IsSource(node, req) then [ToClient(e.n, req.file, req.found)]
      else if e.answer then Answers(e.n, e.to, req.file, Listed(req, node.self, e.hit))
      else Requests(e.n, e.to, Relayed(req, node.self, e.hit))
  }

  function FindingsOf(asker: CString, file: CString, list: seq<Endpoint>): set<Finding> {
    set m | m in list :: Finding(asker, file, m)
  }

  /** The discovery one `Serve` makes. */
  function Discovers(node: Node, e: Event): set<Finding>
    requires e.Serve? && node.pending != []
  {
    match node.pending[0]
    case LocalSearch(file) => if e.hit then {Finding(node.self.ip, file, node.self)} else {}
    case RemoteSearch(_, req) =>
      if !IsSource(node, req) && e.hit then {Finding(req.source.ip, req.file, node.self)} else {}
  }

  /** The search one `Serve` sends out. */
  function SendsOut(node: Node, e: Event): set<Inquiry>
    requires e.Serve? && node.pending != []
  {
    if node.pending[0].LocalSearch? && !e.hit then {Inquiry(e.n, node.pending[0].file)} else {}
  }

  function Without<T>(s: seq<T>, k: nat): seq<T>
    requires k < |s|
  {
    s[..k] + s[k + 1..]
  }

  /** What `handle_search_answer` makes of the client's index, as sets. */
  function Merge(index: map<CString, set<Endpoint>>, file: CString, found: seq<Endpoint>): map<CString, set<Endpoint>> {
    index[file := (if file in index then index[file] else {}) + set m | m in found]
  }

  function Next(s: Network, e: Event): Network
    requires WellFormed(s) && Enabled(s, e)
  {
    match e
    case Ask(n, file) =>
      s.(nodes := s.nodes[n := s.nodes[n].(pending := s.nodes[n].pending + [LocalSearch(file)])])
    case Arrive(k) =>
      var fl := s.wire[k];
      if fl.Request? then
        var node := s.nodes[fl.dst];
        s.(nodes := s.nodes[fl.dst := node.(pending := node.pending + [RemoteSearch(fl.src, fl.req)])],
           wire := Without(s.wire, k))
      else s.(wire := Without(s.wire, k) + [ToClient(fl.dst, fl.file, fl.found)])
    case Read(k) =>
      var fl := s.wire[k];
      var node := s.nodes[fl.dst];
      s.(nodes := s.nodes[fl.dst := node.(index := Merge(node.index, fl.file, fl.found))],
         wire := Without(s.wire, k))
    case Serve(n, _, _, _, log) =>
      var node := s.nodes[n];
      Network(s.nodes[n := node.(pending := node.pending[1..], log := log)],
              s.wire + Emits(node, e),
              s.found + Discovers(node, e),
              s.asked + SendsOut(node, e))
    case Gain(n, file) =>
      s.(nodes := s.nodes[n := s.nodes[n].(files := s.nodes[n].files + {file})])
    case Tick(n, _, log) =>
      s.(nodes := s.nodes[n := s.nodes[n].(log := log)])
  }

  /** Nothing in flight, nothing queued. */
  predicate Quiet(s: Network) {
    s.wire == [] && forall n :: 0 <= n < |s.nodes| ==> s.nodes[n].pending == []
  }

  /** The neighbour tables of a network, node by node. */
  function LinksOf(nodes: seq<Node>): (links: seq<seq<int>>)
    ensures |links| == |nodes| && forall n :: 0 <= n < |nodes| ==> links[n] == nodes[n].slots
  {
    seq(|nodes|, n requires 0 <= n < |nodes| => nodes[n].slots)
  }

  /** Each slot is free or holds another node. */
  predicate IsGraph(links: seq<seq<int>>) {
    forall n :: 0 <= n < |links| ==>
      |links[n]| <= MAX_NEIGHBOURS &&
      forall r :: r in links[n] && r != NO_SOCKET ==> 0 <= r < |links| && r != n
  }

  /** Neighbours know each other. */
  predicate Symmetric(links: seq<seq<int>>) {
    forall m, n :: 0 <= m < |links| && 0 <= n < |links| && n in links[m] ==> m in links[n]
  }

  predicate Linked(nodes: seq<Node>) {
    IsGraph(LinksOf(nodes))
  }

  /** Nodes with neighbours and files of their own, and nothing else yet. */
  predicate Initial(s: Network) {
    && Quiet(s) && s.found == {} && s.asked == {}
    && forall n :: 0 <= n < |s.nodes| ==> s.nodes[n].log == [] && s.nodes[n].index == map[]
  }

  // ----- Runs -----

  ghost predicate Run(s: Network, events: seq<Event>)
    decreases |events|
  {
    WellFormed(s) &&
    (events == [] || (Enabled(s, events[0]) && Run(Next(s, events[0]), events[1..])))
  }

  ghost function After(s: Network, events: seq<Event>): Network
    requires Run(s, events)
    decreases |events|
  {
    if events == [] then s else After(Next(s, events[0]), events[1..])
  }

  lemma EmittedStayInside(nodes: seq<Node>, e: Event)
    requires e.Serve? && e.n < |nodes| && nodes[e.n].pending != [] && CanServe(nodes[e.n], e)
    requires forall r :: r in e.to ==> r < |nodes|
    ensures forall fl :: fl in Emits(nodes[e.n], e) ==> fl.dst < |nodes|
  {
  }

  lemma WellFormedNext(s: Network, e: Event)
    requires WellFormed(s) && Enabled(s, e)
    ensures WellFormed(Next(s, e)) && |Next(s, e).nodes| == |s.nodes|
  {
    hide Emits, CanServe, Discovers, SendsOut, Merge;
    if e.Serve? {
      EmittedStayInside(s.nodes, e);
    }
  }

  // ----- Properties of every carrier -----

  ghost predicate Everywhere(s: Network, inFlight: Flight -> bool, queued: (nat, Pending) -> bool) {
    && (forall fl :: fl in s.wire ==> inFlight(fl))
    && (forall n, p :: 0 <= n < |s.nodes| && p in s.nodes[n].pending ==> queued(n, p))
  }

  /** Reading a packet off the wire carries the property over. */
  ghost predicate Carries(inFlight: Flight -> bool, queued: (nat, Pending) -> bool) {
    && (forall src, dst, req :: inFlight(Request(src, dst, req)) ==> queued(dst, RemoteSearch(src, req)))
    && (forall src, dst, file, found ::
          inFlight(Answer(src, dst, file, found)) ==> inFlight(ToClient(dst, file, found)))
  }

  /** A property of all carriers is kept by a step if what the step sends, and what it queues, has it. */
  lemma EverywhereNext(s: Network, e: Event, inFlight: Flight -> bool, queued: (nat, Pending) -> bool)
    requires WellFormed(s) && Enabled(s, e)
    requires Everywhere(s, inFlight, queued) && Carries(inFlight, queued)
    requires e.Ask? ==> queued(e.n, LocalSearch(e.file))
    requires e.Serve? ==> forall fl :: fl in Emits(s.nodes[e.n], e) ==> inFlight(fl)
    ensures Everywhere(Next(s, e), inFlight, queued)
  {
    hide Emits, CanServe, Discovers, SendsOut, Merge;
    match e
    case Arrive(k) =>
      assert s.wire[k] in s.wire;
      if s.wire[k].Answer? {
        assert s.wire[k] == Answer(s.wire[k].src, s.wire[k].dst, s.wire[k].file, s.wire[k].found);
      } else {
        assert s.wire[k] == Request(s.wire[k].src, s.wire[k].dst, s.wire[k].req);
      }
    case _ =>
  }
}
