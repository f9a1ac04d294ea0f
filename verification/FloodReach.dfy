/** A network of 14 nodes, one more than are always searched completely, in which a holder is missed. */
module FloodReach {
  import opened Basics
  import opened Wire
  import opened SearchRules
  import opened Sending
  import opened Flood
  import opened FloodLaws
  import opened FloodConservation
  import opened FloodTermination
  import opened FloodPolicies
  import opened FloodOpening
  import opened FloodGraphs
  import opened FloodResults
  import opened FloodDuplicates
  import opened FloodCoverage
  import opened FloodProgress

  const SIZE: nat := 14
  const TOP: nat := 10   // the node at which the TTL runs out

  /**
   * The asker 0 and a chain 1 to 10 that uses up the TTL, a shortcut from 0 to 2, and behind 10 two ways, by
   * 11 and by 12, to the holder 13.
   */
  function Slots(n: nat): seq<int> {
    if n == 0 then [2, 1]
    else if n == 1 then [0, 2]
    else if n == 2 then [1, 0, 3]
    else if n < TOP then [n - 1, n + 1]
    else if n == TOP then [9, 11, 12]
    else if n < 13 then [10, 13]
    else [11, 12]
  }

  function Self(n: nat): Endpoint
    requires n < SIZE
  {
    Endpoint([n + 1], [49])
  }

  /** The nodes 1 to `upto` have logged the search. */
  function NodeAt(n: nat, upto: nat, lifetime: nat): Node
    requires n < SIZE
  {
    Node(Self(n), Slots(n), if n == 13 then {FILE} else {}, [],
         if 1 <= n <= upto then [LogEntry(lifetime, Self(0), FILE)] else [], map[])
  }

  function NodesAt(upto: nat, lifetime: nat): (nodes: seq<Node>)
    ensures |nodes| == SIZE && forall n :: 0 <= n < SIZE ==> nodes[n] == NodeAt(n, upto, lifetime)
  {
    seq(SIZE, n requires 0 <= n < SIZE => NodeAt(n, upto, lifetime))
  }

  function RequestAt(ttl: byte): SearchRequest {
    SearchRequest(Self(0), FILE, ttl, [])
  }

  /** What is left behind on the wire: the request from 0 to 2, and that from 2 back to 0. */
  function Behind(upto: nat): seq<Flight> {
    [Request(0, 2, RequestAt(10))] + if upto >= 2 then [Request(2, 0, RequestAt(8))] else []
  }

  /** What has gone ahead. */
  function Ahead(upto: nat): seq<Flight>
    requires upto <= TOP
  {
    if upto < TOP then [Request(upto, upto + 1, RequestAt(10 - upto))]
    else [Request(TOP, 11, RequestAt(0)), Request(TOP, 12, RequestAt(0))]
  }

  function Stage(upto: nat, lifetime: nat): Network
    requires upto <= TOP
  {
    Network(NodesAt(upto, lifetime), Behind(upto) + Ahead(upto), {}, {Inquiry(0, FILE)})
  }

  /** Between two stages the request is queued. */
  function Between(upto: nat, lifetime: nat): Network
    requires upto < TOP
  {
    var nodes := NodesAt(upto, lifetime);
    Network(nodes[upto + 1 := nodes[upto + 1].(pending := [RemoteSearch(upto, RequestAt(10 - upto))])],
            Behind(upto), {}, {Inquiry(0, FILE)})
  }

  /** Whom a node of the chain relays to. */
  function Onward(n: nat): (to: seq<nat>)
    requires 1 <= n <= TOP
    ensures forall r :: r in to ==> r < SIZE
  {
    if n == 2 then [0, 3] else if n < TOP then [n + 1] else [11, 12]
  }

  lemma WantedPair(a: int, b: int, source: int)
    ensures Wanted([a, b], source) ==
            (if Chosen(a, source) then [a] else []) + if Chosen(b, source) then [b] else []
  {
    assert [a, b][..1] == [a] && [a][..0] == [];
    assert Wanted([a], source) == Wanted([], source) + if Chosen(a, source) then [a] else [];
  }

  lemma WantedTriple(a: int, b: int, c: int, source: int)
    ensures Wanted([a, b, c], source) == Wanted([a, b], source) + if Chosen(c, source) then [c] else []
  {
    assert [a, b, c][..2] == [a, b];
  }

  lemma OnwardIs(n: nat)
    requires 1 <= n <= TOP
    ensures Wanted(Slots(n), n - 1) == Onward(n)
  {
    var s := Slots(n);
    WantedPair(s[0], s[1], n - 1);
    if |s| == 3 {
      WantedTriple(s[0], s[1], s[2], n - 1);
    }
  }

  function RelayEvent(n: nat, lifetime: nat): Event
    requires 1 <= n <= TOP
  {
    Serve(n, false, false, Onward(n), [LogEntry(lifetime, Self(0), FILE)])
  }

  lemma ChainArrives(upto: nat, lifetime: nat)
    requires upto < TOP
    ensures var s := Stage(upto, lifetime);
            && |s.wire| > 0 && WellFormed(s) && Enabled(s, Arrive(|s.wire| - 1)) && AsIntended(s, Arrive(|s.wire| - 1), lifetime)
            && Next(s, Arrive(|s.wire| - 1)) == Between(upto, lifetime)
  {
    var s := Stage(upto, lifetime);
    var k := |s.wire| - 1;
    assert s.wire[k] == Ahead(upto)[0];
    assert Without(s.wire, k) == Behind(upto);
    assert [] + [RemoteSearch(upto, RequestAt(10 - upto))] == [RemoteSearch(upto, RequestAt(10 - upto))];
  }

  lemma OnwardFlights(n: nat)
    requires 1 <= n <= TOP
    ensures Behind(n - 1) + Requests(n, Onward(n), RequestAt(10 - n)) == Behind(n) + Ahead(n)
  {
    assert |Onward(n)| <= 2;
  }

  /** A node that has not seen the search, and not the file, relays it. */
  lemma FreshRelay(s: Network, n: nat, src: nat, req: SearchRequest, to: seq<nat>, lifetime: nat)
    requires n < |s.nodes| && s.nodes[n].pending == [RemoteSearch(src, req)] && s.nodes[n].log == []
    requires s.nodes[n].self.ip != req.source.ip && req.ttl > 0 && req.found == [] && req.file !in s.nodes[n].files
    requires to == Wanted(s.nodes[n].slots, src) && |to| <= MAX_NEIGHBOURS && forall r :: r in to ==> r < |s.nodes|
    requires HasNeighbour(s.nodes[n].slots) && WellFormed(s)
    ensures var e := Serve(n, false, false, to, [LogEntry(lifetime, req.source, req.file)]);
            && Enabled(s, e) && AsIntended(s, e, lifetime)
            && Next(s, e) ==
                 Network(s.nodes[n := s.nodes[n].(pending := [], log := e.log)],
                         s.wire + Requests(n, to, SearchRequest(req.source, req.file, req.ttl - 1, [])), s.found, s.asked)
  {
    var e := Serve(n, false, false, to, [LogEntry(lifetime, req.source, req.file)]);
    assert Relayed(req, s.nodes[n].self, false) == SearchRequest(req.source, req.file, req.ttl - 1, []);
    assert s.nodes[n].pending[1..] == [];
    assert s.found + Discovers(s.nodes[n], e) == s.found && s.asked + SendsOut(s.nodes[n], e) == s.asked;
    hide Wanted, HasNeighbour;
  }

  lemma NodeRelays(upto: nat, lifetime: nat)
    requires upto < TOP
    ensures NodesAt(upto, lifetime)[upto + 1 := NodeAt(upto + 1, upto, lifetime).(log := [LogEntry(lifetime, Self(0), FILE)])]
            == NodesAt(upto + 1, lifetime)
  {
    hide Slots;
  }

  lemma QueuedIs(upto: nat, lifetime: nat)
    requires upto < TOP
    ensures var s, n := Between(upto, lifetime), upto + 1;
            var node := s.nodes[n];
            && |s.nodes| == SIZE && WellFormed(s) && n < SIZE
            && node.pending == [RemoteSearch(upto, RequestAt(10 - upto))] && node.log == [] && node.files == {}
            && node.self == Self(n) && node.slots == Slots(n) && HasNeighbour(node.slots) && |Onward(n)| <= MAX_NEIGHBOURS
            && s.wire == Behind(upto) && s.found == {} && s.asked == {Inquiry(0, FILE)}
            && s.nodes[n := node.(pending := [], log := [LogEntry(lifetime, Self(0), FILE)])] == NodesAt(upto + 1, lifetime)
  {
    var n := upto + 1;
    assert Slots(n)[0] in Slots(n) && Slots(n)[0] != NO_SOCKET;
    NodeRelays(upto, lifetime);
  }

  lemma ChainRelays(upto: nat, lifetime: nat)
    requires upto < TOP
    ensures var s, e := Between(upto, lifetime), RelayEvent(upto + 1, lifetime);
            && WellFormed(s) && Enabled(s, e) && AsIntended(s, e, lifetime)
            && Next(s, e) == Stage(upto + 1, lifetime)
  {
    var s, n := Between(upto, lifetime), upto + 1;
    QueuedIs(upto, lifetime);
    OnwardIs(n);
    OnwardFlights(n);
    hide Wanted, Slots, Onward, Behind, Ahead, Next, Enabled, AsIntended, WellFormed, NodesAt, Between, HasNeighbour;
    FreshRelay(s, n, upto, RequestAt(10 - upto), Onward(n), lifetime);
  }

  // ----- The run -----

  /** No clock ticks, and no download ends. */
  predicate Timeless(events: seq<Event>) {
    forall e :: e in events ==> !e.Tick? && !e.Gain?
  }

  /** From the stage `upto` the chain goes on to the last, and then as given. */
  lemma {:induction false} ChainThen(upto: nat, lifetime: nat, more: seq<Event>) returns (events: seq<Event>)
    requires upto <= TOP && IntendedRun(Stage(TOP, lifetime), more, lifetime) && Run(Stage(TOP, lifetime), more)
    requires Timeless(more)
    ensures IntendedRun(Stage(upto, lifetime), events, lifetime) && Run(Stage(upto, lifetime), events)
    ensures After(Stage(upto, lifetime), events) == After(Stage(TOP, lifetime), more) && Timeless(events)
    decreases TOP - upto
  {
    hide Stage, Between, IntendedRun, Run, After, Next, Enabled, AsIntended, WellFormed;
    if upto == TOP {
      events := more;
    } else {
      var rest := ChainThen(upto + 1, lifetime, more);
      ChainArrives(upto, lifetime);
      var e1, e2 := Arrive(|Stage(upto, lifetime).wire| - 1), RelayEvent(upto + 1, lifetime);
      ChainRelays(upto, lifetime);
      OneMoreIntended(Between(upto, lifetime), e2, rest, lifetime);
      OneMoreIntended(Stage(upto, lifetime), e1, [e2] + rest, lifetime);
      events := [e1] + ([e2] + rest);
    }
  }

  function Start(lifetime: nat): Network {
    Network(NodesAt(0, lifetime), [], {}, {})
  }

  /** The asker has its own search queued. */
  function Waiting(lifetime: nat): Network {
    var nodes := NodesAt(0, lifetime);
    Network(nodes[0 := nodes[0].(pending := [LocalSearch(FILE)])], [], {}, {})
  }

  lemma StartAsks(lifetime: nat)
    ensures var s := Start(lifetime);
            WellFormed(s) && Enabled(s, Ask(0, FILE)) && AsIntended(s, Ask(0, FILE), lifetime)
            && Next(s, Ask(0, FILE)) == Waiting(lifetime)
  {
    assert [] + [LocalSearch(FILE)] == [LocalSearch(FILE)];
  }

  lemma WaitingIs(lifetime: nat)
    ensures var s := Waiting(lifetime);
            && |s.nodes| == SIZE && WellFormed(s) && s.nodes[0].pending == [LocalSearch(FILE)] && s.nodes[0].log == []
            && s.nodes[0].files == {} && s.nodes[0].self == Self(0) && s.nodes[0].slots == [2, 1]
            && s.wire == [] && s.found == {} && s.asked == {}
            && s.nodes[0 := s.nodes[0].(pending := [])] == NodesAt(0, lifetime)
  {
  }

  lemma StartSends(lifetime: nat)
    ensures var s, e := Waiting(lifetime), Serve(0, false, false, [2, 1], []);
            WellFormed(s) && Enabled(s, e) && AsIntended(s, e, lifetime) && Next(s, e) == Stage(0, lifetime)
  {
    WaitingIs(lifetime);
    WantedPair(2, 1, NO_SOCKET);
    assert [2, 1][0] in [2, 1];
    assert Requests(0, [2, 1], RequestAt(10)) == Behind(0) + Ahead(0);
    hide Waiting, Wanted, Slots, Behind, Ahead, Next, Enabled, AsIntended, NodesAt, WellFormed;
    FreshAsk(Waiting(lifetime), 0, FILE, [2, 1]);
    CommonIsIntended(Waiting(lifetime), Serve(0, false, false, [2, 1], []), Stage(0, lifetime), lifetime);
  }

  // ----- What is left comes to nothing -----

  /** The request can only be answered: it is back at the asker, seen before, or without TTL. */
  predicate Dead(n: nat, req: SearchRequest) {
    IsFor(req, Self(0), FILE) && (n == 0 || n == 2 || ((n == 11 || n == 12) && req.ttl == 0))
  }

  ghost function DeadFlight(): Flight -> bool {
    (fl: Flight) => fl.Request? ==> Dead(fl.dst, fl.req)
  }

  ghost function DeadPending(): (nat, Pending) -> bool {
    (n: nat, p: Pending) => p.RemoteSearch? && Dead(n, p.req)
  }

  /** Nothing was found, and nothing under way can find anything. */
  ghost predicate Spent(s: Network) {
    && |s.nodes| == SIZE && s.found == {} && Inquiry(0, FILE) in s.asked
    && (forall n :: 0 <= n < SIZE ==> s.nodes[n].self == Self(n) && (FILE in s.nodes[n].files ==> n == 13))
    && Logged(s.nodes[2], Self(0), FILE)
    && Everywhere(s, DeadFlight(), DeadPending())
  }

  lemma SpentServes(s: Network, e: Event, lifetime: nat)
    requires WellFormed(s) && Enabled(s, e) && AsIntended(s, e, lifetime) && e.Serve? && Spent(s)
    ensures forall fl :: fl in Emits(s.nodes[e.n], e) ==> !fl.Request?
    ensures Discovers(s.nodes[e.n], e) == {} && s.nodes[e.n].log <= e.log
  {
    var node := s.nodes[e.n];
    assert node.pending[0] in node.pending && DeadPending()(e.n, node.pending[0]);
  }

  lemma SpentNext(s: Network, e: Event, lifetime: nat)
    requires WellFormed(s) && Enabled(s, e) && AsIntended(s, e, lifetime) && IsWork(e) && Spent(s)
    ensures Spent(Next(s, e))
  {
    if e.Serve? {
      SpentServes(s, e, lifetime);
    }
    NodesGrow(s, e);
    HistoryNext(s, e);
    WorkKeepsFiles(s, e);
    assert Logged(Next(s, e).nodes[2], Self(0), FILE) by {
      var l :| l in s.nodes[2].log && l.source == Self(0) && l.file == FILE;
      LogNext(s, e, lifetime, 2);
      hide Next, AsIntended, Enabled, IntendedUnique;
      assert l in Next(s, e).nodes[2].log;
    }
    hide Next, Emits, AsIntended, Discovers, SendsOut, Logged, Dead;
    EverywhereNext(s, e, DeadFlight(), DeadPending());
  }

  lemma WorkKeepsFiles(s: Network, e: Event)
    requires WellFormed(s) && Enabled(s, e) && IsWork(e)
    ensures |Next(s, e).nodes| == |s.nodes|
    ensures forall n :: 0 <= n < |s.nodes| ==> Next(s, e).nodes[n].files == s.nodes[n].files
  {
    hide Emits, CanServe, Discovers, SendsOut, Merge;
  }

  lemma {:induction false} SpentAlways(s: Network, events: seq<Event>, lifetime: nat)
    requires IntendedRun(s, events, lifetime) && Run(s, events) && OnlyWork(events) && Spent(s)
    ensures Spent(After(s, events))
    decreases |events|
  {
    if events != [] {
      assert events[0] in events;
      SpentNext(s, events[0], lifetime);
      hide Next, Enabled, AsIntended, Spent;
      SpentAlways(Next(s, events[0]), events[1..], lifetime);
    }
  }

  // ----- The holder is missed -----

  lemma SlotsAreFine(n: nat)
    requires n < SIZE
    ensures |Slots(n)| <= MAX_NEIGHBOURS
    ensures forall r :: r in Slots(n) ==> 0 <= r < SIZE && r != n && n in Slots(r)
    ensures forall m :: HasOther(Slots(n), m)
  {
    forall m
      ensures HasOther(Slots(n), m)
    {
      assert Slots(n)[0] in Slots(n) && Slots(n)[1] in Slots(n) && Slots(n)[0] != Slots(n)[1];
    }
  }

  lemma StartIsInitial(lifetime: nat)
    ensures var s := Start(lifetime);
            && Initial(s) && |s.nodes| == SIZE && DistinctAddresses(s.nodes)
            && forall n :: 0 <= n < SIZE ==> LinksOf(s.nodes)[n] == Slots(n)
  {
    hide Slots;
  }

  lemma TablesAreFine(lifetime: nat)
    ensures var s := Start(lifetime);
            && Initial(s) && Linked(s.nodes) && Symmetric(LinksOf(s.nodes)) && NoLeaf(LinksOf(s.nodes))
            && DistinctAddresses(s.nodes) && |s.nodes| == SIZE
  {
    StartIsInitial(lifetime);
    hide Slots, Start, Initial, DistinctAddresses, HasOther;
    forall n | 0 <= n < SIZE
      ensures |Slots(n)| <= MAX_NEIGHBOURS
      ensures forall r :: r in Slots(n) ==> 0 <= r < SIZE && r != n && n in Slots(r)
      ensures forall m :: HasOther(Slots(n), m)
    {
      SlotsAreFine(n);
    }
  }

  const WAY: seq<nat> := [0, 2, 3, 4, 5, 6, 7, 8, 9, 10, 11, 13]

  lemma TheWayIs(i: nat)
    requires i < |WAY| - 1
    ensures WAY[i] < SIZE && WAY[i + 1] < SIZE && WAY[i + 1] in Slots(WAY[i])
  {
  }

  /** The holder is a neighbour of a neighbour ... of the asker. */
  lemma TheWay(nodes: seq<Node>)
    requires |nodes| == SIZE && forall n :: 0 <= n < SIZE ==> nodes[n].slots == Slots(n)
    ensures IsPath(nodes, WAY)
  {
    hide Slots;
    forall i | 0 <= i < |WAY| - 1
      ensures WAY[i + 1] in Slots(WAY[i])
    {
      TheWayIs(i);
    }
  }

  /** Somebody asked, and does not list a holder that can be reached. */
  ghost predicate Misses(s: Network) {
    exists q, p :: q in s.asked && IsPath(s.nodes, p) && p[0] == q.asker && !ListsTheEnd(s, q, p)
  }

  lemma {:induction false} TimelessRun(s: Network, events: seq<Event>)
    requires Run(s, events) && Timeless(events)
    ensures NoLateGains(s, events) && forall n: nat :: Elapsed(events, n) == 0
    decreases |events|
  {
    if events != [] {
      assert events[0] in events;
      TimelessRun(Next(s, events[0]), events[1..]);
    }
  }

  lemma LastStage(lifetime: nat)
    ensures var s := Stage(TOP, lifetime);
            && WellFormed(s) && Spent(s) && AskersPresent(s) && NobodyCutOff(s) && AlongLinks(s)
            && LinksOf(s.nodes) == LinksOf(Start(lifetime).nodes)
  {
    var s := Stage(TOP, lifetime);
    assert s.nodes[2].log[0] in s.nodes[2].log;
    assert s.nodes[0].self == Self(0);
    assert LinksOf(s.nodes) == LinksOf(Start(lifetime).nodes);
  }

  lemma WorkIsTimeless(events: seq<Event>)
    requires OnlyWork(events)
    ensures Timeless(events)
  {
  }

  lemma SpentMisses(s: Network, end: Network)
    requires Spent(end) && OnlyFound(end) && Grows(s.nodes, end.nodes) && |s.nodes| == SIZE
    requires forall n :: 0 <= n < SIZE ==> s.nodes[n].slots == Slots(n) && s.nodes[n].self == Self(n)
    requires FILE in s.nodes[13].files
    ensures Misses(end)
  {
    TheWay(end.nodes);
    IndexedWasFound(end);
    var q, x := Inquiry(0, FILE), Finding(Self(0).ip, FILE, Self(13));
    assert !Indexed(end, x);
    assert !IndexHas(end.nodes[0], x);
    assert !ListsTheEnd(end, q, WAY);
  }

  lemma LastRun(lifetime: nat) returns (more: seq<Event>)
    ensures var s := Stage(TOP, lifetime);
            && IntendedRun(s, more, lifetime) && Run(s, more) && Timeless(more)
            && Quiet(After(s, more)) && Spent(After(s, more))
  {
    var last := Stage(TOP, lifetime);
    TablesAreFine(lifetime);
    LastStage(lifetime);
    LinkedIs(Start(lifetime).nodes, last.nodes);
    hide *;
    IntendedComesToRest(last, lifetime);
    more :| IntendedRun(last, more, lifetime) && Run(last, more) && OnlyWork(more) && Quiet(After(last, more));
    SpentAlways(last, more, lifetime);
    WorkIsTimeless(more);
  }

  lemma StartThen(lifetime: nat, more: seq<Event>) returns (events: seq<Event>)
    requires IntendedRun(Stage(0, lifetime), more, lifetime) && Run(Stage(0, lifetime), more) && Timeless(more)
    ensures IntendedRun(Start(lifetime), events, lifetime) && Run(Start(lifetime), events)
    ensures After(Start(lifetime), events) == After(Stage(0, lifetime), more) && Timeless(events)
  {
    var e1, e2 := Ask(0, FILE), Serve(0, false, false, [2, 1], []);
    events := [e1] + ([e2] + more);
    assert Timeless(events);
    hide *;
    StartAsks(lifetime);
    StartSends(lifetime);
    OneMoreIntended(Waiting(lifetime), e2, more, lifetime);
    OneMoreIntended(Start(lifetime), e1, [e2] + more, lifetime);
  }

  /** A whole run, from the start over the chain to rest. */
  lemma MissingRun(lifetime: nat) returns (events: seq<Event>)
    ensures var s := Start(lifetime);
            && IntendedRun(s, events, lifetime) && Run(s, events) && Timeless(events)
            && Quiet(After(s, events)) && Spent(After(s, events))
  {
    hide *;
    var more := LastRun(lifetime);
    var chain := ChainThen(0, lifetime, more);
    events := StartThen(lifetime, chain);
  }

  /**
   * The bound of `FloodFindsAll` is exact: in this network, which meets all its conditions but has one node
   * more, a run falls quiet with a holder unlisted that the asker could reach.
   */
  lemma FourteenAreTooMany(lifetime: nat)
    requires lifetime > 0
    ensures exists s, events ::
              && IntendedRun(s, events, lifetime) && Run(s, events) && Initial(s)
              && Linked(s.nodes) && Symmetric(LinksOf(s.nodes)) && NoLeaf(LinksOf(s.nodes)) && DistinctAddresses(s.nodes)
              && |s.nodes| == DEFAULT_TTL as nat + 4
              && NoLateGains(s, events) && (forall n :: 0 <= n < |s.nodes| ==> Elapsed(events, n) < lifetime)
              && Quiet(After(s, events)) && Misses(After(s, events))
  {
    var s := Start(lifetime);
    var events := MissingRun(lifetime);
    TablesAreFine(lifetime);
    assert forall n :: 0 <= n < SIZE ==> s.nodes[n].slots == Slots(n) && s.nodes[n].self == Self(n);
    assert FILE in s.nodes[13].files;
    assert OnlyFound(s);
    hide Start, IntendedRun, Run, After, Spent, OnlyFound, Symmetric, NoLeaf, Linked, DistinctAddresses, Initial;
    hide NoLateGains, Elapsed, Quiet, Misses, Timeless, Grows;
    TimelessRun(s, events);
    NodesGrowAlways(s, events);
    OnlyFoundAlways(s, events, lifetime);
    SpentMisses(s, After(s, events));
  }
}
