/** Whom the documented flood visits, as long as no log entry has run out. */
module FloodCoverage {
  import opened Basics
  import opened Wire
  import opened SearchRules
  import opened Sending
  import opened Flood
  import opened FloodLaws
  import opened FloodConservation
  import opened FloodPolicies
  import opened FloodOpening
  import opened FloodDuplicates
  import opened FloodGraphs

  /** The log knows the search. */
  predicate Logged(node: Node, source: Endpoint, file: CString) {
    exists l :: l in node.log && l.source == source && l.file == file
  }

  // ----- Within one lifetime nothing is forgotten -----

  /** Every log entry outlasts the events. */
  ghost predicate Lasting(s: Network, events: seq<Event>) {
    forall n, l :: 0 <= n < |s.nodes| && l in s.nodes[n].log ==> l.timer > Elapsed(events, n)
  }

  ghost predicate Remembers(nodes: seq<Node>, nodes': seq<Node>) {
    |nodes| == |nodes'| && forall n, source, file :: 0 <= n < |nodes| && Logged(nodes[n], source, file) ==>
      Logged(nodes'[n], source, file)
  }

  lemma {:induction false} TickKeepsAll(log: seq<LogEntry>, ms: nat)
    requires forall l :: l in log ==> l.timer > ms
    ensures |IntendedTick(log, ms)| == |log|
    ensures forall i :: 0 <= i < |log| ==> IntendedTick(log, ms)[i] == log[i].(timer := log[i].timer - ms)
  {
    if log != [] {
      assert log[0] in log;
      TickKeepsAll(log[1..], ms);
    }
  }

  lemma TickRemembers(log: seq<LogEntry>, ms: nat, left: nat)
    requires forall l :: l in log ==> l.timer > ms + left
    ensures forall l :: l in IntendedTick(log, ms) ==> l.timer > left
    ensures forall l :: l in log ==> exists k :: k in IntendedTick(log, ms) && k.source == l.source && k.file == l.file
  {
    var now := IntendedTick(log, ms);
    TickKeepsAll(log, ms);
    hide IntendedTick;
    forall l | l in now
      ensures l.timer > left
    {
      var i :| 0 <= i < |log| && now[i] == l;
      assert log[i] in log;
    }
    forall l | l in log
      ensures exists k :: k in now && k.source == l.source && k.file == l.file
    {
      var i :| 0 <= i < |log| && log[i] == l;
      assert now[i] in now;
    }
  }

  lemma LastingTick(s: Network, e: Event, rest: seq<Event>, lifetime: nat)
    requires WellFormed(s) && Enabled(s, e) && AsIntended(s, e, lifetime) && e.Tick?
    requires Lasting(s, [e] + rest)
    ensures Lasting(Next(s, e), rest) && Remembers(s.nodes, Next(s, e).nodes)
  {
    assert ([e] + rest)[1..] == rest;
    assert Next(s, e) == s.(nodes := s.nodes[e.n := s.nodes[e.n].(log := IntendedTick(s.nodes[e.n].log, e.ms))]);
    forall n
      ensures Elapsed([e] + rest, n) == (if e.n == n then e.ms else 0) + Elapsed(rest, n)
    {
    }
    hide Elapsed, IntendedTick, Next, AsIntended, Enabled, WellFormed;
    TickRemembers(s.nodes[e.n].log, e.ms, Elapsed(rest, e.n));
  }

  /** Except for the clock, entries are only added. */
  lemma LogsGrow(s: Network, e: Event, lifetime: nat)
    requires WellFormed(s) && Enabled(s, e) && AsIntended(s, e, lifetime) && !e.Tick?
    ensures |Next(s, e).nodes| == |s.nodes|
    ensures forall n :: 0 <= n < |s.nodes| ==> s.nodes[n].log <= Next(s, e).nodes[n].log
    ensures forall n, l :: 0 <= n < |s.nodes| && l in Next(s, e).nodes[n].log ==>
              l in s.nodes[n].log || l.timer == lifetime
  {
    WellFormedNext(s, e);
    forall n | 0 <= n < |s.nodes|
      ensures s.nodes[n].log <= Next(s, e).nodes[n].log
      ensures forall l :: l in Next(s, e).nodes[n].log ==> l in s.nodes[n].log || l.timer == lifetime
    {
      LogNext(s, e, lifetime, n);
      hide Next, AsIntended, Enabled, WellFormed, IntendedUnique;
    }
  }

  lemma LessLeft(events: seq<Event>, count: nat, lifetime: nat)
    requires events != [] && forall n :: 0 <= n < count ==> Elapsed(events, n) < lifetime
    ensures forall n :: 0 <= n < count ==> Elapsed(events[1..], n) < lifetime
    ensures forall n: nat :: Elapsed(events[1..], n) <= Elapsed(events, n)
  {
    forall n: nat
      ensures Elapsed(events[1..], n) <= Elapsed(events, n)
    {
      ElapsedUnfolds(events, n);
    }
  }

  /** Logs that only gain entries with a full lifetime still outlast the events. */
  lemma GrownLast(s: Network, s': Network, events: seq<Event>, lifetime: nat)
    requires events != [] && Lasting(s, events) && |s'.nodes| == |s.nodes|
    requires forall n :: 0 <= n < |s.nodes| ==> Elapsed(events, n) < lifetime
    requires forall n, l :: 0 <= n < |s.nodes| && l in s'.nodes[n].log ==> l in s.nodes[n].log || l.timer == lifetime
    ensures Lasting(s', events[1..])
  {
    LessLeft(events, |s.nodes|, lifetime);
    hide Elapsed;
  }

  lemma LastingNext(s: Network, events: seq<Event>, lifetime: nat)
    requires events != [] && WellFormed(s) && Enabled(s, events[0]) && AsIntended(s, events[0], lifetime)
    requires Lasting(s, events) && forall n :: 0 <= n < |s.nodes| ==> Elapsed(events, n) < lifetime
    ensures Lasting(Next(s, events[0]), events[1..]) && Remembers(s.nodes, Next(s, events[0]).nodes)
    ensures forall n :: 0 <= n < |s.nodes| ==> Elapsed(events[1..], n) < lifetime
  {
    hide *;
    var e, s' := events[0], Next(s, events[0]);
    LessLeft(events, |s.nodes|, lifetime);
    if e.Tick? {
      assert events == [e] + events[1..];
      LastingTick(s, e, events[1..], lifetime);
    } else {
      LogsGrow(s, e, lifetime);
      GrownRemember(s.nodes, s'.nodes);
      GrownLast(s, s', events, lifetime);
    }
  }

  lemma GrownRemember(nodes: seq<Node>, nodes': seq<Node>)
    requires |nodes| == |nodes'| && forall n :: 0 <= n < |nodes| ==> nodes[n].log <= nodes'[n].log
    ensures Remembers(nodes, nodes')
  {
    forall n, source, file | 0 <= n < |nodes| && Logged(nodes[n], source, file)
      ensures Logged(nodes'[n], source, file)
    {
      var l :| l in nodes[n].log && l.source == source && l.file == file;
      assert l in nodes'[n].log;
    }
  }

  // ----- Whom the search reaches -----

  /** The node is at the asker's own address, has logged the search, or is about to. */
  ghost predicate Visited(s: Network, r: nat, source: Endpoint, file: CString) {
    r < |s.nodes| &&
    (s.nodes[r].self.ip == source.ip || Logged(s.nodes[r], source, file) || OnItsWay(s, r, source, file))
  }

  ghost predicate NeighboursVisited(s: Network, n: nat, source: Endpoint, file: CString)
    requires n < |s.nodes|
  {
    forall r: nat :: r in s.nodes[n].slots ==> Visited(s, r, source, file)
  }

  /** Who has logged the search and brought it to all neighbours. */
  ghost function PassedOn(s: Network, source: Endpoint, file: CString): set<nat> {
    set n: nat | n < |s.nodes| && Logged(s.nodes[n], source, file) && NeighboursVisited(s, n, source, file)
  }

  /** Who logged the search passed it on, or its TTL had run out at as many nodes. */
  ghost predicate Passed(s: Network, n: nat, source: Endpoint, file: CString)
    requires n < |s.nodes|
  {
    && s.nodes[n].self.ip != source.ip
    && (NeighboursVisited(s, n, source, file) || |PassedOn(s, source, file)| >= DEFAULT_TTL as nat)
  }

  ghost predicate LoggedHavePassed(s: Network) {
    forall n, source, file :: 0 <= n < |s.nodes| && Logged(s.nodes[n], source, file) ==> Passed(s, n, source, file)
  }

  ghost predicate AskersHavePassed(s: Network) {
    forall q :: q in s.asked ==>
      q.asker < |s.nodes| && NeighboursVisited(s, q.asker, s.nodes[q.asker].self, q.file)
  }

  /** The sender knows the search, and the TTL spent was spent on nodes that passed it on. */
  ghost predicate CoverRequest(s: Network, src: nat, req: SearchRequest) {
    && src < |s.nodes|
    && (s.nodes[src].self.ip == req.source.ip || Logged(s.nodes[src], req.source, req.file))
    && req.ttl as nat + |PassedOn(s, req.source, req.file)| >= DEFAULT_TTL as nat
  }

  ghost function CoverFlight(s: Network): Flight -> bool {
    (fl: Flight) => fl.Request? ==> CoverRequest(s, fl.src, fl.req)
  }

  ghost function CoverPending(s: Network): (nat, Pending) -> bool {
    (n: nat, p: Pending) => p.RemoteSearch? ==> CoverRequest(s, p.src, p.req)
  }

  ghost predicate Covering(s: Network) {
    Everywhere(s, CoverFlight(s), CoverPending(s)) && LoggedHavePassed(s) && AskersHavePassed(s)
  }

  lemma SubsetSize<T>(a: set<T>, b: set<T>)
    requires a <= b
    ensures |a| <= |b|
  {
    assert a + (b - a) == b;
  }

  /** A node that takes a request up logs the search, unless it has done so before. */
  lemma ServedIsLogged(s: Network, e: Event, lifetime: nat)
    requires WellFormed(s) && Enabled(s, e) && AsIntended(s, e, lifetime) && ServesRemote(s, e)
    ensures var req := ServedRequest(s, e);
            && IntendedUnique(s.nodes[e.n].log, req) == !Logged(s.nodes[e.n], req.source, req.file)
            && (!Logged(s.nodes[e.n], req.source, req.file) ==> Logged(Next(s, e).nodes[e.n], req.source, req.file))
            && forall source, file :: Logged(Next(s, e).nodes[e.n], source, file) ==>
                 Logged(s.nodes[e.n], source, file) || IsFor(req, source, file)
  {
    var req := ServedRequest(s, e);
    var node := Next(s, e).nodes[e.n];
    assert node.log == e.log;
    if IntendedUnique(s.nodes[e.n].log, req) {
      assert node.log[|node.log| - 1] == LogEntry(lifetime, req.source, req.file);
    }
  }

  lemma OnItsWayNext(s: Network, e: Event, lifetime: nat, r: nat, source: Endpoint, file: CString)
    requires WellFormed(s) && Enabled(s, e) && AsIntended(s, e, lifetime)
    requires Remembers(s.nodes, Next(s, e).nodes) && r < |s.nodes| && OnItsWay(s, r, source, file)
    ensures Visited(Next(s, e), r, source, file)
  {
    NodesGrow(s, e);
    if ServesRemote(s, e) {
      ServedIsLogged(s, e, lifetime);
    }
    StaysOnItsWay(s, e, r, source, file);
    hide Next, Logged, AsIntended, Enabled, OnItsWay;
  }

  lemma NeighboursVisitedNext(s: Network, e: Event, lifetime: nat, n: nat, source: Endpoint, file: CString)
    requires WellFormed(s) && Enabled(s, e) && AsIntended(s, e, lifetime)
    requires Remembers(s.nodes, Next(s, e).nodes) && n < |s.nodes| && NeighboursVisited(s, n, source, file)
    ensures NeighboursVisited(Next(s, e), n, source, file)
  {
    NodesGrow(s, e);
    hide Next, AsIntended, Enabled, Logged, OnItsWay;
    forall r: nat | r in s.nodes[n].slots
      ensures Visited(Next(s, e), r, source, file)
    {
      if OnItsWay(s, r, source, file) {
        OnItsWayNext(s, e, lifetime, r, source, file);
      }
    }
  }

  lemma PassedOnGrows(s: Network, e: Event, lifetime: nat, source: Endpoint, file: CString)
    requires WellFormed(s) && Enabled(s, e) && AsIntended(s, e, lifetime) && Remembers(s.nodes, Next(s, e).nodes)
    ensures PassedOn(s, source, file) <= PassedOn(Next(s, e), source, file)
    ensures |PassedOn(s, source, file)| <= |PassedOn(Next(s, e), source, file)|
  {
    hide Next, Enabled, AsIntended, Logged, NeighboursVisited;
    forall n | n in PassedOn(s, source, file)
      ensures n in PassedOn(Next(s, e), source, file)
    {
      NeighboursVisitedNext(s, e, lifetime, n, source, file);
    }
    SubsetSize(PassedOn(s, source, file), PassedOn(Next(s, e), source, file));
  }

  /** A relay brings the search to all neighbours. */
  lemma RelayVisits(s: Network, e: Event, lifetime: nat)
    requires WellFormed(s) && Enabled(s, e) && AsIntended(s, e, lifetime) && IsRelay(s, e) && Covering(s)
    requires Linked(s.nodes) && Remembers(s.nodes, Next(s, e).nodes)
    ensures NeighboursVisited(Next(s, e), e.n, ServedRequest(s, e).source, ServedRequest(s, e).file)
  {
    var node, req, s' := s.nodes[e.n], ServedRequest(s, e), Next(s, e);
    var src := node.pending[0].src;
    NodesGrow(s, e);
    assert node.pending[0] in node.pending && CoverPending(s)(e.n, node.pending[0]);
    WantedAreChosen(node.slots, src);
    assert Emits(node, e) == Requests(e.n, e.to, Relayed(req, node.self, e.hit));
    hide Logged, PassedOn, Next, Emits, Covering, Wanted;
    forall r: nat | r in s'.nodes[e.n].slots
      ensures Visited(s', r, req.source, req.file)
    {
      if r in e.to {
        AskedIsOnItsWay(s, e, r, Relayed(req, node.self, e.hit));
      } else {
        assert r == src;
      }
    }
  }

  /** ... and the relaying node to those who passed it on. */
  lemma RelayPasses(s: Network, e: Event, lifetime: nat)
    requires WellFormed(s) && Enabled(s, e) && AsIntended(s, e, lifetime) && IsRelay(s, e) && Covering(s)
    requires Linked(s.nodes) && Remembers(s.nodes, Next(s, e).nodes)
    ensures var req := ServedRequest(s, e);
            |PassedOn(s, req.source, req.file)| + 1 <= |PassedOn(Next(s, e), req.source, req.file)|
  {
    var req := ServedRequest(s, e);
    ServedIsLogged(s, e, lifetime);
    WellFormedNext(s, e);
    assert !Logged(s.nodes[e.n], req.source, req.file);
    hide Next, Enabled, AsIntended, Logged, NeighboursVisited, Covering;
    RelayVisits(s, e, lifetime);
    PassedOnGrows(s, e, lifetime, req.source, req.file);
    SubsetSize(PassedOn(s, req.source, req.file) + {e.n}, PassedOn(Next(s, e), req.source, req.file));
  }

  lemma CoverStill(s: Network, e: Event, lifetime: nat)
    requires WellFormed(s) && Enabled(s, e) && AsIntended(s, e, lifetime) && Remembers(s.nodes, Next(s, e).nodes)
    requires Everywhere(s, CoverFlight(s), CoverPending(s))
    ensures Everywhere(s, CoverFlight(Next(s, e)), CoverPending(Next(s, e)))
  {
    NodesGrow(s, e);
    hide Next, Enabled, AsIntended, Logged, PassedOn;
    var s' := Next(s, e);
    forall src, req | CoverRequest(s, src, req)
      ensures CoverRequest(s', src, req)
    {
      PassedOnGrows(s, e, lifetime, req.source, req.file);
    }
    forall n, p | 0 <= n < |s.nodes| && p in s.nodes[n].pending
      ensures CoverPending(s')(n, p)
    {
      assert CoverPending(s)(n, p);
    }
    forall fl | fl in s.wire
      ensures CoverFlight(s')(fl)
    {
      assert CoverFlight(s)(fl);
    }
  }

  lemma EmittedCovers(s: Network, e: Event, lifetime: nat)
    requires WellFormed(s) && Enabled(s, e) && AsIntended(s, e, lifetime) && e.Serve? && Covering(s)
    requires Linked(s.nodes) && Remembers(s.nodes, Next(s, e).nodes)
    ensures forall fl :: fl in Emits(s.nodes[e.n], e) ==> CoverFlight(Next(s, e))(fl)
  {
    var node, s' := s.nodes[e.n], Next(s, e);
    NodesGrow(s, e);
    assert node.pending[0] in node.pending && CoverPending(s)(e.n, node.pending[0]);
    if IsRelay(s, e) {
      var req := ServedRequest(s, e);
      ServedIsLogged(s, e, lifetime);
      RelayPasses(s, e, lifetime);
      hide Covering, Logged, PassedOn, Next;
      forall fl | fl in Emits(node, e)
        ensures CoverFlight(s')(fl)
      {
        assert fl.req.ttl as nat == req.ttl as nat - 1;
      }
    }
    hide Covering, Logged, PassedOn, Next;
  }

  /** A node that logs a search passes it on, unless its TTL has run out. */
  lemma NewlyLoggedPasses(s: Network, e: Event, lifetime: nat)
    requires WellFormed(s) && Enabled(s, e) && AsIntended(s, e, lifetime) && ServesRemote(s, e) && Covering(s)
    requires Linked(s.nodes) && Remembers(s.nodes, Next(s, e).nodes)
    requires !Logged(s.nodes[e.n], ServedRequest(s, e).source, ServedRequest(s, e).file)
    ensures e.n < |Next(s, e).nodes| && Passed(Next(s, e), e.n, ServedRequest(s, e).source, ServedRequest(s, e).file)
  {
    var node, req := s.nodes[e.n], ServedRequest(s, e);
    NodesGrow(s, e);
    ServedIsLogged(s, e, lifetime);
    assert node.pending[0] in node.pending && CoverPending(s)(e.n, node.pending[0]);
    PassedOnGrows(s, e, lifetime, req.source, req.file);
    if IsRelay(s, e) {
      RelayVisits(s, e, lifetime);
    }
    hide Logged, PassedOn, NeighboursVisited, Next, Covering;
  }

  lemma {:induction false} TickShrinks(log: seq<LogEntry>, ms: nat, l: LogEntry)
    requires l in IntendedTick(log, ms)
    ensures exists was :: was in log && was.source == l.source && was.file == l.file
  {
    if log[0].timer > ms && l == log[0].(timer := log[0].timer - ms) {
      assert log[0] in log;
    } else {
      TickShrinks(log[1..], ms, l);
      var was :| was in log[1..] && was.source == l.source && was.file == l.file;
      assert was in log;
    }
  }

  lemma LoggedHavePassedNext(s: Network, e: Event, lifetime: nat)
    requires WellFormed(s) && Enabled(s, e) && AsIntended(s, e, lifetime) && Covering(s)
    requires Linked(s.nodes) && Remembers(s.nodes, Next(s, e).nodes)
    ensures LoggedHavePassed(Next(s, e))
  {
    var s' := Next(s, e);
    NodesGrow(s, e);
    forall n, source, file | 0 <= n < |s'.nodes| && Logged(s'.nodes[n], source, file)
      ensures Passed(s', n, source, file)
    {
      LogGrowsByServing(s, e, lifetime, n, source, file);
      hide Next, Enabled, AsIntended, Logged, PassedOn, NeighboursVisited;
      if Logged(s.nodes[n], source, file) {
        assert Passed(s, n, source, file);
        PassedOnGrows(s, e, lifetime, source, file);
        if NeighboursVisited(s, n, source, file) {
          NeighboursVisitedNext(s, e, lifetime, n, source, file);
        }
      } else {
        NewlyLoggedPasses(s, e, lifetime);
      }
    }
  }

  lemma LogGrowsByServing(s: Network, e: Event, lifetime: nat, n: nat, source: Endpoint, file: CString)
    requires WellFormed(s) && Enabled(s, e) && AsIntended(s, e, lifetime) && n < |s.nodes|
    requires Logged(Next(s, e).nodes[n], source, file)
    ensures Logged(s.nodes[n], source, file) ||
            (ServesRemote(s, e) && e.n == n && IsFor(ServedRequest(s, e), source, file))
  {
    if ServesRemote(s, e) {
      ServedIsLogged(s, e, lifetime);
    }
    LogNext(s, e, lifetime, n);
    hide Next, AsIntended, Enabled, WellFormed, IntendedTick;
    var l :| l in Next(s, e).nodes[n].log && l.source == source && l.file == file;
    if e.Tick? && e.n == n {
      TickShrinks(s.nodes[n].log, e.ms, l);
    } else if !(ServesRemote(s, e) && e.n == n) {
      assert l in s.nodes[n].log;
    }
  }

  lemma AskersHavePassedNext(s: Network, e: Event, lifetime: nat)
    requires WellFormed(s) && Enabled(s, e) && AsIntended(s, e, lifetime) && Covering(s)
    requires Linked(s.nodes) && Remembers(s.nodes, Next(s, e).nodes)
    ensures AskersHavePassed(Next(s, e))
  {
    var s' := Next(s, e);
    NodesGrow(s, e);
    HistoryNext(s, e);
    WellFormedNext(s, e);
    forall q | q in s'.asked
      ensures q.asker < |s'.nodes| && NeighboursVisited(s', q.asker, s'.nodes[q.asker].self, q.file)
    {
      if q in s.asked {
        NeighboursVisitedNext(s, e, lifetime, q.asker, s.nodes[q.asker].self, q.file);
      } else {
        var node := s.nodes[e.n];
        var req := SearchRequest(node.self, q.file, DEFAULT_TTL, []);
        assert Emits(node, e) == Requests(e.n, e.to, req);
        WantedAreChosen(node.slots, NO_SOCKET);
        hide Next, Emits, Covering, Discovers, SendsOut;
        forall r: nat | r in s'.nodes[e.n].slots
          ensures Visited(s', r, node.self, q.file)
        {
          AskedIsOnItsWay(s, e, r, req);
        }
      }
    }
  }

  lemma CoveringNext(s: Network, e: Event, lifetime: nat)
    requires WellFormed(s) && Enabled(s, e) && AsIntended(s, e, lifetime) && Covering(s)
    requires Linked(s.nodes) && Remembers(s.nodes, Next(s, e).nodes)
    ensures Covering(Next(s, e)) && Linked(Next(s, e).nodes)
  {
    NodesGrow(s, e);
    LoggedHavePassedNext(s, e, lifetime);
    AskersHavePassedNext(s, e, lifetime);
    CoverStill(s, e, lifetime);
    if e.Serve? {
      EmittedCovers(s, e, lifetime);
    }
    hide Next, Emits, AsIntended, LoggedHavePassed, AskersHavePassed, CoverRequest;
    EverywhereNext(s, e, CoverFlight(Next(s, e)), CoverPending(Next(s, e)));
  }

  lemma {:induction false} CoveringAlways(s: Network, events: seq<Event>, lifetime: nat)
    requires IntendedRun(s, events, lifetime) && Linked(s.nodes) && Covering(s) && Lasting(s, events)
    requires forall n :: 0 <= n < |s.nodes| ==> Elapsed(events, n) < lifetime
    ensures Run(s, events) && Covering(After(s, events)) && Linked(After(s, events).nodes)
    decreases |events|
  {
    IntendedRunsAreRuns(s, events, lifetime);
    if events != [] {
      LastingNext(s, events, lifetime);
      CoveringNext(s, events[0], lifetime);
      WellFormedNext(s, events[0]);
      hide Next, Enabled, AsIntended, Covering, Lasting, Elapsed, Linked;
      CoveringAlways(Next(s, events[0]), events[1..], lifetime);
    }
  }

  lemma InitialCovers(s: Network, events: seq<Event>)
    requires Initial(s)
    ensures Covering(s) && Lasting(s, events)
  {
  }

  /** The node is at the asker's own address, or the search has been through it. */
  predicate Through(node: Node, source: Endpoint, file: CString) {
    node.self.ip == source.ip || Logged(node, source, file)
  }

  ghost predicate NeighboursThrough(nodes: seq<Node>, n: nat, source: Endpoint, file: CString)
    requires n < |nodes|
  {
    forall r: nat :: r in nodes[n].slots ==> r < |nodes| && Through(nodes[r], source, file)
  }

  lemma QuietVisited(s: Network, n: nat, source: Endpoint, file: CString)
    requires Quiet(s) && n < |s.nodes| && NeighboursVisited(s, n, source, file)
    ensures NeighboursThrough(s.nodes, n, source, file)
  {
    forall r: nat | r in s.nodes[n].slots
      ensures r < |s.nodes| && Through(s.nodes[r], source, file)
    {
      assert Visited(s, r, source, file);
    }
  }

  /** Who has logged the search, and whose neighbours it has all been through. */
  ghost function SpreadBy(nodes: seq<Node>, source: Endpoint, file: CString): set<nat> {
    set n: nat | n < |nodes| && Logged(nodes[n], source, file) && NeighboursThrough(nodes, n, source, file)
  }

  lemma QuietSpread(s: Network, source: Endpoint, file: CString)
    requires Quiet(s)
    ensures |PassedOn(s, source, file)| <= |SpreadBy(s.nodes, source, file)|
  {
    hide NeighboursVisited, NeighboursThrough, Logged, Quiet;
    forall n | n in PassedOn(s, source, file)
      ensures n in SpreadBy(s.nodes, source, file)
    {
      QuietVisited(s, n, source, file);
    }
    SubsetSize(PassedOn(s, source, file), SpreadBy(s.nodes, source, file));
  }

  /** Who logged a search in a quiet network spread it, or as many did as the TTL allows. */
  lemma QuietPassed(s: Network, n: nat, source: Endpoint, file: CString)
    requires Quiet(s) && LoggedHavePassed(s) && n < |s.nodes| && Logged(s.nodes[n], source, file)
    ensures s.nodes[n].self.ip != source.ip
    ensures NeighboursThrough(s.nodes, n, source, file) || |SpreadBy(s.nodes, source, file)| >= DEFAULT_TTL as nat
  {
    assert Passed(s, n, source, file);
    hide NeighboursVisited, NeighboursThrough, Logged, Quiet, PassedOn, SpreadBy;
    QuietSpread(s, source, file);
    if NeighboursVisited(s, n, source, file) {
      QuietVisited(s, n, source, file);
    }
  }

  /**
   * Coverage of the documented flood on any graph, within one lifetime of the log: when the network has
   * fallen quiet, a search went to every neighbour of its asker, and of every node it went through, it
   * went to all neighbours as well - unless DEFAULT_TTL other nodes did so, and its TTL has run out.
   */
  lemma QuietCoverage(s: Network, events: seq<Event>, lifetime: nat)
    requires Initial(s) && Linked(s.nodes) && IntendedRun(s, events, lifetime)
    requires forall n :: 0 <= n < |s.nodes| ==> Elapsed(events, n) < lifetime
    requires Run(s, events) && Quiet(After(s, events))
    ensures var end := After(s, events);
            && (forall q :: q in end.asked ==>
                  q.asker < |end.nodes| && NeighboursThrough(end.nodes, q.asker, end.nodes[q.asker].self, q.file))
            && (forall n, source, file :: 0 <= n < |end.nodes| && Logged(end.nodes[n], source, file) ==>
                  || NeighboursThrough(end.nodes, n, source, file)
                  || |SpreadBy(end.nodes, source, file)| >= DEFAULT_TTL as nat)
  {
    InitialCovers(s, events);
    hide Next, Enabled, AsIntended, Lasting, Elapsed, Linked, Initial, Quiet, SpreadBy, Through, Visited;
    CoveringAlways(s, events, lifetime);
    var end := After(s, events);
    forall q | q in end.asked
      ensures q.asker < |end.nodes| && NeighboursThrough(end.nodes, q.asker, end.nodes[q.asker].self, q.file)
    {
      QuietVisited(end, q.asker, end.nodes[q.asker].self, q.file);
    }
    forall n, source, file | 0 <= n < |end.nodes| && Logged(end.nodes[n], source, file)
      ensures || NeighboursThrough(end.nodes, n, source, file)
              || |SpreadBy(end.nodes, source, file)| >= DEFAULT_TTL as nat
    {
      QuietPassed(end, n, source, file);
    }
  }

  // ----- Small networks are searched completely -----

  predicate DistinctAddresses(nodes: seq<Node>) {
    forall i, j :: 0 <= i < |nodes| && 0 <= j < |nodes| && nodes[i].self.ip == nodes[j].self.ip ==> i == j
  }

  /** A way from node to neighbour. */
  predicate IsPath(nodes: seq<Node>, p: seq<nat>) {
    && p != [] && (forall i :: 0 <= i < |p| ==> p[i] < |nodes|)
    && forall i :: 0 <= i < |p| - 1 ==> p[i + 1] in nodes[p[i]].slots
  }

  /** The most nodes that are searched completely, on one-way tables and where neighbours know each other. */
  predicate FewEnough(nodes: seq<Node>) {
    |nodes| <= DEFAULT_TTL as nat + 2 || (|nodes| <= DEFAULT_TTL as nat + 3 && Symmetric(LinksOf(nodes)))
  }

  /**
   * A neighbour of a node that logged the search is missed only in a network that is large enough for the
   * asker, the nodes that used up the TTL, the last one and the one missed; and, where neighbours know each
   * other and nobody has only one, a second neighbour of that one, which did not spread the search either.
   */
  lemma NobodyMissed(s: Network, asker: nat, file: CString, before: nat, last: nat)
    requires Quiet(s) && Covering(s) && Linked(s.nodes) && DistinctAddresses(s.nodes)
    requires FewEnough(s.nodes) && NoLeaf(LinksOf(s.nodes))
    requires Inquiry(asker, file) in s.asked && asker < |s.nodes| && before < |s.nodes| && last < |s.nodes|
    requires last in s.nodes[before].slots && last != asker && Logged(s.nodes[before], s.nodes[asker].self, file)
    ensures Logged(s.nodes[last], s.nodes[asker].self, file)
  {
    var source := s.nodes[asker].self;
    QuietVisited(s, asker, source, file);
    QuietPassed(s, before, source, file);
    assert last != before by {
      assert last in LinksOf(s.nodes)[before];
    }
    if !Logged(s.nodes[last], source, file) {
      var some := SpreadBy(s.nodes, source, file);
      SpreadersAreOthers(s, asker, file);
      Distinct4(some, asker, before, last, |s.nodes|);
      if Symmetric(LinksOf(s.nodes)) {
        var other := SecondNeighbour(s, asker, file, before, last);
        Distinct5(some, asker, before, last, other, |s.nodes|);
      }
    }
  }

  lemma SpreadersAreOthers(s: Network, asker: nat, file: CString)
    requires LoggedHavePassed(s) && asker < |s.nodes|
    ensures asker !in SpreadBy(s.nodes, s.nodes[asker].self, file)
    ensures forall n :: n in SpreadBy(s.nodes, s.nodes[asker].self, file) ==> n < |s.nodes|
  {
    assert Logged(s.nodes[asker], s.nodes[asker].self, file) ==> Passed(s, asker, s.nodes[asker].self, file);
    hide Logged, NeighboursThrough;
  }

  lemma Distinct4(some: set<nat>, a: nat, b: nat, c: nat, bound: nat)
    requires (forall n :: n in some ==> n < bound) && a < bound && b < bound && c < bound
    requires a !in some && b !in some && c !in some && a != b && a != c && b != c
    ensures |some| + 3 <= bound
  {
    SmallSet(some + {a, b, c}, bound);
    assert |some + {a, b, c}| == |some| + 3;
  }

  lemma Distinct5(some: set<nat>, a: nat, b: nat, c: nat, d: nat, bound: nat)
    requires (forall n :: n in some ==> n < bound) && a < bound && b < bound && c < bound && d < bound
    requires a !in some && b !in some && c !in some && d !in some
    requires a != b && a != c && a != d && b != c && b != d && c != d
    ensures |some| + 4 <= bound
  {
    SmallSet(some + {a, b, c, d}, bound);
    assert |some + {a, b, c, d}| == |some| + 4;
  }

  /** A missed node has a second neighbour, which has not spread the search and is not the asker. */
  lemma SecondNeighbour(s: Network, asker: nat, file: CString, before: nat, last: nat) returns (other: nat)
    requires Linked(s.nodes) && NoLeaf(LinksOf(s.nodes)) && Symmetric(LinksOf(s.nodes)) && DistinctAddresses(s.nodes)
    requires asker < |s.nodes| && before < |s.nodes| && last < |s.nodes| && last != asker
    requires last in s.nodes[before].slots && NeighboursThrough(s.nodes, asker, s.nodes[asker].self, file)
    requires !Logged(s.nodes[last], s.nodes[asker].self, file)
    ensures other < |s.nodes| && other != before && other != last && other != asker
    ensures other !in SpreadBy(s.nodes, s.nodes[asker].self, file)
  {
    var links := LinksOf(s.nodes);
    assert last in links[before] && before in links[last];
    var k :| k in links[last] && k != NO_SOCKET && k != before;
    other := k;
    assert last in links[other];
    hide Logged;
    assert !Through(s.nodes[last], s.nodes[asker].self, file);
  }

  lemma {:induction false} PathCovered(s: Network, asker: nat, file: CString, p: seq<nat>)
    requires Quiet(s) && Covering(s) && Linked(s.nodes) && DistinctAddresses(s.nodes)
    requires FewEnough(s.nodes) && NoLeaf(LinksOf(s.nodes))
    requires Inquiry(asker, file) in s.asked && IsPath(s.nodes, p) && p[0] == asker
    ensures p[|p| - 1] == asker || Logged(s.nodes[p[|p| - 1]], s.nodes[asker].self, file)
    decreases |p|
  {
    if |p| > 1 {
      var before, last, source := p[|p| - 2], p[|p| - 1], s.nodes[asker].self;
      PathCovered(s, asker, file, p[..|p| - 1]);
      hide Logged, NeighboursVisited, Linked, NoLeaf, FewEnough;
      if before == asker {
        QuietVisited(s, asker, source, file);
      } else if last != asker {
        NobodyMissed(s, asker, file, before, last);
      }
    }
  }

  // ----- Who was visited and holds the file was found -----

  /** Each node that logged a search and holds the file was found. */
  ghost predicate VisitedFound(s: Network) {
    forall n, l :: 0 <= n < |s.nodes| && l in s.nodes[n].log && l.file in s.nodes[n].files ==>
      Finding(l.source.ip, l.file, s.nodes[n].self) in s.found
  }

  /** No download brings a node a file whose search it has already let through. */
  ghost predicate NoLateGains(s: Network, events: seq<Event>)
    requires Run(s, events)
    decreases |events|
  {
    events == [] ||
    ((events[0].Gain? ==> forall l :: l in s.nodes[events[0].n].log ==> l.file != events[0].file) &&
     NoLateGains(Next(s, events[0]), events[1..]))
  }

  lemma VisitedFoundNext(s: Network, e: Event, lifetime: nat)
    requires WellFormed(s) && Enabled(s, e) && AsIntended(s, e, lifetime) && VisitedFound(s)
    requires e.Gain? ==> forall l :: l in s.nodes[e.n].log ==> l.file != e.file
    ensures VisitedFound(Next(s, e))
  {
    var s' := Next(s, e);
    NodesGrow(s, e);
    HistoryNext(s, e);
    hide Emits, SendsOut, Merge, IntendedTick;
    forall n, l | 0 <= n < |s'.nodes| && l in s'.nodes[n].log && l.file in s'.nodes[n].files
      ensures Finding(l.source.ip, l.file, s'.nodes[n].self) in s'.found
    {
      if e.Tick? && e.n == n {
        TickShrinks(s.nodes[n].log, e.ms, l);
        var was :| was in s.nodes[n].log && was.source == l.source && was.file == l.file;
      } else if l in s.nodes[n].log {
      } else {
        assert ServesRemote(s, e) && e.n == n;
        assert Finding(l.source.ip, l.file, s.nodes[n].self) in Discovers(s.nodes[n], e);
      }
    }
  }

  lemma {:induction false} VisitedFoundAlways(s: Network, events: seq<Event>, lifetime: nat)
    requires IntendedRun(s, events, lifetime) && Run(s, events) && NoLateGains(s, events) && VisitedFound(s)
    ensures VisitedFound(After(s, events))
    decreases |events|
  {
    hide Next, Enabled, AsIntended, VisitedFound;
    if events != [] {
      VisitedFoundNext(s, events[0], lifetime);
      VisitedFoundAlways(Next(s, events[0]), events[1..], lifetime);
    }
  }

  /**
   * In every state of every run on a graph without leaves, each node that logged a search and holds the
   * file is listed in a packet in flight, in a queued request or for the asker.
   */
  lemma LoggedHoldersAreLive(s: Network, events: seq<Event>, lifetime: nat)
    requires Initial(s) && IntendedRun(s, events, lifetime) && Run(s, events) && NoLeaf(LinksOf(s.nodes))
    requires NoLateGains(s, events)
    ensures var end := After(s, events);
            forall n, l :: 0 <= n < |end.nodes| && l in end.nodes[n].log && l.file in end.nodes[n].files ==>
              Live(end, Finding(l.source.ip, l.file, end.nodes[n].self))
  {
    assert VisitedFound(s);
    InitialConserves(s);
    hide Next, Enabled, AsIntended, Live, NoLeaf, NoLateGains;
    VisitedFoundAlways(s, events, lifetime);
    KeepsWhatItFinds(s, events, lifetime);
  }

  /** The asker's own client lists the node at the end of the path, if that is another one and has the file. */
  predicate ListsTheEnd(s: Network, q: Inquiry, p: seq<nat>)
    requires IsPath(s.nodes, p) && p[0] == q.asker
  {
    var last := s.nodes[p[|p| - 1]];
    p[|p| - 1] != q.asker && q.file in last.files ==>
      IndexHas(s.nodes[q.asker], Finding(s.nodes[q.asker].self.ip, q.file, last.self))
  }

  /**
   * The purpose of the documented flood. In a network without leaves, of at most 12 nodes with addresses of
   * their own, or 13 where neighbours know each other: when a run within one lifetime of the log has fallen quiet, the client of each
   * asker lists every node that holds the file and can be reached from the asker, however far away - and
   * everybody listed holds the file.
   */
  lemma FloodFindsAll(s: Network, events: seq<Event>, lifetime: nat)
    requires Initial(s) && IntendedRun(s, events, lifetime) && Run(s, events)
    requires Linked(s.nodes) && NoLeaf(LinksOf(s.nodes)) && DistinctAddresses(s.nodes) && FewEnough(s.nodes)
    requires NoLateGains(s, events) && forall n :: 0 <= n < |s.nodes| ==> Elapsed(events, n) < lifetime
    requires Quiet(After(s, events))
    ensures var end := After(s, events);
            && (forall q, p :: q in end.asked && IsPath(end.nodes, p) && p[0] == q.asker ==> ListsTheEnd(end, q, p))
            && SoundIndexes(end.nodes, end)
  {
    var end := After(s, events);
    InitialCovers(s, events);
    InitialLaws(s);
    ResultsSound(s, events);
    NodesGrowAlways(s, events);
    assert LinksOf(end.nodes) == LinksOf(s.nodes);
    CoveringAlways(s, events, lifetime);
    LoggedHoldersAreLive(s, events, lifetime);
    QuietMeansIndexed(end);
    forall q, p | q in end.asked && IsPath(end.nodes, p) && p[0] == q.asker
      ensures ListsTheEnd(end, q, p)
    {
      assert q == Inquiry(q.asker, q.file);
      PathCovered(end, q.asker, q.file, p);
      EndIsListed(end, q, p);
    }
  }

  lemma EndIsListed(s: Network, q: Inquiry, p: seq<nat>)
    requires IsPath(s.nodes, p) && p[0] == q.asker && DistinctAddresses(s.nodes)
    requires p[|p| - 1] == q.asker || Logged(s.nodes[p[|p| - 1]], s.nodes[q.asker].self, q.file)
    requires forall n, l :: 0 <= n < |s.nodes| && l in s.nodes[n].log && l.file in s.nodes[n].files ==>
               Indexed(s, Finding(l.source.ip, l.file, s.nodes[n].self))
    ensures ListsTheEnd(s, q, p)
  {
    var last := p[|p| - 1];
    if last != q.asker && q.file in s.nodes[last].files {
      var l :| l in s.nodes[last].log && l.source == s.nodes[q.asker].self && l.file == q.file;
      var x := Finding(s.nodes[q.asker].self.ip, q.file, s.nodes[last].self);
      assert Indexed(s, x);
      var n :| 0 <= n < |s.nodes| && IndexHas(s.nodes[n], x);
      assert n == q.asker;
    }
  }
}
