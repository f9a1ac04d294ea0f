/** When the network can go on, and when its searches can come to rest, under both policies. */
module FloodProgress {
  import opened Basics
  import opened Wire
  import opened SearchRules
  import opened Sending
  import opened Flood
  import opened FloodLaws
  import opened FloodTermination
  import opened FloodPolicies
  import opened FloodOpening

  predicate Present(nodes: seq<Node>, source: Endpoint) {
    exists n :: 0 <= n < |nodes| && nodes[n].self == source
  }

  ghost function PresentFlight(nodes: seq<Node>): Flight -> bool {
    (fl: Flight) => fl.Request? ==> Present(nodes, fl.req.source)
  }

  ghost function PresentPending(nodes: seq<Node>): (nat, Pending) -> bool {
    (n: nat, p: Pending) => p.RemoteSearch? ==> Present(nodes, p.req.source)
  }

  /** Every search still under way was asked by a node of the network. */
  ghost predicate AskersPresent(s: Network) {
    Everywhere(s, PresentFlight(s.nodes), PresentPending(s.nodes))
  }

  lemma PresentStill(s: Network, nodes': seq<Node>)
    requires AskersPresent(s) && Grows(s.nodes, nodes')
    ensures Everywhere(s, PresentFlight(nodes'), PresentPending(nodes'))
  {
    forall source | Present(s.nodes, source)
      ensures Present(nodes', source)
    {
      var n :| 0 <= n < |s.nodes| && s.nodes[n].self == source;
      assert nodes'[n].self == source;
    }
    forall n, p | 0 <= n < |s.nodes| && p in s.nodes[n].pending
      ensures PresentPending(nodes')(n, p)
    {
      assert PresentPending(s.nodes)(n, p);
    }
  }

  lemma EmittedPresent(s: Network, e: Event)
    requires WellFormed(s) && Enabled(s, e) && e.Serve? && AskersPresent(s)
    ensures forall fl :: fl in Emits(s.nodes[e.n], e) ==> PresentFlight(Next(s, e).nodes)(fl)
  {
    var node := s.nodes[e.n];
    assert node.pending[0] in node.pending;
    NodesGrow(s, e);
    PresentStill(s, Next(s, e).nodes);
    assert PresentPending(Next(s, e).nodes)(e.n, node.pending[0]);
    assert Next(s, e).nodes[e.n].self == node.self;
  }

  lemma AskersPresentNext(s: Network, e: Event)
    requires WellFormed(s) && Enabled(s, e) && AskersPresent(s)
    ensures AskersPresent(Next(s, e))
  {
    NodesGrow(s, e);
    PresentStill(s, Next(s, e).nodes);
    if e.Serve? {
      EmittedPresent(s, e);
    }
    var nodes' := Next(s, e).nodes;
    hide Next, Emits;
    EverywhereNext(s, e, PresentFlight(nodes'), PresentPending(nodes'));
  }

  lemma InitialAskers(s: Network)
    requires Initial(s)
    ensures AskersPresent(s)
  {
  }

  /** How the documented flood serves the oldest request of n. */
  function IntendedServe(s: Network, n: nat, asker: nat, lifetime: nat): Event
    requires Linked(s.nodes) && n < |s.nodes| && s.nodes[n].pending != []
  {
    var node := s.nodes[n];
    match node.pending[0]
    case LocalSearch(file) => Serve(n, false, file in node.files, Targets(LinksOf(s.nodes), n, NO_SOCKET), node.log)
    case RemoteSearch(src, req) =>
      if IsSource(node, req) then Serve(n, false, false, [], node.log)
      else
        var unique := IntendedUnique(node.log, req);
        var answer := IntendedAnswers(node.log, req);
        Serve(n, answer, unique && req.file in node.files,
              if answer then [asker] else Targets(LinksOf(s.nodes), n, src),
              node.log + if unique then [LogEntry(lifetime, req.source, req.file)] else [])
  }

  /** The next packet to read. */
  function FirstRead(s: Network): (e: Event)
    requires s.wire != []
    ensures IsWork(e) && Enabled(s, e) && !e.Serve?
  {
    if s.wire[0].ToClient? then Read(0) else Arrive(0)
  }

  /** Something is in flight, or some node with neighbours has something queued. */
  ghost predicate CanGoOn(s: Network) {
    s.wire != [] || exists n :: 0 <= n < |s.nodes| && s.nodes[n].pending != [] && HasNeighbour(s.nodes[n].slots)
  }

  /**
   * The documented flood has a next step - reading a packet, or serving a request with all the recipients
   * the comments ask for - exactly when something is in flight or queued at a node with neighbours.
   */
  lemma IntendedStepExact(s: Network, lifetime: nat)
    requires WellFormed(s) && Linked(s.nodes) && AskersPresent(s)
    ensures (exists e :: IsWork(e) && Enabled(s, e) && AsIntended(s, e, lifetime)) <==> CanGoOn(s)
  {
    if s.wire != [] {
      assert AsIntended(s, FirstRead(s), lifetime);
    } else if CanGoOn(s) {
      var n :| 0 <= n < |s.nodes| && s.nodes[n].pending != [] && HasNeighbour(s.nodes[n].slots);
      var front := s.nodes[n].pending[0];
      assert front in s.nodes[n].pending && PresentPending(s.nodes)(n, front);
      var asker := 0;
      if front.RemoteSearch? {
        asker :| 0 <= asker < |s.nodes| && s.nodes[asker].self == front.req.source;
      }
      var e := IntendedServe(s, n, asker, lifetime);
      assert IsWork(e) && Enabled(s, e) && AsIntended(s, e, lifetime);
    }
  }

  /** Unset memory has some value. */
  ghost predicate HoldsSomething(memory: iset<int>) {
    exists garbage :: garbage in memory
  }

  /** The recipients of an answer of the code, for some garbage. */
  ghost function CodeTargets(nodes: seq<Node>, n: nat, memory: iset<int>): (to: seq<nat>)
    requires Linked(nodes) && n < |nodes| && HoldsSomething(memory)
    ensures |to| <= MAX_NEIGHBOURS && forall r :: r in to ==> r < |nodes|
    ensures CodeRecipients(nodes[n].slots, memory, to)
  {
    var slots := nodes[n].slots;
    var garbage :| garbage in memory;
    var uninit := seq(|slots|, _ => garbage);
    WantedNotMore(slots, garbage);
    var to := Delivered(slots, Recipients(slots, garbage, uninit));
    assert forall i :: 0 <= i < |to| ==> to[i] in to;
    assert Garbage(slots, memory, garbage, uninit);
    to
  }

  /** How the code serves the oldest request of n. */
  ghost function WrittenServe(s: Network, n: nat, memory: iset<int>): Event
    requires Linked(s.nodes) && n < |s.nodes| && s.nodes[n].pending != [] && HoldsSomething(memory)
  {
    var node := s.nodes[n];
    match node.pending[0]
    case LocalSearch(file) => Serve(n, false, file in node.files, Targets(LinksOf(s.nodes), n, NO_SOCKET), node.log)
    case RemoteSearch(src, req) =>
      Serve(n, CodeAnswers(node.log, req), CodeUnique(node.log, req) && req.file in node.files,
            CodeTargets(s.nodes, n, memory), node.log)
  }

  /** The same for the code, whatever unset memory holds. */
  lemma WrittenStepExact(s: Network, memory: iset<int>)
    requires WellFormed(s) && Linked(s.nodes) && HoldsSomething(memory)
    ensures (exists e :: IsWork(e) && Enabled(s, e) && AsWritten(s, e, memory)) <==> CanGoOn(s)
  {
    if s.wire != [] {
      assert AsWritten(s, FirstRead(s), memory);
    } else if CanGoOn(s) {
      var n :| 0 <= n < |s.nodes| && s.nodes[n].pending != [] && HasNeighbour(s.nodes[n].slots);
      var e := WrittenServe(s, n, memory);
      hide Targets, CodeTargets, CodeRecipients, HasNeighbour;
      assert IsWork(e) && Enabled(s, e) && AsWritten(s, e, memory);
    }
  }

  // ----- Coming to rest -----

  /** No node without neighbours has anything queued. */
  ghost predicate NobodyCutOff(s: Network) {
    forall n :: 0 <= n < |s.nodes| && s.nodes[n].pending != [] ==> HasNeighbour(s.nodes[n].slots)
  }

  lemma GoesOn(s: Network)
    requires NobodyCutOff(s) && !Quiet(s)
    ensures CanGoOn(s)
  {
  }

  /** Requests travel between neighbours, so none reaches a node without. */
  lemma NobodyCutOffNext(s: Network, e: Event)
    requires WellFormed(s) && Enabled(s, e) && !e.Ask?
    requires NobodyCutOff(s) && AlongLinks(s) && Linked(s.nodes) && Symmetric(LinksOf(s.nodes))
    ensures NobodyCutOff(Next(s, e))
  {
    NodesGrow(s, e);
    if e.Arrive? && s.wire[e.k].Request? {
      var fl := s.wire[e.k];
      assert fl in s.wire && LinkFlight(s.nodes)(fl);
      assert fl.dst in LinksOf(s.nodes)[fl.src];
      assert fl.src in s.nodes[fl.dst].slots && fl.src != NO_SOCKET;
    }
    hide Emits, CanServe, Discovers, SendsOut, Merge, HasNeighbour;
  }

  /** What a node without neighbours has queued stays queued. */
  lemma {:induction false} CutOffStays(s: Network, events: seq<Event>, n: nat)
    requires Run(s, events) && n < |s.nodes| && s.nodes[n].pending != [] && !HasNeighbour(s.nodes[n].slots)
    ensures !Quiet(After(s, events))
    decreases |events|
  {
    if events != [] {
      NodesGrow(s, events[0]);
      StillQueued(s, events[0], n);
      hide Next, Enabled, HasNeighbour;
      CutOffStays(Next(s, events[0]), events[1..], n);
    }
  }

  lemma StillQueued(s: Network, e: Event, n: nat)
    requires WellFormed(s) && Enabled(s, e) && n < |s.nodes| && s.nodes[n].pending != []
    requires !HasNeighbour(s.nodes[n].slots)
    ensures |Next(s, e).nodes| == |s.nodes| && Next(s, e).nodes[n].pending != []
  {
    hide Emits, CanServe, Discovers, SendsOut, Merge, HasNeighbour;
  }

  /** Steps of the protocol only. */
  predicate OnlyWork(events: seq<Event>) {
    forall e :: e in events ==> IsWork(e)
  }

  lemma WorkMore(e: Event, rest: seq<Event>)
    requires IsWork(e) && OnlyWork(rest)
    ensures OnlyWork([e] + rest)
  {
  }

  lemma {:induction false} IntendedComesToRest(s: Network, lifetime: nat)
    requires WellFormed(s) && Linked(s.nodes) && Symmetric(LinksOf(s.nodes))
    requires AskersPresent(s) && AlongLinks(s) && NobodyCutOff(s)
    ensures exists events :: IntendedRun(s, events, lifetime) && Run(s, events) && OnlyWork(events) &&
              Quiet(After(s, events))
    decreases Measure(s)
  {
    if Quiet(s) {
      assert IntendedRun(s, [], lifetime) && Run(s, []) && OnlyWork([]);
    } else {
      GoesOn(s);
      IntendedStepExact(s, lifetime);
      hide AsIntended, AskersPresent, AlongLinks, NobodyCutOff, Measure, Quiet, Symmetric;
      var e :| IsWork(e) && Enabled(s, e) && AsIntended(s, e, lifetime);
      MeasureNext(s, e);
      IntendedKeeps(s, e, lifetime);
      hide *;
      IntendedComesToRest(Next(s, e), lifetime);
      var rest :| IntendedRun(Next(s, e), rest, lifetime) && Run(Next(s, e), rest) && OnlyWork(rest) &&
        Quiet(After(Next(s, e), rest));
      OneMoreIntended(s, e, rest, lifetime);
      WorkMore(e, rest);
    }
  }

  lemma IntendedKeeps(s: Network, e: Event, lifetime: nat)
    requires WellFormed(s) && Enabled(s, e) && AsIntended(s, e, lifetime) && IsWork(e)
    requires Linked(s.nodes) && Symmetric(LinksOf(s.nodes)) && AskersPresent(s) && AlongLinks(s) && NobodyCutOff(s)
    ensures var s' := Next(s, e);
            && WellFormed(s') && Linked(s'.nodes) && Symmetric(LinksOf(s'.nodes))
            && AskersPresent(s') && AlongLinks(s') && NobodyCutOff(s')
    ensures !e.Ask?
  {
    RelaysToNeighbours(s, e, lifetime, iset{});
    assert AsksEveryone(s, e);
    hide AsIntended, AskersPresent, AlongLinks, NobodyCutOff, Symmetric, AsksEveryone, IsRelay;
    WellFormedNext(s, e);
    LinksNext(s, e);
    AskersPresentNext(s, e);
    AlongLinksNext(s, e);
    NobodyCutOffNext(s, e);
    hide *;
  }

  lemma AsksMore(e: Event, rest: seq<Event>)
    ensures Asks([e] + rest) == (if e.Ask? then 1 else 0) + Asks(rest)
  {
    assert ([e] + rest)[1..] == rest;
  }

  /** The documented flood can fall quiet without a new search exactly when nobody is cut off. */
  lemma IntendedRestExact(s: Network, lifetime: nat)
    requires WellFormed(s) && Linked(s.nodes) && Symmetric(LinksOf(s.nodes)) && AskersPresent(s) && AlongLinks(s)
    ensures (exists events :: IntendedRun(s, events, lifetime) && Run(s, events) && Asks(events) == 0 &&
               Quiet(After(s, events)))
            <==> NobodyCutOff(s)
  {
    if NobodyCutOff(s) {
      IntendedComesToRest(s, lifetime);
      hide IntendedRun, Run, After, Quiet;
      var events :| IntendedRun(s, events, lifetime) && Run(s, events) && OnlyWork(events) && Quiet(After(s, events));
      AllWork(events);
    } else {
      var n :| 0 <= n < |s.nodes| && s.nodes[n].pending != [] && !HasNeighbour(s.nodes[n].slots);
      hide IntendedRun, Run, After, Quiet, HasNeighbour;
      forall events | IntendedRun(s, events, lifetime) && Run(s, events)
        ensures !Quiet(After(s, events))
      {
        CutOffStays(s, events, n);
      }
    }
  }

  lemma {:induction false} ReachedByIntended(s: Network, events: seq<Event>, lifetime: nat)
    requires IntendedRun(s, events, lifetime) && Run(s, events)
    requires AskersPresent(s) && AlongLinks(s) && Linked(s.nodes)
    ensures var end := After(s, events);
            WellFormed(end) && LinksOf(end.nodes) == LinksOf(s.nodes) && AskersPresent(end) && AlongLinks(end)
    decreases |events|
  {
    if events != [] {
      RelaysToNeighbours(s, events[0], lifetime, iset{});
      assert AsksEveryone(s, events[0]);
      hide AsIntended, AskersPresent, AlongLinks, AsksEveryone, IsRelay, Linked, LinksOf;
      LinksNext(s, events[0]);
      AskersPresentNext(s, events[0]);
      AlongLinksNext(s, events[0]);
      hide Next, Enabled;
      assert Linked(Next(s, events[0]).nodes) by {
        LinkedIs(s.nodes, Next(s, events[0]).nodes);
      }
      ReachedByIntended(Next(s, events[0]), events[1..], lifetime);
    }
  }

  lemma LinkedIs(nodes: seq<Node>, nodes': seq<Node>)
    requires Linked(nodes) && LinksOf(nodes) == LinksOf(nodes')
    ensures Linked(nodes')
  {
  }

  /**
   * However a run of the documented flood has gone so far: it can fall quiet without a new search if and
   * only if no node without neighbours has a search queued.
   */
  lemma SearchesComeToRest(s: Network, events: seq<Event>, lifetime: nat)
    requires Initial(s) && Linked(s.nodes) && Symmetric(LinksOf(s.nodes))
    requires IntendedRun(s, events, lifetime) && Run(s, events)
    ensures (exists more :: IntendedRun(After(s, events), more, lifetime) && Run(After(s, events), more) &&
               Asks(more) == 0 && Quiet(After(After(s, events), more)))
            <==> NobodyCutOff(After(s, events))
  {
    InitialAskers(s);
    InitialIsOneHop(s);
    hide *;
    ReachedByIntended(s, events, lifetime);
    LinkedIs(s.nodes, After(s, events).nodes);
    IntendedRestExact(After(s, events), lifetime);
  }

  lemma WrittenKeeps(s: Network, e: Event, memory: iset<int>)
    requires WellFormed(s) && Enabled(s, e) && AsWritten(s, e, memory) && IsWork(e)
    requires Linked(s.nodes) && Symmetric(LinksOf(s.nodes)) && AlongLinks(s) && NobodyCutOff(s)
    ensures var s' := Next(s, e);
            WellFormed(s') && Linked(s'.nodes) && Symmetric(LinksOf(s'.nodes)) && AlongLinks(s') && NobodyCutOff(s')
    ensures !e.Ask?
  {
    RelaysToNeighbours(s, e, 0, memory);
    assert AsksEveryone(s, e);
    hide AsWritten, AlongLinks, NobodyCutOff, Symmetric, AsksEveryone, IsRelay;
    WellFormedNext(s, e);
    LinksNext(s, e);
    AlongLinksNext(s, e);
    NobodyCutOffNext(s, e);
    hide *;
  }

  lemma {:induction false} WrittenComesToRest(s: Network, memory: iset<int>)
    requires WellFormed(s) && Linked(s.nodes) && Symmetric(LinksOf(s.nodes)) && HoldsSomething(memory)
    requires AlongLinks(s) && NobodyCutOff(s)
    ensures exists events :: WrittenRun(s, events, memory) && Run(s, events) && Asks(events) == 0 &&
              Quiet(After(s, events))
    decreases Measure(s)
  {
    if Quiet(s) {
      assert WrittenRun(s, [], memory) && Run(s, []) && Asks([]) == 0;
    } else {
      GoesOn(s);
      WrittenStepExact(s, memory);
      hide AsWritten, AlongLinks, NobodyCutOff, Measure, Quiet, Symmetric, HoldsSomething;
      var e :| IsWork(e) && Enabled(s, e) && AsWritten(s, e, memory);
      MeasureNext(s, e);
      WrittenKeeps(s, e, memory);
      hide *;
      WrittenComesToRest(Next(s, e), memory);
      var rest :| WrittenRun(Next(s, e), rest, memory) && Run(Next(s, e), rest) && Asks(rest) == 0 &&
        Quiet(After(Next(s, e), rest));
      OneMoreWritten(s, e, rest, memory);
      AsksMore(e, rest);
    }
  }

  /** The code can fall quiet without a new search exactly when nobody is cut off. */
  lemma WrittenRestExact(s: Network, memory: iset<int>)
    requires WellFormed(s) && Linked(s.nodes) && Symmetric(LinksOf(s.nodes)) && HoldsSomething(memory) && AlongLinks(s)
    ensures (exists events :: WrittenRun(s, events, memory) && Run(s, events) && Asks(events) == 0 &&
               Quiet(After(s, events)))
            <==> NobodyCutOff(s)
  {
    if NobodyCutOff(s) {
      WrittenComesToRest(s, memory);
    } else {
      var n :| 0 <= n < |s.nodes| && s.nodes[n].pending != [] && !HasNeighbour(s.nodes[n].slots);
      hide WrittenRun, Run, After, Quiet, HasNeighbour;
      forall events | WrittenRun(s, events, memory) && Run(s, events)
        ensures !Quiet(After(s, events))
      {
        CutOffStays(s, events, n);
      }
    }
  }

  /** However a run of the code has gone so far, the same holds. */
  lemma WrittenSearchesComeToRest(s: Network, events: seq<Event>, memory: iset<int>)
    requires Initial(s) && Linked(s.nodes) && Symmetric(LinksOf(s.nodes)) && HoldsSomething(memory)
    requires WrittenRun(s, events, memory) && Run(s, events)
    ensures (exists more :: WrittenRun(After(s, events), more, memory) && Run(After(s, events), more) &&
               Asks(more) == 0 && Quiet(After(After(s, events), more)))
            <==> NobodyCutOff(After(s, events))
  {
    InitialIsOneHop(s);
    hide *;
    CodeReachesOneHop(s, events, memory);
    RunKeepsLinks(s, events);
    LinkedIs(s.nodes, After(s, events).nodes);
    WrittenRestExact(After(s, events), memory);
  }

  lemma {:induction false} RunKeepsLinks(s: Network, events: seq<Event>)
    requires Run(s, events)
    ensures WellFormed(After(s, events)) && LinksOf(After(s, events).nodes) == LinksOf(s.nodes)
    decreases |events|
  {
    if events != [] {
      LinksNext(s, events[0]);
      hide Next, Enabled, LinksOf;
      RunKeepsLinks(Next(s, events[0]), events[1..]);
    }
  }

  /** A search asked where there is no neighbour waits for ever. */
  lemma CutOffWaits(s: Network, n: nat, file: CString, events: seq<Event>)
    requires Initial(s) && n < |s.nodes| && !HasNeighbour(s.nodes[n].slots)
    requires Enabled(s, Ask(n, file)) && Run(Next(s, Ask(n, file)), events)
    ensures !Quiet(After(Next(s, Ask(n, file)), events))
  {
    CutOffStays(Next(s, Ask(n, file)), events, n);
  }
}
