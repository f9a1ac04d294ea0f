/** When an asker running the code hears from all of its neighbours. */
module FloodNeighbours {
  import opened Basics
  import opened Wire
  import opened SearchRules
  import opened Sending
  import opened Flood
  import opened FloodLaws
  import opened FloodConservation
  import opened FloodTermination
  import opened FloodPolicies
  import opened FloodOpening
  import opened FloodDelivery
  import opened FloodProgress

  /** r, a neighbour of the asker at another address, had the file from the start. */
  predicate Offers(nodes: seq<Node>, q: Inquiry, r: nat) {
    && q.asker < |nodes| && r < |nodes| && r in nodes[q.asker].slots
    && q.file in nodes[r].files && nodes[r].self.ip != nodes[q.asker].self.ip
  }

  function Offer(nodes: seq<Node>, q: Inquiry, r: nat): Finding
    requires Offers(nodes, q, r)
  {
    Finding(nodes[q.asker].self.ip, q.file, nodes[r].self)
  }

  /** Each asker lists all neighbours that had what it asked for. */
  ghost predicate OffersListed(nodes: seq<Node>, s: Network) {
    forall q, r: nat :: q in s.asked && Offers(nodes, q, r) ==> Indexed(s, Offer(nodes, q, r))
  }

  /** Every node that can be asked is sure to be heard by whom it is asked by. */
  ghost predicate AllHear(links: seq<seq<int>>, memory: iset<int>) {
    forall a, n :: 0 <= a < |links| && 0 <= n < |links| && n in links[a] ==> Hears(links[n], memory, a)
  }

  // ----- Whoever is asked answers -----

  /** The request is on its way to r, or the answer on its way back. */
  ghost predicate Due(nodes: seq<Node>, s: Network, q: Inquiry, r: nat)
    requires Offers(nodes, q, r) && |s.nodes| == |nodes|
  {
    OnItsWay(s, r, nodes[q.asker].self, q.file) || Coming(s, Offer(nodes, q, r))
  }

  ghost predicate AllDue(nodes: seq<Node>, s: Network) {
    |s.nodes| == |nodes| && forall q, r: nat :: q in s.asked && Offers(nodes, q, r) ==> Due(nodes, s, q, r)
  }

  lemma HandledDelivers(nodes: seq<Node>, s: Network, e: Event, memory: iset<int>, q: Inquiry, r: nat)
    requires WellFormed(s) && Enabled(s, e) && AsWritten(s, e, memory) && OneHop(s)
    requires Grows(nodes, s.nodes) && AllHear(LinksOf(nodes), memory)
    requires Offers(nodes, q, r) && Handles(s, e, r, nodes[q.asker].self, q.file)
    ensures Delivers(s, e, Offer(nodes, q, r))
  {
    var slots := s.nodes[r].slots;
    assert Hears(LinksOf(nodes)[r], memory, q.asker);
    var source, uninit :| Garbage(slots, memory, source, uninit) && e.to == Delivered(slots, Recipients(slots, source, uninit));
    assert q.asker in e.to;
  }

  lemma DueNext(nodes: seq<Node>, s: Network, e: Event, memory: iset<int>, q: Inquiry, r: nat)
    requires WellFormed(s) && Enabled(s, e) && AsWritten(s, e, memory) && OneHop(s)
    requires Grows(nodes, s.nodes) && AllHear(LinksOf(nodes), memory)
    requires Offers(nodes, q, r) && Due(nodes, s, q, r)
    ensures |Next(s, e).nodes| == |nodes| && Due(nodes, Next(s, e), q, r)
  {
    var x := Offer(nodes, q, r);
    ComingExact(s, e, memory, x);
    if OnItsWay(s, r, nodes[q.asker].self, q.file) {
      StaysOnItsWay(s, e, r, nodes[q.asker].self, q.file);
      if Handles(s, e, r, nodes[q.asker].self, q.file) {
        HandledDelivers(nodes, s, e, memory, q, r);
      }
    }
    NodesGrow(s, e);
  }

  /** A new search is on its way to every neighbour. */
  lemma NewlyDue(nodes: seq<Node>, s: Network, e: Event, q: Inquiry, r: nat)
    requires WellFormed(s) && Enabled(s, e) && AsksEveryone(s, e) && Grows(nodes, s.nodes)
    requires q in Next(s, e).asked && q !in s.asked && Offers(nodes, q, r)
    ensures r < |Next(s, e).nodes| && OnItsWay(Next(s, e), r, nodes[q.asker].self, q.file)
  {
    HistoryNext(s, e);
    var node := s.nodes[e.n];
    WantedAreChosen(node.slots, NO_SOCKET);
    var req := SearchRequest(node.self, q.file, DEFAULT_TTL, []);
    assert Emits(node, e) == Requests(e.n, e.to, req);
    AskedIsOnItsWay(s, e, r, req);
  }

  lemma AllDueNext(nodes: seq<Node>, s: Network, e: Event, memory: iset<int>)
    requires WellFormed(s) && Enabled(s, e) && AsWritten(s, e, memory) && OneHop(s)
    requires Grows(nodes, s.nodes) && AllHear(LinksOf(nodes), memory) && AllDue(nodes, s)
    ensures AllDue(nodes, Next(s, e))
  {
    NodesGrow(s, e);
    hide Next, Enabled, OneHop, AllHear, OnItsWay, Coming;
    forall q, r: nat | q in Next(s, e).asked && Offers(nodes, q, r)
      ensures Due(nodes, Next(s, e), q, r)
    {
      if q in s.asked {
        DueNext(nodes, s, e, memory, q, r);
      } else {
        NewlyDue(nodes, s, e, q, r);
      }
    }
  }

  lemma {:induction false} AllDueAlways(nodes: seq<Node>, s: Network, events: seq<Event>, memory: iset<int>)
    requires WrittenRun(s, events, memory) && OneHop(s)
    requires Grows(nodes, s.nodes) && AllHear(LinksOf(nodes), memory) && AllDue(nodes, s)
    ensures Run(s, events) && AllDue(nodes, After(s, events))
    decreases |events|
  {
    WrittenRunsAreRuns(s, events, memory);
    if events != [] {
      NodesGrow(s, events[0]);
      AllDueNext(nodes, s, events[0], memory);
      OneHopNext(s, events[0], memory);
      hide Next, Enabled, AsWritten, OneHop, AllHear, AllDue;
      AllDueAlways(nodes, Next(s, events[0]), events[1..], memory);
    }
  }

  lemma QuietLists(nodes: seq<Node>, s: Network)
    requires Quiet(s) && AllDue(nodes, s)
    ensures OffersListed(nodes, s)
  {
    forall q, r: nat | q in s.asked && Offers(nodes, q, r)
      ensures Indexed(s, Offer(nodes, q, r))
    {
      assert Due(nodes, s, q, r);
    }
  }

  lemma HearingSuffices(s: Network, events: seq<Event>, memory: iset<int>)
    requires Initial(s) && WrittenRun(s, events, memory) && AllHear(LinksOf(s.nodes), memory)
    requires Run(s, events) && Quiet(After(s, events))
    ensures OffersListed(s.nodes, After(s, events))
  {
    InitialIsOneHop(s);
    assert AllDue(s.nodes, s);
    hide Next, Enabled, OneHop, AllHear, AllDue;
    AllDueAlways(s.nodes, s, events, memory);
    QuietLists(s.nodes, After(s, events));
  }

  // ----- Whoever is not sure to be heard may not be -----

  /** The holder has answered the recipients `to`. */
  function Answered(links: seq<seq<int>>, m: nat, holder: nat, k: nat, to: seq<nat>): Network
    requires IsGraph(links) && m < |links| && holder < |links| && k < |Everyone(links, m)|
  {
    Network(Village(links, m, holder).nodes,
            Without(Asked(links, m, holder).wire, k) + Answers(holder, to, FILE, [TheFinding().machine]),
            {TheFinding()}, {Inquiry(m, FILE)})
  }

  ghost predicate WrittenStep(s: Network, e: Event, s': Network, memory: iset<int>) {
    WellFormed(s) && Enabled(s, e) && AsWritten(s, e, memory) && Next(s, e) == s'
  }

  lemma AnswerIt(links: seq<seq<int>>, m: nat, holder: nat, k: nat, to: seq<nat>, memory: iset<int>)
    requires IsGraph(links) && m < |links| && holder < |links| && m != holder && k < |Everyone(links, m)|
    requires HasNeighbour(links[holder]) && CodeRecipients(links[holder], memory, to) && |to| <= MAX_NEIGHBOURS && forall r :: r in to ==> r < |links|
    ensures WrittenStep(Reached(links, m, holder, k), Serve(holder, true, true, to, []),
                        Answered(links, m, holder, k, to), memory)
  {
    var s, e := Reached(links, m, holder, k), Serve(holder, true, true, to, []);
    hide CodeRecipients;
    assert s.nodes[holder].pending[1..] == [];
    assert Next(s, e).nodes == Village(links, m, holder).nodes;
    assert Listed(TheRequest(), s.nodes[holder].self, true) == [TheFinding().machine];
    assert {} + Discovers(s.nodes[holder], e) == {TheFinding()};
  }

  ghost function IdleFlight(n: nat): Flight -> bool {
    (fl: Flight) => fl.Request? ==> fl.dst != n
  }

  ghost function IdlePending(n: nat): (nat, Pending) -> bool {
    (i: nat, p: Pending) => p.RemoteSearch? && i != n
  }

  /** Nobody has a search of his own to send out, and n has nothing left to do. */
  ghost predicate Idle(s: Network, n: nat) {
    Everywhere(s, IdleFlight(n), IdlePending(n))
  }

  lemma IdleNext(s: Network, e: Event, memory: iset<int>, n: nat)
    requires WellFormed(s) && Enabled(s, e) && AsWritten(s, e, memory) && OneHop(s) && Idle(s, n) && !e.Ask?
    ensures Idle(Next(s, e), n) && !(e.Serve? && e.n == n)
  {
    if e.Serve? {
      var front := s.nodes[e.n].pending[0];
      assert front in s.nodes[e.n].pending && IdlePending(n)(e.n, front);
      OneHopEmitted(s, e, memory);
    }
    hide Next, AsWritten, OneHop;
    EverywhereNext(s, e, IdleFlight(n), IdlePending(n));
  }

  /** The only node of this name delivers nothing more. */
  lemma {:induction false} IdleDelivers(s: Network, events: seq<Event>, memory: iset<int>, n: nat, x: Finding)
    requires WrittenRun(s, events, memory) && Run(s, events) && Asks(events) == 0 && OneHop(s) && Idle(s, n)
    requires forall i :: 0 <= i < |s.nodes| && s.nodes[i].self == x.machine ==> i == n
    ensures !SomeDelivers(s, events, x) && s.asked <= After(s, events).asked
    decreases |events|
  {
    if events != [] {
      IdleNext(s, events[0], memory, n);
      OneHopNext(s, events[0], memory);
      NodesGrow(s, events[0]);
      HistoryNext(s, events[0]);
      assert !Delivers(s, events[0], x);
      hide Next, Enabled, AsWritten, OneHop, Idle, Delivers;
      IdleDelivers(Next(s, events[0]), events[1..], memory, n, x);
    }
  }

  lemma AnsweredIsIdle(links: seq<seq<int>>, m: nat, holder: nat, k: nat, to: seq<nat>)
    requires IsGraph(links) && m < |links| && holder < |links| && m != holder && Simple(links[m])
    requires k < |Everyone(links, m)| && Everyone(links, m)[k] == holder
    ensures Idle(Answered(links, m, holder, k, to), holder)
  {
    var s, all := Answered(links, m, holder, k, to), Asked(links, m, holder).wire;
    OneRequestEach(links[m], k);
    forall fl | fl in Without(all, k)
      ensures fl in all && fl.dst != holder
    {
      var i :| 0 <= i < |Without(all, k)| && Without(all, k)[i] == fl;
      assert fl == all[if i < k then i else i + 1];
    }
  }

  lemma WithoutIsFewer<T>(s: seq<T>, k: nat)
    requires k < |s|
    ensures forall x :: x in Without(s, k) ==> x in s
  {
  }

  lemma AnsweredIsReached(links: seq<seq<int>>, m: nat, holder: nat, k: nat, to: seq<nat>)
    requires IsGraph(links) && m < |links| && holder < |links| && m != holder
    requires k < |Everyone(links, m)| && m !in to && forall r :: r in to ==> r < |links|
    ensures var s := Answered(links, m, holder, k, to);
            && WellFormed(s) && OneHop(s) && AlongLinks(s) && LinksOf(s.nodes) == links && NobodyCutOff(s)
            && !Coming(s, TheFinding())
  {
    WithoutIsFewer(Asked(links, m, holder).wire, k);
    hide Without, Everyone;
    assert forall fl :: fl in Asked(links, m, holder).wire ==> fl.Request? && fl.dst in Everyone(links, m);
    assert LinksOf(Answered(links, m, holder, k, to).nodes) == links;
  }

  /** A table without repetitions yields recipients without repetitions. */
  lemma OneRequestEach(socks: seq<int>, k: nat)
    requires Simple(socks) && k < |Wanted(socks, NO_SOCKET)|
    ensures forall i :: 0 <= i < |Wanted(socks, NO_SOCKET)| && i != k ==>
              Wanted(socks, NO_SOCKET)[i] != Wanted(socks, NO_SOCKET)[k]
  {
    WantedSimple(socks);
  }

  lemma {:induction false} WantedSimple(socks: seq<int>)
    requires Simple(socks)
    ensures forall i, j :: 0 <= i < j < |Wanted(socks, NO_SOCKET)| ==>
              Wanted(socks, NO_SOCKET)[i] != Wanted(socks, NO_SOCKET)[j]
  {
    if socks != [] {
      var n := |socks| - 1;
      WantedSimple(socks[..n]);
      WantedAreChosen(socks[..n], NO_SOCKET);
      var before := Wanted(socks[..n], NO_SOCKET);
      forall i | 0 <= i < |before|
        ensures before[i] != socks[n]
      {
        var r := before[i];
        assert r in before && r in socks[..n] && Chosen(r, NO_SOCKET);
        var k :| 0 <= k < n && socks[k] == r;
      }
    }
  }

  lemma FourThenRest(s0: Network, s1: Network, s2: Network, s3: Network, s4: Network,
                     e1: Event, e2: Event, e3: Event, e4: Event, rest: seq<Event>, memory: iset<int>)
    requires CommonStep(s0, e1, s1) && CommonStep(s1, e2, s2) && CommonStep(s2, e3, s3)
    requires WrittenStep(s3, e4, s4, memory) && WrittenRun(s4, rest, memory) && Run(s4, rest)
    ensures exists events :: WrittenRun(s0, events, memory) && Run(s0, events) && After(s0, events) == After(s4, rest)
  {
    assert AsWritten(s0, e1, memory) && AsWritten(s1, e2, memory) && AsWritten(s2, e3, memory);
    hide Next, AsWritten, Enabled, WellFormed, AsksEveryone, ServesRemote, Run, WrittenRun, After;
    OneMoreWritten(s3, e4, rest, memory);
    OneMoreWritten(s2, e3, [e4] + rest, memory);
    OneMoreWritten(s1, e2, [e3] + ([e4] + rest), memory);
    OneMoreWritten(s0, e1, [e2] + ([e3] + ([e4] + rest)), memory);
  }

  /** Once the holder's answer has gone past the asker, no continuation brings it back. */
  lemma PastTheAsker(links: seq<seq<int>>, m: nat, holder: nat, k: nat, to: seq<nat>, memory: iset<int>)
    returns (rest: seq<Event>)
    requires Symmetric(links) && IsGraph(links) && m < |links| && holder < |links| && m != holder && Simple(links[m])
    requires k < |Everyone(links, m)| && Everyone(links, m)[k] == holder && m !in to && forall r :: r in to ==> r < |links|
    requires HoldsSomething(memory)
    ensures var s := Answered(links, m, holder, k, to);
            && WrittenRun(s, rest, memory) && Run(s, rest) && Quiet(After(s, rest))
            && Inquiry(m, FILE) in After(s, rest).asked && !Indexed(After(s, rest), TheFinding())
  {
    var s := Answered(links, m, holder, k, to);
    AnsweredIsIdle(links, m, holder, k, to);
    AnsweredIsReached(links, m, holder, k, to);
    assert Linked(s.nodes);
    hide WellFormed, OneHop, AlongLinks, Linked, NobodyCutOff, Symmetric, Idle, Quiet, Indexed, Run, WrittenRun, After, Asks, SomeDelivers;
    WrittenComesToRest(s, memory);
    rest :| WrittenRun(s, rest, memory) && Run(s, rest) && Asks(rest) == 0 && Quiet(After(s, rest));
    IdleDelivers(s, rest, memory, holder, TheFinding());
    ComingAlways(s, rest, memory, TheFinding());
  }

  /** A neighbour that is not sure to be heard has a run in which it is not. */
  lemma DeafnessLoses(links: seq<seq<int>>, m: nat, holder: nat, memory: iset<int>)
    requires Symmetric(links)
    requires IsGraph(links) && m < |links| && holder < |links| && holder in links[m] && Simple(links[m])
    requires !Hears(links[holder], memory, m) && HoldsSomething(memory)
    ensures Initial(Village(links, m, holder)) && LinksOf(Village(links, m, holder).nodes) == links
    ensures exists events ::
              && WrittenRun(Village(links, m, holder), events, memory) && Run(Village(links, m, holder), events)
              && Quiet(After(Village(links, m, holder), events))
              && !OffersListed(Village(links, m, holder).nodes, After(Village(links, m, holder), events))
  {
    var to := DeafTargets(links, m, holder, memory);
    assert holder in Everyone(links, m) && m in links[holder] && HasNeighbour(links[holder]);
    var k :| 0 <= k < |Everyone(links, m)| && Everyone(links, m)[k] == holder;
    var s0, s4 := Village(links, m, holder), Answered(links, m, holder, k, to);
    VillageIsInitial(links, m, holder);
    VillageOffers(links, m, holder);
    hide *;
    AskIt(links, m, holder);
    SendIt(links, m, holder);
    ArriveIt(links, m, holder, k);
    AnswerIt(links, m, holder, k, to, memory);
    var rest := PastTheAsker(links, m, holder, k, to, memory);
    FourThenRest(s0, Asking(links, m, holder), Asked(links, m, holder), Reached(links, m, holder, k), s4,
                 Ask(m, FILE), Serve(m, false, false, Everyone(links, m), []), Arrive(k), Serve(holder, true, true, to, []),
                 rest, memory);
    NotListed(s0.nodes, After(s4, rest), Inquiry(m, FILE), holder);
  }

  lemma NotListed(nodes: seq<Node>, s: Network, q: Inquiry, r: nat)
    requires q in s.asked && Offers(nodes, q, r) && !Indexed(s, Offer(nodes, q, r))
    ensures !OffersListed(nodes, s)
  {
  }

  lemma VillageOffers(links: seq<seq<int>>, m: nat, holder: nat)
    requires IsGraph(links) && m < |links| && holder < |links| && holder in links[m]
    ensures m != holder
    ensures Offers(Village(links, m, holder).nodes, Inquiry(m, FILE), holder)
    ensures Offer(Village(links, m, holder).nodes, Inquiry(m, FILE), holder) == TheFinding()
  {
  }

  /** Recipients that leave out m. */
  lemma DeafTargets(links: seq<seq<int>>, m: nat, holder: nat, memory: iset<int>) returns (to: seq<nat>)
    requires IsGraph(links) && m < |links| && holder < |links| && !Hears(links[holder], memory, m)
    ensures CodeRecipients(links[holder], memory, to) && |to| <= MAX_NEIGHBOURS && m !in to
    ensures forall r :: r in to ==> r < |links|
  {
    var slots := links[holder];
    var source, uninit :| Garbage(slots, memory, source, uninit) && m !in Delivered(slots, Recipients(slots, source, uninit));
    var all := Delivered(slots, Recipients(slots, source, uninit));
    WantedNotMore(slots, source);
    assert forall i :: 0 <= i < |all| ==> all[i] in all;
    to := all;
  }

  /**
   * The code, exactly: from every initial network with these neighbours, in every run that has fallen
   * quiet, each asker lists all its neighbours that had the file - if and only if every node that can be
   * asked is sure to be heard by whom it is asked by.
   */
  lemma HearingExact(links: seq<seq<int>>, memory: iset<int>)
    requires IsGraph(links) && Symmetric(links) && HoldsSomething(memory)
    requires forall n :: 0 <= n < |links| ==> Simple(links[n])
    ensures (forall s, events :: Initial(s) && LinksOf(s.nodes) == links && WrittenRun(s, events, memory) ==>
               Run(s, events) && (Quiet(After(s, events)) ==> OffersListed(s.nodes, After(s, events))))
            <==> AllHear(links, memory)
  {
    hide Initial, Quiet, OffersListed, Hears, HoldsSomething, Simple, IsGraph, Symmetric;
    if AllHear(links, memory) {
      forall s, events | Initial(s) && LinksOf(s.nodes) == links && WrittenRun(s, events, memory)
        ensures Run(s, events) && (Quiet(After(s, events)) ==> OffersListed(s.nodes, After(s, events)))
      {
        WrittenRunsAreRuns(s, events, memory);
        if Quiet(After(s, events)) {
          HearingSuffices(s, events, memory);
        }
      }
    } else {
      var m, n :| 0 <= m < |links| && 0 <= n < |links| && n in links[m] && !Hears(links[n], memory, m);
      DeafnessLoses(links, m, n, memory);
    }
  }

  /**
   * In the tables: where neighbours know each other and unset memory never happens to hold a socket in
   * use, all are heard exactly when no table has a free slot in front of a taken one.
   */
  lemma GaplessExact(links: seq<seq<int>>, memory: iset<int>)
    requires IsGraph(links)
    requires Symmetric(links)
    requires forall n :: 0 <= n < |links| ==> Simple(links[n]) && Harmless(links[n], memory)
    ensures AllHear(links, memory) <==> forall n :: 0 <= n < |links| ==> ChosenFirst(links[n], NO_SOCKET)
  {
    hide Hears, ChosenFirst, Simple, Harmless;
    forall n | 0 <= n < |links|
      ensures ChosenFirst(links[n], NO_SOCKET) <==> forall a :: 0 <= a < |links| && n in links[a] ==> Hears(links[n], memory, a)
    {
      AllHearExact(links[n], memory);
    }
  }

  /** A chain of three: the middle one once had a neighbour more, and its table has a gap in front of the asker. */
  const GAP: seq<seq<int>> := [[1], [2, NO_SOCKET, 0], [1]]

  lemma GapIsGraph(memory: iset<int>)
    requires memory == iset{NO_SOCKET}
    ensures IsGraph(GAP) && HoldsSomething(memory)
    ensures Symmetric(GAP)
    ensures forall n :: 0 <= n < |GAP| ==> Simple(GAP[n]) && Harmless(GAP[n], memory)
    ensures !ChosenFirst(GAP[1], NO_SOCKET)
  {
    assert NO_SOCKET in memory;
    assert Chosen(GAP[1][2], NO_SOCKET) && !Chosen(GAP[1][1], NO_SOCKET);
  }

  /** There the holder's answer can miss the asker, although it is its neighbour. */
  lemma AnswerGoesAstray(memory: iset<int>)
    requires memory == iset{NO_SOCKET}
    ensures IsGraph(GAP) && !ChosenFirst(GAP[1], NO_SOCKET)
    ensures exists s, events :: Initial(s) && LinksOf(s.nodes) == GAP && WrittenRun(s, events, memory) &&
              Run(s, events) && Quiet(After(s, events)) && !OffersListed(s.nodes, After(s, events))
  {
    GapIsGraph(memory);
    hide *;
    GaplessExact(GAP, memory);
    HearingExact(GAP, memory);
    forall s, events | WrittenRun(s, events, memory)
      ensures Run(s, events)
    {
      WrittenRunsAreRuns(s, events, memory);
    }
  }

  /**
   * If the values unset memory may hold include free slots' and sockets in use, a request's unset source
   * may be any neighbour, and nobody is sure to be heard: only where there are no neighbours at all is no
   * asker let down.
   */
  lemma AnyMemoryHearsNobody(links: seq<seq<int>>, memory: iset<int>)
    requires NO_SOCKET in memory && forall n :: 0 <= n < |links| ==> n in memory
    ensures AllHear(links, memory) <==> forall a, n :: 0 <= a < |links| && 0 <= n < |links| ==> n !in links[a]
  {
    if a, n :| 0 <= a < |links| && 0 <= n < |links| && n in links[a] {
      SourceIsDeaf(links[n], memory, a);
    }
  }

  // ----- Only neighbours are heard -----

  /** x.machine holds the file, and is at the address itself or has a neighbour there. */
  predicate MayTell(nodes: seq<Node>, x: Finding) {
    exists n :: 0 <= n < |nodes| && nodes[n].self == x.machine && x.file in nodes[n].files && NearAddress(nodes, n, x.asker)
  }

  predicate NearAddress(nodes: seq<Node>, n: nat, ip: CString)
    requires n < |nodes|
  {
    nodes[n].self.ip == ip || exists r: nat :: r in nodes[n].slots && r < |nodes| && nodes[r].self.ip == ip
  }

  lemma TellersStay(nodes: seq<Node>, nodes': seq<Node>, x: Finding)
    requires Grows(nodes, nodes') && MayTell(nodes, x)
    ensures MayTell(nodes', x)
  {
    var n :| 0 <= n < |nodes| && nodes[n].self == x.machine && x.file in nodes[n].files && NearAddress(nodes, n, x.asker);
    assert nodes'[n].self == x.machine && NearAddress(nodes', n, x.asker);
  }

  lemma DeliversTells(s: Network, e: Event, memory: iset<int>, x: Finding)
    requires WellFormed(s) && Enabled(s, e) && AsWritten(s, e, memory) && Delivers(s, e, x)
    ensures MayTell(s.nodes, x)
  {
    if s.nodes[e.n].pending[0].RemoteSearch? {
      var r :| r in e.to && s.nodes[r].self.ip == x.asker;
      assert r in s.nodes[e.n].slots;
    }
    assert NearAddress(s.nodes, e.n, x.asker);
  }

  lemma {:induction false} TellersOnly(s: Network, events: seq<Event>, memory: iset<int>, x: Finding)
    requires WrittenRun(s, events, memory) && Run(s, events) && SomeDelivers(s, events, x)
    ensures MayTell(After(s, events).nodes, x)
    decreases |events|
  {
    NodesGrow(s, events[0]);
    if Delivers(s, events[0], x) {
      DeliversTells(s, events[0], memory, x);
      NodesGrowAlways(s, events);
      TellersStay(s.nodes, After(s, events).nodes, x);
    } else {
      hide Next, Enabled, AsWritten, MayTell, Delivers;
      TellersOnly(Next(s, events[0]), events[1..], memory, x);
    }
  }

  /** Whoever is listed at an address in a quiet run of the code holds the file and has a neighbour there. */
  lemma OnlyNeighboursListed(s: Network, events: seq<Event>, memory: iset<int>, x: Finding)
    requires Initial(s) && WrittenRun(s, events, memory) && Run(s, events) && Quiet(After(s, events))
    requires Indexed(After(s, events), x)
    ensures MayTell(After(s, events).nodes, x)
  {
    hide MayTell, Initial, Quiet, Indexed, SomeDelivers;
    ListedExact(s, events, memory, x);
    TellersOnly(s, events, memory, x);
  }
}
