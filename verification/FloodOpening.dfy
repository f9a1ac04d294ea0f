/** How a search begins, under either policy: somebody asks, and one of the requests is delivered. */
module FloodOpening {
  import opened Basics
  import opened Wire
  import opened SearchRules
  import opened Sending
  import opened Flood
  import opened FloodLaws
  import opened FloodPolicies

  lemma LinksNext(s: Network, e: Event)
    requires WellFormed(s) && Enabled(s, e)
    ensures LinksOf(Next(s, e).nodes) == LinksOf(s.nodes)
  {
    NodesGrow(s, e);
    hide Next;
  }

  // ----- A village: one member has the file, and is asked for it by another -----

  const FILE: CString := [102]

  /** The asker m and the holder of the file have addresses of their own. */
  function Member(links: seq<seq<int>>, m: nat, holder: nat, i: nat): Node
    requires i < |links|
  {
    Node(Endpoint(if i == m then [65] else if i == holder then [66] else [67], [49]), links[i],
         if i == holder then {FILE} else {}, [], [], map[])
  }

  function Village(links: seq<seq<int>>, m: nat, holder: nat): (s: Network)
    ensures |s.nodes| == |links| && forall i :: 0 <= i < |links| ==> s.nodes[i] == Member(links, m, holder, i)
  {
    Network(seq(|links|, i requires 0 <= i < |links| => Member(links, m, holder, i)), [], {}, {})
  }

  function TheRequest(): SearchRequest {
    SearchRequest(Endpoint([65], [49]), FILE, DEFAULT_TTL, [])
  }

  /** The neighbours of a node other than `source`, as recipients. */
  function Targets(links: seq<seq<int>>, n: nat, source: int): (to: seq<nat>)
    requires IsGraph(links) && n < |links|
    ensures to == Wanted(links[n], source) && |to| <= MAX_NEIGHBOURS
    ensures forall r :: r in to <==> r in links[n] && r != NO_SOCKET && r != source
    ensures forall r :: r in to ==> r < |links|
  {
    WantedAreChosen(links[n], source);
    WantedNotMore(links[n], source);
    var to := Wanted(links[n], source);
    assert forall i :: 0 <= i < |to| ==> to[i] in to;
    to
  }

  function Everyone(links: seq<seq<int>>, m: nat): (to: seq<nat>)
    requires IsGraph(links) && m < |links|
  {
    Targets(links, m, NO_SOCKET)
  }

  /** The village with one node's queue replaced. */
  function Queue(links: seq<seq<int>>, m: nat, holder: nat, i: nat, pending: seq<Pending>): seq<Node>
    requires i < |links|
  {
    Village(links, m, holder).nodes[i := Member(links, m, holder, i).(pending := pending)]
  }

  function Asking(links: seq<seq<int>>, m: nat, holder: nat): Network
    requires m < |links|
  {
    Network(Queue(links, m, holder, m, [LocalSearch(FILE)]), [], {}, {})
  }

  function Asked(links: seq<seq<int>>, m: nat, holder: nat): Network
    requires IsGraph(links) && m < |links|
  {
    Network(Village(links, m, holder).nodes, Requests(m, Everyone(links, m), TheRequest()), {}, {Inquiry(m, FILE)})
  }

  /** The k-th request has reached the holder. */
  function Reached(links: seq<seq<int>>, m: nat, holder: nat, k: nat): Network
    requires IsGraph(links) && m < |links| && holder < |links| && k < |Everyone(links, m)|
  {
    Network(Queue(links, m, holder, holder, [RemoteSearch(m, TheRequest())]),
            Without(Asked(links, m, holder).wire, k), {}, {Inquiry(m, FILE)})
  }

  function TheFinding(): Finding {
    Finding([65], FILE, Endpoint([66], [49]))
  }

  lemma VillageIsInitial(links: seq<seq<int>>, m: nat, holder: nat)
    ensures Initial(Village(links, m, holder)) && LinksOf(Village(links, m, holder).nodes) == links
  {
  }

  /** The step is one of both policies. */
  predicate CommonStep(s: Network, e: Event, s': Network) {
    && WellFormed(s) && Enabled(s, e) && Next(s, e) == s'
    && AsksEveryone(s, e) && !ServesRemote(s, e) && !e.Tick?
  }

  lemma AskIt(links: seq<seq<int>>, m: nat, holder: nat)
    requires m < |links|
    ensures CommonStep(Village(links, m, holder), Ask(m, FILE), Asking(links, m, holder))
  {
    assert [] + [LocalSearch(FILE)] == [LocalSearch(FILE)];
  }

  lemma CommonIsIntended(s: Network, e: Event, s': Network, lifetime: nat)
    requires CommonStep(s, e, s')
    ensures WellFormed(s) && Enabled(s, e) && AsIntended(s, e, lifetime) && Next(s, e) == s'
  {
  }

  /** A node that does not have the file asks all its neighbours. */
  lemma FreshAsk(s: Network, n: nat, file: CString, to: seq<nat>)
    requires n < |s.nodes| && s.nodes[n].pending == [LocalSearch(file)] && file !in s.nodes[n].files
    requires to == Wanted(s.nodes[n].slots, NO_SOCKET) && |to| <= MAX_NEIGHBOURS && forall r :: r in to ==> r < |s.nodes|
    requires HasNeighbour(s.nodes[n].slots) && WellFormed(s)
    ensures CommonStep(s, Serve(n, false, false, to, s.nodes[n].log),
                       Network(s.nodes[n := s.nodes[n].(pending := [])],
                               s.wire + Requests(n, to, SearchRequest(s.nodes[n].self, file, DEFAULT_TTL, [])),
                               s.found, s.asked + {Inquiry(n, file)}))
  {
    var e := Serve(n, false, false, to, s.nodes[n].log);
    assert s.nodes[n].pending[1..] == [];
    assert s.found + Discovers(s.nodes[n], e) == s.found;
    hide Wanted, HasNeighbour;
  }

  lemma AskingIs(links: seq<seq<int>>, m: nat, holder: nat)
    requires IsGraph(links) && m < |links| && holder < |links| && m != holder && holder in links[m]
    ensures var s := Asking(links, m, holder);
            && |s.nodes| == |links| && WellFormed(s) && s.nodes[m].pending == [LocalSearch(FILE)] && s.nodes[m].log == []
            && s.nodes[m].files == {} && s.nodes[m].slots == links[m] && HasNeighbour(links[m])
            && SearchRequest(s.nodes[m].self, FILE, DEFAULT_TTL, []) == TheRequest()
            && Asked(links, m, holder) ==
                 Network(s.nodes[m := s.nodes[m].(pending := [])], s.wire + Requests(m, Everyone(links, m), TheRequest()),
                         s.found, s.asked + {Inquiry(m, FILE)})
  {
    var s := Asking(links, m, holder);
    assert s.nodes[m := s.nodes[m].(pending := [])] == Village(links, m, holder).nodes;
    hide Everyone;
    assert s.wire + Requests(m, Everyone(links, m), TheRequest()) == Requests(m, Everyone(links, m), TheRequest());
  }

  lemma SendIt(links: seq<seq<int>>, m: nat, holder: nat)
    requires IsGraph(links) && m < |links| && holder < |links| && m != holder && holder in links[m]
    ensures CommonStep(Asking(links, m, holder), Serve(m, false, false, Everyone(links, m), []), Asked(links, m, holder))
  {
    var s, to := Asking(links, m, holder), Everyone(links, m);
    AskingIs(links, m, holder);
    assert |to| <= MAX_NEIGHBOURS && (forall r :: r in to ==> r < |links|) && to == Wanted(links[m], NO_SOCKET);
    assert FILE !in s.nodes[m].files;
    hide *;
    FreshAsk(s, m, FILE, to);
  }

  lemma ArriveIt(links: seq<seq<int>>, m: nat, holder: nat, k: nat)
    requires IsGraph(links) && m < |links| && holder < |links| && k < |Everyone(links, m)| && Everyone(links, m)[k] == holder
    ensures CommonStep(Asked(links, m, holder), Arrive(k), Reached(links, m, holder, k))
  {
    assert [] + [RemoteSearch(m, TheRequest())] == [RemoteSearch(m, TheRequest())];
  }
}
