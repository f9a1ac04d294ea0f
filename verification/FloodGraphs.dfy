/** On which neighbour graphs the documented flood keeps everything it finds. */
module FloodGraphs {
  import opened Basics
  import opened Wire
  import opened SearchRules
  import opened Sending
  import opened Flood
  import opened FloodLaws
  import opened FloodConservation
  import opened FloodPolicies
  import opened FloodOpening
  import Membership

  /**
   * Who can be asked by a neighbour, and serves requests at all, has another neighbour to pass them to: no
   * node has one that asks it for its only neighbour.
   */
  predicate NoLeaf(links: seq<seq<int>>) {
    forall m, n :: 0 <= m < |links| && 0 <= n < |links| && n in links[m] && HasNeighbour(links[n]) ==>
      HasOther(links[n], m)
  }

  predicate HasOther(slots: seq<int>, m: int) {
    exists k :: k in slots && k != NO_SOCKET && k != m
  }

  lemma NobodyElse(slots: seq<int>, m: int)
    ensures Wanted(slots, m) == [] <==> !HasOther(slots, m)
  {
    WantedAreChosen(slots, m);
    if HasOther(slots, m) {
      var k :| k in slots && k != NO_SOCKET && k != m;
      assert k in Wanted(slots, m);
    }
    if Wanted(slots, m) != [] {
      var k := Wanted(slots, m)[0];
      assert k in Wanted(slots, m) && Chosen(k, m);
    }
  }

  // ----- Graphs without leaves keep everything -----

  lemma NeverStops(s: Network, e: Event, lifetime: nat)
    requires WellFormed(s) && Enabled(s, e) && AsIntended(s, e, lifetime) && AlongLinks(s)
    requires NoLeaf(LinksOf(s.nodes))
    ensures !Stops(s, e)
  {
    if ServesRemote(s, e) {
      var front := s.nodes[e.n].pending[0];
      assert front in s.nodes[e.n].pending && LinkPending(s.nodes)(e.n, front);
      if e.answer {
        assert e.to[0] in e.to;
      } else {
        assert e.n in LinksOf(s.nodes)[front.src];
        NobodyElse(s.nodes[e.n].slots, front.src);
      }
    }
  }

  lemma {:induction false} KeepsWhatItFinds(s: Network, events: seq<Event>, lifetime: nat)
    requires IntendedRun(s, events, lifetime) && AlongLinks(s) && Conserved(s) && NoLeaf(LinksOf(s.nodes))
    ensures Run(s, events) && Conserved(After(s, events))
    decreases |events|
  {
    IntendedRunsAreRuns(s, events, lifetime);
    if events != [] {
      NeverStops(s, events[0], lifetime);
      RelaysToNeighbours(s, events[0], lifetime, iset{});
      AlongLinksNext(s, events[0]);
      ConservedNext(s, events[0]);
      LinksNext(s, events[0]);
      hide Next, Enabled, AsIntended, Conserved, AlongLinks, NoLeaf, LinksOf, Stops;
      KeepsWhatItFinds(Next(s, events[0]), events[1..], lifetime);
    }
  }

  // ----- A leaf loses what it finds -----

  /** Requests that list nobody carry nothing. */
  ghost predicate Barren(s: Network) {
    && (forall fl :: fl in s.wire ==> fl.Request? && fl.req.found == [])
    && (forall i :: 0 <= i < |s.nodes| ==> s.nodes[i].pending == [] && s.nodes[i].index == map[])
  }

  lemma BarrenIsDead(s: Network, x: Finding)
    requires Barren(s)
    ensures !Live(s, x)
  {
  }

  /** The leaf has found the file and had nobody to tell. */
  function Lost(links: seq<seq<int>>, m: nat, leaf: nat, k: nat, lifetime: nat): Network
    requires IsGraph(links) && m < |links| && leaf < |links| && k < |Everyone(links, m)|
  {
    var s := Reached(links, m, leaf, k);
    s.(nodes := Village(links, m, leaf).nodes[leaf := Member(links, m, leaf, leaf).(log := TheEntry(lifetime))],
       found := {TheFinding()})
  }

  function TheEntry(lifetime: nat): seq<LogEntry> {
    [LogEntry(lifetime, TheRequest().source, FILE)]
  }

  ghost predicate IntendedStep(s: Network, e: Event, s': Network, lifetime: nat) {
    WellFormed(s) && Enabled(s, e) && AsIntended(s, e, lifetime) && Next(s, e) == s'
  }

  lemma LoseIt(links: seq<seq<int>>, m: nat, leaf: nat, k: nat, lifetime: nat)
    requires IsGraph(links) && m < |links| && leaf < |links| && m != leaf && !HasOther(links[leaf], m) && HasNeighbour(links[leaf])
    requires k < |Everyone(links, m)| && Everyone(links, m)[k] == leaf
    ensures IntendedStep(Reached(links, m, leaf, k), Serve(leaf, false, true, [], TheEntry(lifetime)),
                         Lost(links, m, leaf, k, lifetime), lifetime)
    ensures WellFormed(Lost(links, m, leaf, k, lifetime))
  {
    var s, e := Reached(links, m, leaf, k), Serve(leaf, false, true, [], TheEntry(lifetime));
    NobodyElse(links[leaf], m);
    assert s.nodes[leaf].pending[1..] == [];
    assert s.wire + Emits(s.nodes[leaf], e) == s.wire;
    assert {} + Discovers(s.nodes[leaf], e) == {TheFinding()};
    assert [] + TheEntry(lifetime) == TheEntry(lifetime);
  }

  lemma LostIsDead(links: seq<seq<int>>, m: nat, leaf: nat, k: nat, lifetime: nat)
    requires IsGraph(links) && m < |links| && leaf < |links| && k < |Everyone(links, m)|
    ensures !Conserved(Lost(links, m, leaf, k, lifetime))
  {
    BarrenIsDead(Lost(links, m, leaf, k, lifetime), TheFinding());
  }

  /** A neighbour of the leaf asks for the file of the leaf. */
  lemma LeafLoses(links: seq<seq<int>>, m: nat, leaf: nat, lifetime: nat)
    requires IsGraph(links) && m < |links| && leaf < |links| && leaf in links[m] && HasNeighbour(links[leaf]) && !HasOther(links[leaf], m)
    ensures Initial(Village(links, m, leaf)) && LinksOf(Village(links, m, leaf).nodes) == links
    ensures exists events :: IntendedRun(Village(links, m, leaf), events, lifetime) && Run(Village(links, m, leaf), events) &&
              !Conserved(After(Village(links, m, leaf), events))
  {
    var to := Everyone(links, m);
    var k :| 0 <= k < |to| && to[k] == leaf;
    VillageIsInitial(links, m, leaf);
    hide *;
    AskIt(links, m, leaf);
    SendIt(links, m, leaf);
    ArriveIt(links, m, leaf, k);
    LoseIt(links, m, leaf, k, lifetime);
    LostIsDead(links, m, leaf, k, lifetime);
    FourSteps(Village(links, m, leaf), Asking(links, m, leaf), Asked(links, m, leaf), Reached(links, m, leaf, k),
              Lost(links, m, leaf, k, lifetime),
              Ask(m, FILE), Serve(m, false, false, to, []), Arrive(k), Serve(leaf, false, true, [], TheEntry(lifetime)),
              lifetime);
  }

  lemma FourSteps(s0: Network, s1: Network, s2: Network, s3: Network, s4: Network,
                  e1: Event, e2: Event, e3: Event, e4: Event, lifetime: nat)
    requires CommonStep(s0, e1, s1) && CommonStep(s1, e2, s2) && CommonStep(s2, e3, s3)
    requires IntendedStep(s3, e4, s4, lifetime) && WellFormed(s4)
    ensures exists events :: IntendedRun(s0, events, lifetime) && Run(s0, events) && After(s0, events) == s4
  {
    assert AsIntended(s0, e1, lifetime) && AsIntended(s1, e2, lifetime) && AsIntended(s2, e3, lifetime);
    hide Next, AsIntended, Enabled, WellFormed, AsksEveryone, ServesRemote;
    assert Run(s4, []) && IntendedRun(s4, [], lifetime) && After(s4, []) == s4;
    hide Run, IntendedRun, After;
    OneMoreIntended(s3, e4, [], lifetime);
    OneMoreIntended(s2, e3, [e4] + [], lifetime);
    OneMoreIntended(s1, e2, [e3] + ([e4] + []), lifetime);
    OneMoreIntended(s0, e1, [e2] + ([e3] + ([e4] + [])), lifetime);
  }

  /**
   * The documented flood, exactly: from every initial network with these neighbours, whatever files there
   * are, whoever asks and however the run goes, everything found is still carried or listed for the asker
   * - if and only if every node that is asked and serves has a second neighbour to relay to.
   */
  lemma ConservationExact(links: seq<seq<int>>, lifetime: nat)
    requires IsGraph(links)
    ensures (forall s, events :: Initial(s) && LinksOf(s.nodes) == links && IntendedRun(s, events, lifetime) ==>
               Run(s, events) && Conserved(After(s, events)))
            <==> NoLeaf(links)
  {
    if NoLeaf(links) {
      forall s, events | Initial(s) && LinksOf(s.nodes) == links && IntendedRun(s, events, lifetime)
        ensures Run(s, events) && Conserved(After(s, events))
      {
        InitialConserves(s);
        KeepsWhatItFinds(s, events, lifetime);
      }
    } else {
      var m, n :| 0 <= m < |links| && 0 <= n < |links| && n in links[m] && HasNeighbour(links[n]) &&
        !HasOther(links[n], m);
      LeafLoses(links, m, n, lifetime);
    }
  }

  lemma InitialConserves(s: Network)
    requires Initial(s)
    ensures WellFormed(s) && AlongLinks(s) && Conserved(s)
  {
  }

  /** The neighbours of a node. */
  function NeighboursOf(slots: seq<int>): set<int> {
    set r | r in slots && r != NO_SOCKET
  }

  /** Where neighbours know each other, that is: no node has exactly one neighbour. */
  lemma NoLeafExact(links: seq<seq<int>>)
    requires IsGraph(links)
    requires Symmetric(links)
    ensures NoLeaf(links) <==> forall n :: 0 <= n < |links| ==> |NeighboursOf(links[n])| != 1
  {
    forall n | 0 <= n < |links|
      ensures |NeighboursOf(links[n])| == 1 <==> exists m :: 0 <= m < |links| && n in links[m] && !HasOther(links[n], m)
    {
      var all := NeighboursOf(links[n]);
      if |all| == 1 {
        var m :| m in all;
        assert |all - {m}| == 0;
        forall k | k in links[n] && k != NO_SOCKET
          ensures k == m
        {
          assert k in all && k !in all - {m};
        }
        assert n in links[m] && !HasOther(links[n], m);
      }
      if exists m :: 0 <= m < |links| && n in links[m] && !HasOther(links[n], m) {
        var m :| 0 <= m < |links| && n in links[m] && !HasOther(links[n], m);
        assert all == {m};
      }
    }
  }

  /**
   * What MIN_NEIGHBOURS is for: a table has at least so many neighbours exactly when it has one, and each
   * of them has another beside it to relay its requests to.
   */
  lemma EnoughNeighboursExact(slots: seq<int>)
    ensures |NeighboursOf(slots)| >= Membership.MIN_NEIGHBOURS <==>
            HasNeighbour(slots) && forall m :: m in NeighboursOf(slots) ==> HasOther(slots, m)
  {
    var all := NeighboursOf(slots);
    if HasNeighbour(slots) {
      var r :| r in slots && r != NO_SOCKET;
      assert r in all;
      if HasOther(slots, r) {
        var k :| k in slots && k != NO_SOCKET && k != r;
        assert k in all - {r} && |all| == |all - {r}| + 1;
      }
    }
    if |all| >= 2 {
      forall m | m in all
        ensures HasOther(slots, m)
      {
        assert |all - {m}| > 0;
        var k :| k in all - {m};
        assert k in slots && k != NO_SOCKET && k != m;
      }
      var r :| r in all;
      assert r in slots && r != NO_SOCKET;
    }
  }
}
