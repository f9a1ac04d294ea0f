/** What joining keeps: different neighbours, and advertised lists without repetitions. */
module JoinLaws {
  import opened Basics
  import opened Wire
  import opened SearchRules
  import opened Membership
  import opened Crawls
  import opened Overlay

  // ----- Nobody twice -----

  /** Only neighbours, who are not dialled, occur twice. */
  predicate NoStrangerTwice(known: seq<Endpoint>, peers: set<Endpoint>) {
    forall i, j :: 0 <= i < j < |known| && known[i] == known[j] ==> known[i] in peers
  }

  lemma {:induction false} StrangersAre(known: seq<Endpoint>, peers: set<Endpoint>)
    ensures forall e :: e in Strangers(known, peers) <==> e in known && e !in peers
  {
    if known != [] {
      var n := |known| - 1;
      StrangersAre(known[..n], peers);
      assert known == known[..n] + [known[n]];
    }
  }

  /** A round dials nobody twice if and only if no endpoint that is no neighbour is known twice. */
  lemma {:induction false} DialsExact(known: seq<Endpoint>, peers: set<Endpoint>)
    ensures Distinct(Strangers(known, peers)) <==> NoStrangerTwice(known, peers)
  {
    if known != [] {
      var n := |known| - 1;
      var before, last := known[..n], known[n];
      DialsExact(before, peers);
      StrangersAre(before, peers);
      StrangersSnoc(before, last, peers);
      assert known == before + [last];
      AppendDistinctExact(Strangers(before, peers), last);
      hide Strangers, Distinct;
      TwiceSnoc(before, last, peers);
      assert Strangers(before, peers) + [] == Strangers(before, peers);
    }
  }

  lemma AppendDistinctExact(list: seq<Endpoint>, e: Endpoint)
    ensures Distinct(list + [e]) <==> Distinct(list) && e !in list
  {
    AppendDistinct(list, e);
  }

  lemma TwiceSnoc(known: seq<Endpoint>, last: Endpoint, peers: set<Endpoint>)
    ensures NoStrangerTwice(known + [last], peers) <==> NoStrangerTwice(known, peers) && (last in known ==> last in peers)
  {
    var all := known + [last];
    if NoStrangerTwice(all, peers) {
      forall i, j | 0 <= i < j < |known| && known[i] == known[j]
        ensures known[i] in peers
      {
        assert all[i] == all[j];
      }
      if last in known {
        var i :| 0 <= i < |known| && known[i] == last;
        assert all[i] == all[|known|];
      }
    }
  }

  predicate AnswersTo(awaiting: seq<int>, replies: seq<Reply>) {
    |replies| == |awaiting| && forall i :: 0 <= i < |replies| ==> replies[i].sock == awaiting[i]
  }

  /** Replies of which the i-th and the j-th say yes. */
  function TwoYes(awaiting: seq<int>, i: nat, j: nat): (r: seq<Reply>)
    ensures AnswersTo(awaiting, r) && forall k :: 0 <= k < |r| ==> r[k].yes == (k == i || k == j)
  {
    seq(|awaiting|, k requires 0 <= k < |awaiting| => Reply(awaiting[k], k == i || k == j, []))
  }

  lemma {:induction false} TwoYesCount(replies: seq<Reply>, i: nat, j: nat)
    requires forall k :: 0 <= k < |replies| && replies[k].yes ==> k == i || k == j
    ensures YesCount(replies) <= (if i < |replies| then 1 else 0) + if j < |replies| && i != j then 1 else 0
  {
    if replies != [] {
      TwoYesCount(replies[..|replies| - 1], i, j);
    }
  }

  /** Those say yes and are admitted when there is room for them. */
  lemma TwoYesAdmitted(t: seq<Slot>, awaiting: seq<int>, i: nat, j: nat)
    requires Consistent(t) && Distinct(awaiting) && (forall s :: s in awaiting ==> s != NO_SOCKET && s !in Sockets(t))
    requires i < |awaiting| && j < |awaiting| && Room(t) >= (if i == j then 1 else 2)
    ensures var u := Absorb(t, TwoYes(awaiting, i, j));
            Sockets(t) <= Sockets(u) && awaiting[i] in Sockets(u) && awaiting[j] in Sockets(u)
  {
    var replies := TwoYes(awaiting, i, j);
    RepliesTo(t, awaiting, replies);
    TwoYesCount(replies, i, j);
    AbsorbExact(t, replies);
    AllAdmitted(replies, Room(t));
    assert replies[i] in replies && replies[j] in replies;
    assert awaiting[i] in YesSockets(replies) && awaiting[j] in YesSockets(replies);
  }

  /** With room for one, at most one is admitted. */
  lemma {:induction false} OneAdmitted(replies: seq<Reply>, room: nat)
    requires room <= 1
    ensures YesCount(replies) == 0 ==> YesSockets(replies) == {}
    ensures room == 0 ==> Admitted(replies, room) == {}
    ensures forall a, b :: a in Admitted(replies, room) && b in Admitted(replies, room) ==> a == b
  {
    if replies != [] {
      var n := |replies| - 1;
      OneAdmitted(replies[..n], room);
      AdmittedAreYes(replies[..n], room);
      assert replies == replies[..n] + [replies[n]];
    }
  }

  /** What is awaited is new, and no endpoint is awaited twice, as far as there is room for two. */
  predicate AwaitsDifferent(t: seq<Slot>, awaiting: seq<int>, peer: map<int, Endpoint>)
    requires (forall s :: s in awaiting ==> s in peer) && forall s :: s in Sockets(t) ==> s in peer
  {
    && (Room(t) >= 1 ==> forall a, b :: a in Sockets(t) && b in awaiting ==> peer[a] != peer[b])
    && (Room(t) >= 2 ==> forall a, b :: a in awaiting && b in awaiting && peer[a] == peer[b] ==> a == b)
  }

  /**
   * Whatever the replies to a round of joins, the neighbours stay different endpoints - if and only if the
   * endpoints awaited are different from each other and from the neighbours, as far as there is room for
   * them.
   */
  lemma NeighboursDifferExact(t: seq<Slot>, awaiting: seq<int>, peer: map<int, Endpoint>)
    requires Consistent(t) && Distinct(awaiting) && (forall s :: s in awaiting ==> s != NO_SOCKET && s !in Sockets(t))
    requires (forall s :: s in awaiting ==> s in peer) && forall s :: s in Sockets(t) ==> s in peer
    requires DistinctPeers(Sockets(t), peer)
    ensures (forall replies :: AnswersTo(awaiting, replies) ==> DistinctPeers(Sockets(Absorb(t, replies)), peer)) <==>
            AwaitsDifferent(t, awaiting, peer)
  {
    hide Consistent, Sockets, Absorb, Room, Admitted, AnswersTo, TwoYes, Distinct;
    if AwaitsDifferent(t, awaiting, peer) {
      forall replies | AnswersTo(awaiting, replies)
        ensures DistinctPeers(Sockets(Absorb(t, replies)), peer)
      {
        DifferentStay(t, awaiting, replies, peer);
      }
    } else if a, b :| Room(t) >= 1 && a in Sockets(t) && b in awaiting && peer[a] == peer[b] {
      var i :| 0 <= i < |awaiting| && awaiting[i] == b;
      TwoYesAdmitted(t, awaiting, i, i);
      assert !DistinctPeers(Sockets(Absorb(t, TwoYes(awaiting, i, i))), peer);
    } else {
      var a, b :| a in awaiting && b in awaiting && peer[a] == peer[b] && a != b;
      var i :| 0 <= i < |awaiting| && awaiting[i] == a;
      var j :| 0 <= j < |awaiting| && awaiting[j] == b;
      TwoYesAdmitted(t, awaiting, i, j);
      assert !DistinctPeers(Sockets(Absorb(t, TwoYes(awaiting, i, j))), peer);
    }
  }

  lemma DifferentStay(t: seq<Slot>, awaiting: seq<int>, replies: seq<Reply>, peer: map<int, Endpoint>)
    requires Consistent(t) && Distinct(awaiting) && (forall s :: s in awaiting ==> s != NO_SOCKET && s !in Sockets(t))
    requires (forall s :: s in awaiting ==> s in peer) && forall s :: s in Sockets(t) ==> s in peer
    requires DistinctPeers(Sockets(t), peer) && AwaitsDifferent(t, awaiting, peer) && AnswersTo(awaiting, replies)
    ensures DistinctPeers(Sockets(Absorb(t, replies)), peer)
  {
    RepliesTo(t, awaiting, replies);
    AbsorbExact(t, replies);
    AdmittedAreYes(replies, Room(t));
    if Room(t) <= 1 {
      OneAdmitted(replies, Room(t));
    }
    var joined := Admitted(replies, Room(t));
    forall a | a in joined
      ensures a in awaiting
    {
      var r :| r in replies && r.sock == a;
    }
    hide Consistent, Sockets, Absorb, Room, Admitted, Distinct;
  }

  /**
   * An endpoint advertised twice is dialled twice, since the table is only consulted before the replies
   * are in; with room for two it can become a neighbour twice.
   */
  lemma TwiceAdvertisedTwiceJoined(t: seq<Slot>, e: Endpoint, sock: int, sock': int, peer: map<int, Endpoint>)
    requires Consistent(t) && Room(t) >= 2 && (forall s :: s in Sockets(t) ==> s in peer) && DistinctPeers(Sockets(t), peer)
    requires e !in EndpointsOf(Sockets(t), peer)
    requires sock != sock' && NO_SOCKET !in {sock, sock'} && Sockets(t) !! {sock, sock'}
    requires sock in peer && sock' in peer && peer[sock] == e == peer[sock']
    ensures Strangers([e, e], EndpointsOf(Sockets(t), peer)) == [e, e]
    ensures exists replies :: AnswersTo([sock, sock'], replies) && !DistinctPeers(Sockets(Absorb(t, replies)), peer)
  {
    StrangersSnoc([], e, EndpointsOf(Sockets(t), peer));
    StrangersSnoc([e], e, EndpointsOf(Sockets(t), peer));
    assert [e] + [e] == [e, e] && [] + [e] == [e];
    hide Absorb, Consistent, Room, Sockets, AnswersTo, EndpointsOf;
    NeighboursDifferExact(t, [sock, sock'], peer);
    assert sock in [sock, sock'] && sock' in [sock, sock'];
  }

  /**
   * A contact that advertises nobody accepts the rescue it is then asked for, unless MAX_NEIGHBOURS others
   * have joined it in between.
   */
  lemma LonelyContactAccepts(t: seq<Slot>, open: set<int>, peer: map<int, Endpoint>, others: seq<Reply>, coin: bool)
    requires |t| == MAX_NEIGHBOURS && Consistent(t) && Connected(t, open, peer) && Advertised(t, peer) == []
    requires DistinctSockets(others) && forall r :: r in others ==> r.sock !in Sockets(t)
    ensures Accepts(Absorb(t, others), true, coin) <==> YesCount(others) < MAX_NEIGHBOURS
  {
    AdvertisedCount(t, open, peer);
    AbsorbExact(t, others);
  }

  // ----- Advertising nobody twice -----

  /** The endpoint a slot is advertised as. */
  function EndpointOf(sock: int, port: CString, peer: map<int, Endpoint>): Endpoint
    requires sock in peer
  {
    Endpoint(peer[sock].ip, port)
  }

  /** The endpoints of those who joined: each had said yes while there was room. */
  function JoinedAs(replies: seq<Reply>, room: nat, peer: map<int, Endpoint>): seq<Endpoint>
    requires forall r :: r in replies ==> r.sock in peer
  {
    if replies == [] then []
    else
      var n := |replies| - 1;
      assert replies == replies[..n] + [replies[n]];
      JoinedAs(replies[..n], room, peer) +
      if replies[n].yes && YesCount(replies[..n]) < room then [EndpointOf(replies[n].sock, replies[n].port, peer)] else []
  }

  lemma {:induction false} AdvertisedConcat(t: seq<Slot>, u: seq<Slot>, peer: map<int, Endpoint>)
    ensures Advertised(t + u, peer) == Advertised(t, peer) + Advertised(u, peer)
  {
    if u == [] {
      assert t + u == t;
    } else {
      var n := |u| - 1;
      assert (t + u)[..|t| + n] == t + u[..n];
      AdvertisedConcat(t, u[..n], peer);
    }
  }

  function AdvertisedSlot(s: Slot, peer: map<int, Endpoint>): seq<Endpoint> {
    if Taken(s) && s.sock >= 0 && s.sock in peer && s.port.Some? then [Endpoint(peer[s.sock].ip, s.port.value)] else []
  }

  lemma {:induction false} AdvertisedAround(before: seq<Slot>, s: Slot, after: seq<Slot>, peer: map<int, Endpoint>)
    ensures Advertised(before + [s] + after, peer) ==
            Advertised(before, peer) + AdvertisedSlot(s, peer) + Advertised(after, peer)
  {
    AdvertisedConcat(before + [s], after, peer);
    assert (before + [s])[..|before|] == before;
  }

  lemma {:induction false} AddSplits(t: seq<Slot>, sock: int, port: CString)
    requires FirstFree(t) < |t|
    ensures var i := FirstFree(t);
            && t == t[..i] + [t[i]] + t[i + 1..] && !Taken(t[i])
            && Add(t, sock, port) == t[..i] + [Slot(sock, Some(port))] + t[i + 1..]
  {
  }

  lemma MultisetsAround(a: seq<Endpoint>, x: Endpoint, b: seq<Endpoint>)
    ensures multiset(a + [x] + b) == multiset(a + [] + b) + multiset{x}
  {
    assert a + [] == a;
    assert multiset(a + [x] + b) == multiset(a) + multiset{x} + multiset(b);
    assert multiset(a + b) == multiset(a) + multiset(b);
  }

  /** One neighbour more is one endpoint more, somewhere in the list. */
  lemma {:induction false} AdvertisedAdd(t: seq<Slot>, sock: int, port: CString, peer: map<int, Endpoint>)
    requires sock >= 0 && sock in peer
    ensures multiset(Advertised(Add(t, sock, port), peer)) ==
            multiset(Advertised(t, peer)) +
            if FirstFree(t) < |t| then multiset{EndpointOf(sock, port, peer)} else multiset{}
  {
    var i := FirstFree(t);
    if i < |t| {
      var before, was, after, slot := t[..i], t[i], t[i + 1..], Slot(sock, Some(port));
      AddSplits(t, sock, port);
      assert AdvertisedSlot(was, peer) == [] && AdvertisedSlot(slot, peer) == [EndpointOf(sock, port, peer)];
      hide *;
      AdvertisedAround(before, was, after, peer);
      AdvertisedAround(before, slot, after, peer);
      MultisetsAround(Advertised(before, peer), EndpointOf(sock, port, peer), Advertised(after, peer));
    } else {
      hide Advertised;
      assert Add(t, sock, port) == t;
    }
  }

  lemma {:induction false} AdvertisedAbsorb(t: seq<Slot>, replies: seq<Reply>, peer: map<int, Endpoint>)
    requires Consistent(t) && DistinctSockets(replies)
    requires forall r :: r in replies ==> r.sock >= 0 && r.sock in peer && r.sock !in Sockets(t)
    ensures multiset(Advertised(Absorb(t, replies), peer)) ==
            multiset(Advertised(t, peer)) + multiset(JoinedAs(replies, Room(t), peer))
    decreases |replies|
  {
    if replies != [] {
      var n := |replies| - 1;
      var before, last := replies[..n], replies[n];
      assert replies == before + [last];
      var u := Absorb(t, before);
      AdvertisedAbsorb(t, before, peer);
      AbsorbExact(t, before);
      OccupiedBound(t);
      OccupiedBound(u);
      AdvertisedAdd(u, last.sock, last.port, peer);
      hide Advertised, Consistent, Sockets, Occupied;
    }
  }

  /** Whether a list repeats itself depends on its elements only. */
  lemma DistinctIs(s: seq<Endpoint>)
    ensures Distinct(s) <==> forall e :: multiset(s)[e] <= 1
  {
    if Distinct(s) {
      forall e
        ensures multiset(s)[e] <= 1
      {
        DistinctOnce(s, e);
      }
    }
    if forall e :: multiset(s)[e] <= 1 {
      forall i, j | 0 <= i < j < |s|
        ensures s[i] != s[j]
      {
        assert s == s[..j] + s[j..];
        assert s[i] in s[..j] && s[j] in s[j..];
        assert multiset(s) == multiset(s[..j]) + multiset(s[j..]);
        assert multiset(s)[s[i]] <= 1;
      }
    }
  }

  lemma SameDistinct(a: seq<Endpoint>, b: seq<Endpoint>)
    requires multiset(a) == multiset(b)
    ensures Distinct(a) <==> Distinct(b)
  {
    hide Distinct;
    DistinctIs(a);
    DistinctIs(b);
  }

  lemma {:induction false} DistinctOnce(s: seq<Endpoint>, e: Endpoint)
    requires Distinct(s)
    ensures multiset(s)[e] <= 1
  {
    if s != [] {
      var n := |s| - 1;
      DistinctOnce(s[..n], e);
      assert s == s[..n] + [s[n]];
      forall i | 0 <= i < n
        ensures s[..n][i] != s[n]
      {
      }
      assert multiset(s) == multiset(s[..n]) + multiset{s[n]};
    }
  }

  /**
   * A servent goes on advertising nobody twice, after a round of joins, if and only if those who joined are
   * different endpoints, by their contact ports, and none of them was advertised before. Nothing in the
   * code sees to it: neighbours are told apart by what `getpeername` says.
   */
  lemma AdvertisedDistinctExact(t: seq<Slot>, replies: seq<Reply>, peer: map<int, Endpoint>)
    requires Consistent(t) && DistinctSockets(replies)
    requires forall r :: r in replies ==> r.sock >= 0 && r.sock in peer && r.sock !in Sockets(t)
    ensures Distinct(Advertised(Absorb(t, replies), peer)) <==>
            Distinct(Advertised(t, peer) + JoinedAs(replies, Room(t), peer))
  {
    AdvertisedAbsorb(t, replies, peer);
    assert multiset(Advertised(t, peer) + JoinedAs(replies, Room(t), peer)) ==
           multiset(Advertised(t, peer)) + multiset(JoinedAs(replies, Room(t), peer));
    hide *;
    SameDistinct(Advertised(Absorb(t, replies), peer), Advertised(t, peer) + JoinedAs(replies, Room(t), peer));
  }

  /** The same after accepting a join, which is not checked against the neighbours at all. */
  lemma {:induction false} AcceptedDistinctExact(t: seq<Slot>, sock: int, port: CString, peer: map<int, Endpoint>)
    requires sock >= 0 && sock in peer && Occupied(t) < |t|
    ensures Distinct(Advertised(Add(t, sock, port), peer)) <==>
            Distinct(Advertised(t, peer)) && EndpointOf(sock, port, peer) !in Advertised(t, peer)
  {
    OccupiedBound(t);
    AdvertisedAdd(t, sock, port, peer);
    var list, e := Advertised(t, peer), EndpointOf(sock, port, peer);
    assert multiset(list + [e]) == multiset(list) + multiset{e};
    hide *;
    SameDistinct(Advertised(Add(t, sock, port), peer), list + [e]);
    AppendDistinctExact(list, e);
  }
}
