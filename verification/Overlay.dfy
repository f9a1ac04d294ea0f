/** One servent joining, accepting and leaving: its neighbour table, and the recursive search for neighbours. */
module Overlay {
  import opened Basics
  import opened Wire
  import opened SearchRules
  import opened Membership
  import opened Crawls

  /**
   * The operating system and the other servents. Sockets are the lowest unused numbers; what is connected
   * where, and what the others answer, is free, except that a servent never advertises more than
   * MAX_NEIGHBOURS neighbours (`Overlay.ComputeNeighbours`). `tidy` networks advertise each endpoint once
   * and not the advertiser itself.
   */
  class Net {
    const tidy: bool
    var open: set<int>
    var peer: map<int, Endpoint>     // what `getpeername` says
    var asked: seq<Endpoint>         // CMSG_NEIGHBOURS attempted
    var joins: seq<JoinSent>         // CMSG_JOIN sent
    var dialled: seq<Endpoint>       // connections attempted
    var answered: seq<Endpoint>      // ... and answered
    var closed: seq<int>             // sockets closed

    constructor (tidy: bool)
      ensures open == {} && peer == map[] && asked == [] && joins == [] && this.tidy == tidy
      ensures dialled == [] && answered == [] && closed == []
    {
      this.tidy, open, peer, asked, joins := tidy, {}, map[], [], [];
      dialled, answered, closed := [], [], [];
    }

    /** `connect_to` */
    method Connect(to: Endpoint) returns (sock: int)
      modifies this`open, this`peer, this`dialled, this`answered
      ensures dialled == old(dialled) + [to]
      ensures answered == old(answered) + if sock != NO_SOCKET then [to] else []
      ensures sock == NO_SOCKET ==> open == old(open) && peer == old(peer)
      ensures sock != NO_SOCKET ==>
                0 <= sock && sock !in old(open) && open == old(open) + {sock} && peer == old(peer)[sock := to]
    {
      dialled := dialled + [to];
      var refused: bool := *;
      if refused {
        return NO_SOCKET;
      }
      var s: nat := 0;
      while s in open
        decreases open - Below(s)
      {
        assert s in open - Below(s) && s !in open - Below(s + 1);
        s := s + 1;
      }
      open := open + {s};
      peer := peer[s := to];
      answered := answered + [to];
      sock := s;
    }

    method Close(sock: int)
      modifies this`open, this`closed
      ensures open == (set s | s in old(open) && s != sock) && closed == old(closed) + [sock]
    {
      closed := closed + [sock];
      open := set s | s in open && s != sock;
    }

    /** SMSG_NEIGHBOURS, or something else (None), from the servent at `from`. */
    method ReadNeighbours(from: Endpoint) returns (list: Option<seq<Endpoint>>)
      ensures list.Some? ==> |list.value| <= MAX_NEIGHBOURS
      ensures list.Some? && tidy ==> Distinct(list.value + [from])
    {
      list := *;
      if list.Some? && (|list.value| > MAX_NEIGHBOURS || !Distinct(list.value + [from])) {
        list := None;
      }
    }

    /** SMSG_JOIN */
    method ReadReply(sock: int) returns (r: Reply)
      ensures r.sock == sock
    {
      var yes: bool, port: CString := *, *;
      r := Reply(sock, yes, port);
    }
  }

  /** A join request and its rescue flag. */
  datatype JoinSent = JoinSent(sock: int, rescue: byte)

  function JoinsOn(socks: seq<int>, rescue: byte): (r: seq<JoinSent>)
    ensures |r| == |socks| && forall i :: 0 <= i < |r| ==> r[i] == JoinSent(socks[i], rescue)
  {
    seq(|socks|, i requires 0 <= i < |socks| => JoinSent(socks[i], rescue))
  }

  ghost function Below(n: nat): (r: set<int>)
    ensures forall i :: i in r ==> i < n
  {
    if n == 0 then {} else Below(n - 1) + {n - 1}
  }

  predicate Distinct<T(==)>(s: seq<T>) {
    forall i, j :: 0 <= i < j < |s| ==> s[i] != s[j]
  }

  /** The sockets of the table, once each, are open. */
  ghost predicate Connected(t: seq<Slot>, open: set<int>, peer: map<int, Endpoint>) {
    forall s :: s in Sockets(t) ==> s >= 0 && s in open && s in peer
  }

  ghost function EndpointsOf(socks: set<int>, peer: map<int, Endpoint>): set<Endpoint> {
    set s | s in socks && s in peer :: peer[s]
  }

  /** The endpoints not among the neighbours. */
  function Strangers(list: seq<Endpoint>, peers: set<Endpoint>): seq<Endpoint> {
    if list == [] then []
    else
      var n := |list| - 1;
      Strangers(list[..n], peers) + if list[n] in peers then [] else [list[n]]
  }

  /** Whom one round of `join_network_through` dials: the contact, then all who are not neighbours yet. */
  function RoundDials(contact: Endpoint, known: seq<Endpoint>, peers: set<Endpoint>): seq<Endpoint> {
    [contact] + Strangers(known, peers)
  }

  lemma Dials(dialled: seq<Endpoint>, contact: Endpoint, known: seq<Endpoint>, peers: set<Endpoint>)
    ensures dialled + [contact] + Strangers(known, peers) == dialled + RoundDials(contact, known, peers)
  {
  }

  lemma ContactDialled(dialled: seq<Endpoint>, contact: Endpoint, known: seq<Endpoint>, peers: set<Endpoint>)
    ensures dialled + [contact] <= dialled + RoundDials(contact, known, peers)
  {
  }

  lemma StrangersSnoc(list: seq<Endpoint>, e: Endpoint, peers: set<Endpoint>)
    ensures Strangers(list + [e], peers) == Strangers(list, peers) + if e in peers then [] else [e]
  {
    assert (list + [e])[..|list|] == list;
  }

  lemma AskingContact(contact: Endpoint, list: seq<Endpoint>, peers: set<Endpoint>)
    ensures |list| < MAX_NEIGHBOURS ==> ContactToo(contact, list) == [contact]
    ensures |list| >= MAX_NEIGHBOURS ==> ContactToo(contact, list) == []
    ensures Strangers(ContactToo(contact, list), peers) ==
            if |list| < MAX_NEIGHBOURS && contact !in peers then [contact] else []
  {
  }

  lemma StrangersContact(known: seq<Endpoint>, contact: Endpoint, list: seq<Endpoint>, peers: set<Endpoint>)
    ensures Strangers(known + ContactToo(contact, list), peers) ==
            Strangers(known, peers) + Strangers(ContactToo(contact, list), peers)
  {
    StrangersSnoc(known, contact, peers);
    AskingContact(contact, list, peers);
    assert known + [] == known;
  }

  /** The sockets of those who said no. */
  function Refused(replies: seq<Reply>): seq<int> {
    if replies == [] then []
    else
      var n := |replies| - 1;
      Refused(replies[..n]) + if replies[n].yes then [] else [replies[n].sock]
  }

  lemma RefusedSnoc(before: seq<int>, replies: seq<Reply>, last: Reply)
    ensures before + Refused(replies + [last]) == before + Refused(replies) + if last.yes then [] else [last.sock]
  {
    assert (replies + [last])[..|replies|] == replies;
  }

  lemma NothingKnown(peers: set<Endpoint>)
    ensures Others([], []) == [] && Strangers([], peers) == []
  {
  }

  /** A round that fetched no list changes nothing. */
  lemma FruitlessRound(t: seq<Slot>, contact: Endpoint, peers: set<Endpoint>)
    ensures var round := Round(None, [], []);
            RoundOf(round, contact, t) && Absorb(t, round.replies) == t && RoundDials(contact, round.known, peers) == [contact]
  {
  }

  /** What the departures among the first `n` slots leave of the table. */
  function Remaining(t: seq<Slot>, leaving: seq<bool>, n: nat): (r: seq<Slot>)
    requires |leaving| == |t|
    ensures |r| == |t|
  {
    seq(|t|, i requires 0 <= i < |t| => if i < n && leaving[i] then FREE else t[i])
  }

  /** The first slot with a neighbour that is not silent. */
  function FirstHeard(t: seq<Slot>, silent: set<int>): (i: nat)
    ensures i <= |t|
    ensures i < |t| ==> Taken(t[i]) && t[i].sock !in silent
    ensures forall j :: 0 <= j < i ==> !Taken(t[j]) || t[j].sock in silent
  {
    if t == [] || (Taken(t[0]) && t[0].sock !in silent) then 0 else 1 + FirstHeard(t[1..], silent)
  }

  /** No two of the sockets lead to the same endpoint. */
  ghost predicate DistinctPeers(socks: set<int>, peer: map<int, Endpoint>) {
    forall a, b :: a in socks && b in socks && a in peer && b in peer && peer[a] == peer[b] ==> a == b
  }

  lemma FewerPeers(few: set<int>, many: set<int>, peer: map<int, Endpoint>)
    requires few <= many
    ensures DistinctPeers(many, peer) ==> DistinctPeers(few, peer)
  {
  }

  /** Sockets that were open stay open and connected as they were. */
  ghost predicate KeepsOpen(open: set<int>, peer: map<int, Endpoint>, open': set<int>, peer': map<int, Endpoint>) {
    forall s :: s in open ==> s in open' && (s in peer ==> s in peer' && peer'[s] == peer[s])
  }

  /** The endpoints a servent advertises: the address of each neighbour, with its contact port. */
  function Advertised(t: seq<Slot>, peer: map<int, Endpoint>): seq<Endpoint> {
    if t == [] then []
    else
      var n := |t| - 1;
      Advertised(t[..n], peer) +
      if Taken(t[n]) && t[n].sock >= 0 && t[n].sock in peer && t[n].port.Some?
      then [Endpoint(peer[t[n].sock].ip, t[n].port.value)]
      else []
  }

  lemma {:induction false} AdvertisedCount(t: seq<Slot>, open: set<int>, peer: map<int, Endpoint>)
    requires Connected(t, open, peer) && Consistent(t)
    ensures |Advertised(t, peer)| == Occupied(t)
  {
    if t != [] {
      var n := |t| - 1;
      assert t == t[..n] + [t[n]];
      assert t[n] in t && forall s :: s in t[..n] ==> s in t;
      assert Taken(t[n]) ==> t[n].sock in Sockets(t);
      AdvertisedCount(t[..n], open, peer);
      OccupiedSnoc(t[..n], t[n]);
    }
  }

  lemma {:induction false} OccupiedSnoc(t: seq<Slot>, s: Slot)
    ensures Occupied(t + [s]) == Occupied(t) + if Taken(s) then 1 else 0
  {
    if t == [] {
      assert [s][1..] == [] && [] + [s] == [s];
    } else {
      assert (t + [s])[1..] == t[1..] + [s];
      OccupiedSnoc(t[1..], s);
    }
  }

  lemma JoinsAppend(before: seq<int>, socks: seq<int>, rescue: byte)
    requires before <= socks
    ensures JoinsOn(socks, rescue) == JoinsOn(before, rescue) + JoinsOn(socks[|before|..], rescue)
  {
  }

  lemma AllJoins(joins: seq<JoinSent>, before: seq<int>, socks: seq<int>, rescue: byte)
    requires before <= socks && (rescue != 0 ==> before == [])
    ensures joins + JoinsOn(before, 0) + JoinsOn(socks[|before|..], rescue) == joins + JoinsOn(socks, rescue)
  {
    JoinsAppend(before, socks, rescue);
    SameJoins(before, rescue);
    var a, b := JoinsOn(before, rescue), JoinsOn(socks[|before|..], rescue);
    hide *;
    assert joins + a + b == joins + (a + b);
  }

  lemma SameJoins(socks: seq<int>, rescue: byte)
    requires rescue != 0 ==> socks == []
    ensures JoinsOn(socks, 0) == JoinsOn(socks, rescue)
  {
  }

  lemma AppendDistinct(list: seq<Endpoint>, e: Endpoint)
    ensures Distinct(list + [e]) ==> Distinct(list) && e !in list
  {
    if Distinct(list + [e]) {
      var all := list + [e];
      forall i | 0 <= i < |list|
        ensures list[i] != e
      {
        assert all[i] != all[|list|];
      }
      assert forall i :: 0 <= i < |list| ==> list[i] == all[i];
    }
  }

  /** Replies on distinct new sockets: the table gains some of those sockets and no others. */
  lemma RepliesTo(t: seq<Slot>, awaiting: seq<int>, replies: seq<Reply>)
    requires Consistent(t) && Distinct(awaiting) && (forall s :: s in awaiting ==> s != NO_SOCKET && s !in Sockets(t))
    requires |replies| == |awaiting| && forall i :: 0 <= i < |replies| ==> replies[i].sock == awaiting[i]
    ensures DistinctSockets(replies) && forall r :: r in replies ==> r.sock in awaiting && r.sock !in Sockets(t)
    ensures Sockets(Absorb(t, replies)) <= Sockets(t) + set s | s in awaiting
  {
    hide Absorb, Sockets, Occupied, Consistent;
    forall i | 0 <= i < |replies|
      ensures replies[i].sock in awaiting
    {
      var s := awaiting[i];
      assert s in awaiting;
    }
    AbsorbExact(t, replies);
    AdmittedAreYes(replies, Room(t));
  }

  class Overlay {
    const net: Net
    const neighbours: array<Slot>
    var nbNeighbours: int

    ghost predicate Valid()
      reads this, net, neighbours
    {
      && neighbours.Length == MAX_NEIGHBOURS
      && Consistent(neighbours[..])
      && nbNeighbours == Occupied(neighbours[..])
      && Connected(neighbours[..], net.open, net.peer)
    }

    constructor (net: Net)
      ensures Valid() && this.net == net && nbNeighbours == 0 && fresh(neighbours)
      ensures neighbours[..] == seq(MAX_NEIGHBOURS, _ => FREE)
    {
      this.net := net;
      neighbours := new Slot[MAX_NEIGHBOURS](_ => FREE);
      nbNeighbours := 0;
      new;
      OccupiedBound(neighbours[..]);
    }

    /** `add_neighbour` */
    method AddNeighbour(sock: int, port: CString)
      requires Valid() && sock != NO_SOCKET && sock !in Sockets(neighbours[..])
      requires sock >= 0 && sock in net.open && sock in net.peer
      modifies this`nbNeighbours, neighbours
      ensures Valid() && neighbours[..] == Add(old(neighbours[..]), sock, port)
    {
      AddExact(neighbours[..], sock, port);
      OccupiedBound(neighbours[..]);
      if nbNeighbours == MAX_NEIGHBOURS {
        return;
      }
      var i := 0;
      while i < MAX_NEIGHBOURS
        invariant 0 <= i <= MAX_NEIGHBOURS && neighbours[..] == old(neighbours[..]) && nbNeighbours == old(nbNeighbours)
        invariant forall j :: 0 <= j < i ==> Taken(neighbours[j])
      {
        if neighbours[i].sock == NO_SOCKET {
          assert i == FirstFree(neighbours[..]);
          neighbours[i] := Slot(sock, Some(port));
          nbNeighbours := nbNeighbours + 1;
          assert neighbours[..] == Add(old(neighbours[..]), sock, port);
          return;
        }
        i := i + 1;
      }
    }

    /**
     * `handle_join_request` with the answer it sends. A rescue cannot be refused by a servent that is not
     * saturated; `coin` is the toss that decides otherwise.
     */
    method HandleJoinRequest(sock: int, rescue: byte, port: CString, coin: bool, listenPort: CString)
      returns (answer: bool, reply: Packet)
      requires Valid() && sock >= 0 && sock in net.open && sock in net.peer && sock !in Sockets(neighbours[..])
      modifies this`nbNeighbours, neighbours
      ensures Valid()
      ensures answer <==> Accepts(old(neighbours[..]), rescue == 1, coin)
      ensures answer <==> Occupied(old(neighbours[..])) < 5 && (rescue == 1 || coin)
      ensures reply == if answer then JoinYes(listenPort) else JoinNo(0)
      ensures neighbours[..] == if answer then Add(old(neighbours[..]), sock, port) else old(neighbours[..])
      ensures answer <==> sock in Sockets(neighbours[..])
    {
      OccupiedBound(neighbours[..]);
      if nbNeighbours == MAX_NEIGHBOURS {
        answer := false;
      } else if rescue == 1 {
        answer := true;
      } else {
        answer := coin;
      }
      reply := if answer then JoinYes(listenPort) else JoinNo(0);
      if answer {
        AddExact(neighbours[..], sock, port);
        AddNeighbour(sock, port);
      }
    }

    /** `compute_and_send_neighbours`: at most MAX_NEIGHBOURS endpoints, one for each neighbour. */
    method ComputeNeighbours() returns (list: seq<Endpoint>)
      requires Valid()
      ensures list == Advertised(neighbours[..], net.peer)
      ensures |list| == nbNeighbours <= MAX_NEIGHBOURS
    {
      list := [];
      for i := 0 to MAX_NEIGHBOURS
        invariant list == Advertised(neighbours[..i], net.peer)
      {
        assert neighbours[..i + 1][..i] == neighbours[..i];
        var slot := neighbours[i];
        if slot.sock != NO_SOCKET {
          assert slot in neighbours[..];
          list := list + [Endpoint(net.peer[slot.sock].ip, slot.port.value)];
        }
      }
      assert neighbours[..MAX_NEIGHBOURS] == neighbours[..];
      AdvertisedCount(neighbours[..], net.open, net.peer);
      OccupiedBound(neighbours[..]);
    }

    /** The endpoints of the neighbours. */
    ghost function Peers(): set<Endpoint>
      reads this, net, neighbours
    {
      EndpointsOf(Sockets(neighbours[..]), net.peer)
    }

    /** `ensure_absent_ip` */
    method EnsureAbsent(e: Endpoint) returns (absent: bool)
      requires Valid()
      ensures absent <==> e !in Peers()
      ensures absent <==> forall s :: s in Sockets(neighbours[..]) ==> net.peer[s] != e
    {
      for i := 0 to MAX_NEIGHBOURS
        invariant forall j :: 0 <= j < i && Taken(neighbours[j]) ==>
                    neighbours[j] in neighbours[..] && net.peer[neighbours[j].sock] != e
      {
        var slot := neighbours[i];
        assert slot in neighbours[..];
        if slot.sock != NO_SOCKET && net.peer[slot.sock] == e {
          assert slot.sock in Sockets(neighbours[..]);
          return false;
        }
      }
      return true;
    }

    /** Sockets with a join request under way: open, distinct, and not in the table. */
    ghost predicate Waiting(awaiting: seq<int>)
      reads this, net, neighbours
    {
      && Distinct(awaiting)
      && forall s :: s in awaiting ==> s >= 0 && s in net.open && s in net.peer && s !in Sockets(neighbours[..])
    }

    /** Everything dialled or joined so far, which in a tidy network are different endpoints. */
    ghost function InUse(awaiting: seq<int>): set<int>
      reads this, neighbours
    {
      Sockets(neighbours[..]) + set s | s in awaiting
    }

    /** `join` */
    method Join(e: Endpoint, awaiting: seq<int>, rescue: byte) returns (awaiting': seq<int>)
      requires Valid() && Waiting(awaiting)
      modifies net`open, net`peer, net`joins, net`dialled, net`answered
      ensures old(net.answered) <= net.answered
      ensures Valid() && Waiting(awaiting')
      ensures awaiting' == awaiting ||
              (|awaiting'| == |awaiting| + 1 && awaiting'[..|awaiting|] == awaiting &&
               awaiting'[|awaiting|] !in old(net.open) &&
               awaiting'[|awaiting|] in net.peer && net.peer[awaiting'[|awaiting|]] == e)
      ensures net.joins == old(net.joins) + JoinsOn(awaiting'[|awaiting|..], rescue)
      ensures net.dialled == old(net.dialled) + (if e in old(Peers()) then [] else [e]) && Peers() == old(Peers())
      ensures KeepsOpen(old(net.open), old(net.peer), net.open, net.peer)
      ensures (forall s :: s in awaiting ==> old(net.peer)[s] != e) && DistinctPeers(InUse(awaiting), old(net.peer)) ==>
                DistinctPeers(InUse(awaiting'), net.peer)
    {
      awaiting' := awaiting;
      var absent := EnsureAbsent(e);
      if !absent {
        return;
      }
      var sock := net.Connect(e);
      if sock == NO_SOCKET {
        return;
      }
      net.joins := net.joins + [JoinSent(sock, rescue)];
      awaiting' := awaiting + [sock];
      assert awaiting'[|awaiting|..] == [sock];
    }

    /** One turn of the loop of `handle_join_responses`. */
    method TakeReply(sock: int) returns (reply: Reply)
      requires Valid() && sock >= 0 && sock in net.open && sock in net.peer && sock !in Sockets(neighbours[..])
      modifies this`nbNeighbours, neighbours, net`open, net`closed
      ensures net.closed == old(net.closed) + if reply.yes then [] else [sock]
      ensures Valid() && reply.sock == sock
      ensures neighbours[..] == if reply.yes then Add(old(neighbours[..]), sock, reply.port) else old(neighbours[..])
      ensures Sockets(neighbours[..]) <= Sockets(old(neighbours[..])) + {sock}
      ensures forall s :: s in old(net.open) && s != sock ==> s in net.open
    {
      OccupiedBound(neighbours[..]);
      hide Consistent, Add, Occupied, Sockets;
      reply := net.ReadReply(sock);
      AddExact(neighbours[..], sock, reply.port);
      if reply.yes {
        AddNeighbour(sock, reply.port);
      } else {
        net.Close(sock);
      }
    }

    /** The loop of `handle_join_responses`. */
    method TakeReplies(awaiting: seq<int>) returns (replies: seq<Reply>)
      requires Valid() && Waiting(awaiting)
      modifies this`nbNeighbours, neighbours, net`open, net`closed
      ensures net.closed == old(net.closed) + Refused(replies)
      ensures Valid()
      ensures |replies| == |awaiting| && forall i :: 0 <= i < |replies| ==> replies[i].sock == awaiting[i]
      ensures neighbours[..] == Absorb(old(neighbours[..]), replies)
    {
      replies := [];
      ghost var t := neighbours[..];
      forall j | 0 <= j < |awaiting|
        ensures awaiting[j] in net.open && awaiting[j] in net.peer && awaiting[j] !in Sockets(neighbours[..])
      {
        var s := awaiting[j];
        assert s in awaiting && s in net.open;
      }
      hide Consistent, Add, Occupied, Sockets;
      for i := 0 to |awaiting|
        invariant Valid() && |replies| == i
        invariant forall j :: 0 <= j < i ==> replies[j].sock == awaiting[j]
        invariant neighbours[..] == Absorb(t, replies) && net.closed == old(net.closed) + Refused(replies)
        invariant forall j :: i <= j < |awaiting| ==>
                    awaiting[j] in net.open && awaiting[j] in net.peer && awaiting[j] !in Sockets(neighbours[..])
      {
        ghost var open, held := net.open, Sockets(neighbours[..]);
        var sock := awaiting[i];
        var reply := TakeReply(sock);
        forall j | i < j < |awaiting|
          ensures awaiting[j] in net.open && awaiting[j] in net.peer && awaiting[j] !in Sockets(neighbours[..])
        {
          var s := awaiting[j];
          assert s != sock && s in open && s !in held;
        }
        assert (replies + [reply])[..i] == replies;
        RefusedSnoc(old(net.closed), replies, reply);
        replies := replies + [reply];
      }
    }

    /** `handle_join_responses`: the replies are taken in the order the requests went out. */
    method HandleJoinResponses(awaiting: seq<int>) returns (replies: seq<Reply>)
      requires Valid() && Waiting(awaiting)
      modifies this`nbNeighbours, neighbours, net`open, net`closed
      ensures net.closed == old(net.closed) + Refused(replies)
      ensures Valid()
      ensures |replies| == |awaiting| && DistinctSockets(replies)
      ensures forall r :: r in replies ==> r.sock !in Sockets(old(neighbours[..]))
      ensures neighbours[..] == Absorb(old(neighbours[..]), replies)
      ensures Sockets(neighbours[..]) <= old(InUse(awaiting))
    {
      ghost var t := neighbours[..];
      forall s | s in awaiting
        ensures s != NO_SOCKET && s !in Sockets(t)
      {
      }
      hide Consistent, Occupied;
      replies := TakeReplies(awaiting);
      RepliesTo(t, awaiting, replies);
    }

    /**
     * The loop over the advertised neighbours: each that is not taken for one's own is remembered in
     * `known` and dialled unless it is a neighbour already.
     */
    method JoinAdvertised(list: seq<Endpoint>, known: array<Endpoint>)
      returns (awaiting: seq<int>, index: nat, ghost mine: seq<bool>)
      requires Valid() && |list| <= MAX_NEIGHBOURS == known.Length
      modifies net`open, net`peer, net`joins, net`dialled, net`answered, known
      ensures old(net.answered) <= net.answered
      ensures Valid() && Waiting(awaiting) && |awaiting| <= index <= |list|
      ensures |mine| == |list| && known[..index] == Others(list, mine)
      ensures net.dialled == old(net.dialled) + Strangers(known[..index], Peers()) && Peers() == old(Peers())
      ensures net.joins == old(net.joins) + JoinsOn(awaiting, 0)
      ensures forall s :: s in awaiting ==> s !in old(net.open) && net.peer[s] in list
      ensures KeepsOpen(old(net.open), old(net.peer), net.open, net.peer)
      ensures Distinct(list) && DistinctPeers(InUse([]), old(net.peer)) ==> DistinctPeers(InUse(awaiting), net.peer)
    {
      hide Consistent, Occupied, DistinctPeers, Others, Strangers, Peers, JoinsOn;
      awaiting, index, mine := [], 0, [];
      ghost var dialled, joins := net.dialled, net.joins;
      NothingKnown(Peers());
      assert joins + JoinsOn([], 0) == joins;
      for i := 0 to |list|
        invariant Valid() && Waiting(awaiting) && |awaiting| <= index <= i
        invariant |mine| == i && known[..index] == Others(list[..i], mine)
        invariant net.dialled == dialled + Strangers(known[..index], Peers()) && Peers() == old(Peers())
        invariant net.joins == joins + JoinsOn(awaiting, 0)
        invariant forall s :: s in awaiting ==> s !in old(net.open) && net.peer[s] in list[..i]
        invariant KeepsOpen(old(net.open), old(net.peer), net.open, net.peer) && old(net.answered) <= net.answered
        invariant Distinct(list) && DistinctPeers(InUse([]), old(net.peer)) ==> DistinctPeers(InUse(awaiting), net.peer)
      {
        assert list[..i + 1] == list[..i] + [list[i]];
        var isSelf: bool := *;
        awaiting, index, mine := JoinOne(list[i], isSelf, known, awaiting, index, list[..i], mine, dialled, joins);
      }
      assert list[..|list|] == list;
    }

    /** One turn of that loop. */
    method JoinOne(e: Endpoint, isSelf: bool, known: array<Endpoint>, awaiting: seq<int>, index: nat,
                   ghost before: seq<Endpoint>, ghost mine: seq<bool>, ghost dialled: seq<Endpoint>, ghost joins: seq<JoinSent>)
      returns (awaiting': seq<int>, index': nat, ghost mine': seq<bool>)
      requires Valid() && Waiting(awaiting) && index < known.Length
      requires |mine| == |before| && known[..index] == Others(before, mine)
      requires net.dialled == dialled + Strangers(known[..index], Peers()) && net.joins == joins + JoinsOn(awaiting, 0)
      modifies net`open, net`peer, net`joins, net`dialled, net`answered, known
      ensures old(net.answered) <= net.answered
      ensures Valid() && Waiting(awaiting') && |awaiting'| - |awaiting| <= index' - index && index' <= index + 1
      ensures |mine'| == |before| + 1 && known[..index'] == Others(before + [e], mine')
      ensures net.dialled == dialled + Strangers(known[..index'], Peers()) && net.joins == joins + JoinsOn(awaiting', 0)
      ensures Peers() == old(Peers()) && KeepsOpen(old(net.open), old(net.peer), net.open, net.peer)
      ensures forall s :: s in awaiting' ==> s in awaiting || (s !in old(net.open) && net.peer[s] == e)
      ensures (forall s :: s in awaiting ==> old(net.peer)[s] != e) &&
              DistinctPeers(InUse(awaiting), old(net.peer)) ==>
                DistinctPeers(InUse(awaiting'), net.peer)
    {
      hide Consistent, Occupied, DistinctPeers, Others, Strangers, Peers, JoinsOn, Sockets, Distinct;
      OthersSnoc(before, mine, e, isSelf);
      awaiting', index', mine' := awaiting, index, mine + [isSelf];
      if !isSelf {
        StrangersSnoc(known[..index], e, Peers());
        Remember(known, index, e);
        index' := index + 1;
        awaiting' := Join(e, awaiting, 0);
        JoinsAppend(awaiting, awaiting', 0);
      }
    }

    method Remember(known: array<Endpoint>, index: nat, e: Endpoint)
      requires index < known.Length
      modifies known
      ensures known[..index + 1] == old(known[..index]) + [e]
    {
      known[index] := e;
      assert known[..index + 1] == known[..index] + [e];
    }

    /** The contact is asked when its list was not full, as a rescue when its list was empty. */
    method JoinContact(contact: Endpoint, list: seq<Endpoint>, awaiting: seq<int>, known: array<Endpoint>, index: nat)
      returns (awaiting': seq<int>, index': nat)
      requires Valid() && Waiting(awaiting) && |awaiting| <= index <= |list| <= MAX_NEIGHBOURS == known.Length
      modifies net`open, net`peer, net`joins, net`dialled, net`answered, known
      ensures old(net.answered) <= net.answered
      ensures Valid() && Waiting(awaiting') && |awaiting'| <= index' <= MAX_NEIGHBOURS && awaiting <= awaiting'
      ensures known[..index'] == old(known[..index]) + ContactToo(contact, list)
      ensures net.joins == old(net.joins) + JoinsOn(awaiting'[|awaiting|..], if list == [] then 1 else 0)
      ensures Peers() == old(Peers())
      ensures net.dialled == old(net.dialled) + Strangers(ContactToo(contact, list), old(Peers()))
      ensures (forall s :: s in awaiting ==> old(net.peer)[s] != contact) &&
              DistinctPeers(InUse(awaiting), old(net.peer)) ==>
                DistinctPeers(InUse(awaiting'), net.peer)
    {
      AskingContact(contact, list, Peers());
      hide Consistent, Occupied, DistinctPeers, Sockets, Distinct, EndpointsOf, Strangers, ContactToo;
      awaiting', index' := awaiting, index;
      if |list| < MAX_NEIGHBOURS {
        Remember(known, index, contact);
        index' := index + 1;
        awaiting' := Join(contact, awaiting, if list == [] then 1 else 0);
      }
    }

    /**
     * Asks each advertised neighbour and - when they are fewer than MAX_NEIGHBOURS - the contact itself. At
     * most MAX_NEIGHBOURS requests are then under way, and `known` never overflows. The requests are
     * rescues exactly when nobody was advertised.
     */
    method AskEveryone(contact: Endpoint, list: seq<Endpoint>, known: array<Endpoint>, socket: int)
      returns (awaiting: seq<int>, index: nat, ghost mine: seq<bool>)
      requires Valid() && |list| <= MAX_NEIGHBOURS == known.Length
      requires socket in net.open && socket !in Sockets(neighbours[..])
      modifies net`open, net`closed, net`peer, net`joins, net`dialled, net`answered, known
      ensures net.closed == old(net.closed) + [socket]
      ensures old(net.answered) <= net.answered
      ensures Valid() && Waiting(awaiting) && |awaiting| <= index <= MAX_NEIGHBOURS
      ensures |mine| == |list|
      ensures known[..index] == Others(list, mine) + ContactToo(contact, list)
      ensures net.dialled == old(net.dialled) + Strangers(known[..index], Peers()) && Peers() == old(Peers())
      ensures net.joins == old(net.joins) + JoinsOn(awaiting, if list == [] then 1 else 0)
      ensures Distinct(list + [contact]) && DistinctPeers(Sockets(neighbours[..]), old(net.peer)) ==>
                DistinctPeers(InUse(awaiting), net.peer)
    {
      hide *;
      ghost var joins, dialled := net.joins, net.dialled;
      var asked;
      asked, index, mine := JoinListed(contact, list, known, socket);
      StrangersContact(known[..index], contact, list, Peers());
      awaiting, index := JoinContact(contact, list, asked, known, index);
      AllJoins(joins, asked, awaiting, if list == [] then 1 else 0);
    }

    /** The loop over the advertised neighbours, after which the contact's connection is closed. */
    method JoinListed(contact: Endpoint, list: seq<Endpoint>, known: array<Endpoint>, socket: int)
      returns (awaiting: seq<int>, index: nat, ghost mine: seq<bool>)
      requires Valid() && |list| <= MAX_NEIGHBOURS == known.Length
      requires socket in net.open && socket !in Sockets(neighbours[..])
      modifies net`open, net`closed, net`peer, net`joins, net`dialled, net`answered, known
      ensures net.closed == old(net.closed) + [socket]
      ensures old(net.answered) <= net.answered
      ensures Valid() && Waiting(awaiting) && |awaiting| <= index <= |list|
      ensures |mine| == |list| && known[..index] == Others(list, mine)
      ensures net.dialled == old(net.dialled) + Strangers(known[..index], Peers()) && Peers() == old(Peers())
      ensures net.joins == old(net.joins) + JoinsOn(awaiting, 0)
      ensures Distinct(list + [contact]) ==> forall s :: s in awaiting ==> net.peer[s] != contact
      ensures Distinct(list + [contact]) && DistinctPeers(Sockets(neighbours[..]), old(net.peer)) ==>
                DistinctPeers(InUse(awaiting), net.peer)
    {
      AppendDistinct(list, contact);
      assert InUse([]) == Sockets(neighbours[..]);
      hide Consistent, Occupied, DistinctPeers, Sockets, JoinsOn, Distinct, EndpointsOf, Strangers, Others;
      awaiting, index, mine := JoinAdvertised(list, known);
      net.Close(socket);
    }

    /**
     * One round of `join_network_through`, up to the recursion: fetch the contact's neighbours, ask them
     * all to join, and take the replies.
     */
    method JoinRound(contact: Endpoint, known: array<Endpoint>) returns (round: Round, index: nat)
      requires Valid() && known.Length == MAX_NEIGHBOURS
      modifies this`nbNeighbours, neighbours, net`open, net`closed, net`peer, net`asked, net`joins, net`dialled, net`answered, known
      ensures old(net.closed) <= net.closed && (round.list.Some? ==> old(net.answered) < net.answered)
      ensures old(net.answered) <= net.answered
      ensures Valid() && net.asked == old(net.asked) + [contact]
      ensures index <= MAX_NEIGHBOURS && RoundOf(round, contact, old(neighbours[..]))
      ensures round.list.Some? ==> known[..index] == round.known
      ensures net.dialled == old(net.dialled) + RoundDials(contact, round.known, old(Peers()))
      ensures neighbours[..] == Absorb(old(neighbours[..]), round.replies)
      ensures net.tidy && DistinctPeers(Sockets(old(neighbours[..])), old(net.peer)) ==>
                DistinctPeers(Sockets(neighbours[..]), net.peer)
    {
      FruitlessRound(neighbours[..], contact, Peers());
      round, index := Round(None, [], []), 0;
      hide *;
      var answer, socket := FetchNeighbours(contact);
      if answer.Some? {
        round, index := AskAndAbsorb(contact, answer.value, known, socket);
        Dials(old(net.dialled), contact, round.known, old(Peers()));
      }
    }

    /** The rest of the round: everyone is asked to join, and the replies are taken. */
    method AskAndAbsorb(contact: Endpoint, list: seq<Endpoint>, known: array<Endpoint>, socket: int)
      returns (round: Round, index: nat)
      requires Valid() && |list| <= MAX_NEIGHBOURS == known.Length
      requires socket in net.open && socket !in Sockets(neighbours[..])
      modifies this`nbNeighbours, neighbours, net`open, net`closed, net`peer, net`joins, net`dialled, net`answered, known
      ensures net.closed == old(net.closed) + [socket] + Refused(round.replies)
      ensures old(net.answered) <= net.answered
      ensures Valid() && index <= MAX_NEIGHBOURS && known[..index] == round.known && round.list == Some(list)
      ensures RoundOf(round, contact, old(neighbours[..]))
      ensures net.dialled == old(net.dialled) + Strangers(round.known, old(Peers()))
      ensures neighbours[..] == Absorb(old(neighbours[..]), round.replies)
      ensures Distinct(list + [contact]) && DistinctPeers(Sockets(old(neighbours[..])), old(net.peer)) ==>
                DistinctPeers(Sockets(neighbours[..]), net.peer)
    {
      hide *;
      var awaiting;
      ghost var mine;
      awaiting, index, mine := AskEveryone(contact, list, known, socket);
      ghost var inUse := InUse(awaiting);
      var replies := HandleJoinResponses(awaiting);
      FewerPeers(Sockets(neighbours[..]), inUse, net.peer);
      round := Round(Some(list), known[..index], replies);
      RoundIsOf(round, contact, old(neighbours[..]), mine);
    }

    /** CMSG_NEIGHBOURS and the answer, with the connection left open if it is what was asked for. */
    method FetchNeighbours(contact: Endpoint) returns (answer: Option<seq<Endpoint>>, socket: int)
      requires Valid()
      modifies net`open, net`closed, net`peer, net`asked, net`dialled, net`answered
      ensures if answer.Some? then net.closed == old(net.closed) else old(net.closed) <= net.closed
      ensures answer.Some? ==> old(net.answered) < net.answered
      ensures old(net.answered) <= net.answered
      ensures Valid() && Peers() == old(Peers())
      ensures net.asked == old(net.asked) + [contact] && net.dialled == old(net.dialled) + [contact]
      ensures answer.Some? ==> socket in net.open && socket !in Sockets(neighbours[..]) && |answer.value| <= MAX_NEIGHBOURS
      ensures answer.Some? && net.tidy ==> Distinct(answer.value + [contact])
      ensures DistinctPeers(Sockets(neighbours[..]), old(net.peer)) ==> DistinctPeers(Sockets(neighbours[..]), net.peer)
    {
      hide Consistent, Occupied;
      answer := None;
      net.asked := net.asked + [contact];
      socket := net.Connect(contact);
      if socket != NO_SOCKET {
        answer := net.ReadNeighbours(contact);
        if answer.None? {
          net.Close(socket);
        }
      }
    }

    /** The recursion of `join_network_through`: every endpoint made known is asked in turn. */
    method AskKnown(known: seq<Endpoint>, attempts: int, ghost t: seq<Slot>, ghost round: Round,
                    ghost contact: Endpoint, ghost asked: seq<Endpoint>) returns (ghost c: Crawl)
      requires Valid() && attempts >= -1 && neighbours[..] == Absorb(t, round.replies) && net.asked == asked + [contact]
      modifies this`nbNeighbours, neighbours, net`open, net`closed, net`peer, net`asked, net`joins, net`dialled, net`answered
      ensures old(net.closed) <= net.closed
      ensures old(net.answered) <= net.answered
      ensures Valid() && old(net.dialled) <= net.dialled && c.contact == contact && c.round == round
      ensures Chained(t, c, if attempts >= 0 then known else [], attempts)
      ensures neighbours[..] == Outcome(t, c) && net.asked == asked + Asked(c)
      ensures c.deeper == [] ==> net.dialled == old(net.dialled)
      ensures net.tidy && DistinctPeers(Sockets(old(neighbours[..])), old(net.peer)) ==>
                DistinctPeers(Sockets(neighbours[..]), net.peer)
      decreases attempts + 2, 1
    {
      c := Crawl(contact, round, []);
      NothingDeeper(t, contact, round, attempts);
      hide Consistent, Occupied, DistinctPeers, Connected, Absorb, Sockets, Strangers, RoundDials;
      hide RoundOf, CrawlOf, Chained, TableAt, Outcome, Asked;
      ghost var u, peer, dialled := neighbours[..], net.peer, net.dialled;
      for i := 0 to |known|
        invariant Valid() && dialled <= net.dialled && c.contact == contact && c.round == round
        invariant old(net.answered) <= net.answered && old(net.closed) <= net.closed
        invariant Chained(t, c, if attempts >= 0 then known[..i] else [], attempts)
        invariant neighbours[..] == Outcome(t, c) && net.asked == asked + Asked(c)
        invariant c.deeper == [] ==> net.dialled == dialled
        invariant net.tidy && DistinctPeers(Sockets(u), peer) ==> DistinctPeers(Sockets(neighbours[..]), net.peer)
      {
        var res;
        ghost var d;
        res, d := JoinNetworkThrough(known[i], attempts);
        if attempts >= 0 {
          ChainGrows(t, c, known[..i], d, attempts);
          MoreOutcome(t, c, d);
          assert known[..i + 1] == known[..i] + [known[i]];
          assert asked + Asked(c) + Asked(d) == asked + (Asked(c) + Asked(d));
          c := More(c, d);
        }
      }
      assert known[..|known|] == known;
    }

    /**
     * `join_network_through`: the crawl the code makes from its table, `attempts` levels deep. With an empty
     * table, everybody who said yes in the first round is held from then on.
     */
    method JoinNetworkThrough(contact: Endpoint, attempts: int) returns (res: int, ghost c: Crawl)
      requires Valid()
      modifies this`nbNeighbours, neighbours, net`open, net`closed, net`peer, net`asked, net`joins, net`dialled, net`answered
      ensures net.answered == old(net.answered) ==> neighbours[..] == old(neighbours[..])
      ensures old(net.closed) <= net.closed
      ensures old(net.answered) <= net.answered
      ensures Valid() && old(net.dialled) <= net.dialled
      ensures net.tidy && DistinctPeers(Sockets(old(neighbours[..])), old(net.peer)) ==>
                DistinctPeers(Sockets(neighbours[..]), net.peer)
      ensures attempts < 0 ==>
                && res == 0 && neighbours[..] == old(neighbours[..])
                && net.dialled == old(net.dialled) && net.asked == old(net.asked)
      ensures attempts >= 0 ==>
                && CrawlOf(old(neighbours[..]), c, attempts) && c.contact == contact
                && neighbours[..] == Outcome(old(neighbours[..]), c) && net.asked == old(net.asked) + Asked(c)
                && res == (if c.round.list.Some? then 0 else -1)
                && old(net.dialled) + RoundDials(contact, c.round.known, old(Peers())) <= net.dialled
                && (c.deeper == [] ==> net.dialled == old(net.dialled) + RoundDials(contact, c.round.known, old(Peers())))
      ensures attempts >= 0 && old(nbNeighbours) == 0 ==> YesSockets(c.round.replies) <= Sockets(neighbours[..])
      decreases attempts + 2, 0
    {
      hide Consistent, Occupied, DistinctPeers, Connected, Absorb, DistinctSockets, Sockets;
      hide RoundOf, RoundDials, Others, Strangers, CrawlOf, Chained, TableAt, Outcome, Asked;
      c := Crawl(contact, Round(None, [], []), []);
      if attempts < 0 {
        return 0, c;
      }
      ghost var t := neighbours[..];
      var known := new Endpoint[MAX_NEIGHBOURS](_ => contact);
      var round, index := JoinRound(contact, known);
      FirstRoundHeld(t, round, contact);
      c := Crawl(contact, round, []);
      NothingDeeper(t, contact, round, attempts - 1);
      ghost var u := neighbours[..];
      if round.list.Some? && |round.list.value| > 0 && nbNeighbours < MIN_NEIGHBOURS {
        c := AskKnown(known[..index], attempts - 1, t, round, contact, old(net.asked));
      }
      RoundThenDeeper(t, c, attempts);
      NobodyAnswered(t, c);
      CrawlExtends(t, c);
      ExtendsKeepsSockets(u, neighbours[..]);
      return if round.list.None? then -1 else 0, c;
    }

    /**
     * `handle_leave`: the slot is freed, and with too few neighbours left the first that still answers is
     * used to look for more. The result is 1 when nobody is left. `silent` are the neighbours whose address
     * can no longer be told.
     */
    method HandleLeave(departed: nat, silent: set<int>) returns (res: int)
      requires Valid() && departed < MAX_NEIGHBOURS && Taken(neighbours[departed])
      modifies this`nbNeighbours, neighbours, net`open, net`closed, net`peer, net`asked, net`joins, net`dialled, net`answered
      ensures old(net.closed) + [old(neighbours[departed].sock)] <= net.closed
      ensures net.answered == old(net.answered) ==> neighbours[..] == old(neighbours[..])[departed := FREE]
      ensures old(net.answered) <= net.answered
      ensures Valid()
      ensures Extends(old(neighbours[..])[departed := FREE], neighbours[..])
      ensures res == (if Occupied(neighbours[..]) == 0 then 1 else 0)
      ensures var t := old(neighbours[..])[departed := FREE];
              if Occupied(t) < 2 && FirstHeard(t, silent) < |t|
              then old(net.dialled) + [old(PeerAt(FirstHeard(t, silent)))] <= net.dialled
              else neighbours[..] == t && net.dialled == old(net.dialled) && net.asked == old(net.asked)
      ensures |net.asked| <= |old(net.asked)| + CrawlBound(JOIN_MAX_ATTEMPTS)
      ensures net.tidy && DistinctPeers(Sockets(old(neighbours[..])), old(net.peer)) ==>
                DistinctPeers(Sockets(neighbours[..]), net.peer)
    {
      hide Consistent, Connected, FirstHeard;
      Depart(departed);
      hide Occupied;
      Repair(silent);
      return if nbNeighbours == 0 then 1 else 0;
    }

    /** The second half of `handle_leave`. */
    method Repair(silent: set<int>)
      requires Valid()
      modifies this`nbNeighbours, neighbours, net`open, net`closed, net`peer, net`asked, net`joins, net`dialled, net`answered
      ensures net.answered == old(net.answered) ==> neighbours[..] == old(neighbours[..])
      ensures old(net.closed) <= net.closed
      ensures old(net.answered) <= net.answered
      ensures Valid() && Extends(old(neighbours[..]), neighbours[..])
      ensures var t := old(neighbours[..]);
              if Occupied(t) < 2 && FirstHeard(t, silent) < |t|
              then old(net.dialled) + [old(PeerAt(FirstHeard(t, silent)))] <= net.dialled
              else neighbours[..] == t && net.dialled == old(net.dialled) && net.asked == old(net.asked)
      ensures |net.asked| <= |old(net.asked)| + CrawlBound(JOIN_MAX_ATTEMPTS)
      ensures net.tidy && DistinctPeers(Sockets(old(neighbours[..])), old(net.peer)) ==>
                DistinctPeers(Sockets(neighbours[..]), net.peer)
    {
      hide Consistent, Occupied, Connected, DistinctPeers, Sockets, Strangers, RoundDials, FirstHeard;
      hide CrawlOf, Outcome, Asked, CrawlBound;
      if nbNeighbours < MIN_NEIGHBOURS {
        var i := FindHeard(silent);
        if i < MAX_NEIGHBOURS {
          var contact := PeerOf(neighbours[i].sock);
          ghost var c;
          var res;
          ghost var t, peers := neighbours[..], Peers();
          res, c := JoinNetworkThrough(contact, JOIN_MAX_ATTEMPTS);
          ContactDialled(old(net.dialled), contact, c.round.known, peers);
          CrawlIsBounded(t, c, JOIN_MAX_ATTEMPTS);
          CrawlExtends(t, c);
        }
      }
    }

    /** The neighbour at slot `i`. */
    ghost function PeerAt(i: nat): Endpoint
      reads this, net, neighbours
      requires Valid() && i < MAX_NEIGHBOURS && Taken(neighbours[i])
    {
      assert neighbours[..][i] in neighbours[..];
      net.peer[neighbours[i].sock]
    }

    /** The walk over the remaining neighbours for one whose address can still be told. */
    method FindHeard(silent: set<int>) returns (i: nat)
      requires Valid()
      ensures i == FirstHeard(neighbours[..], silent)
      ensures i < MAX_NEIGHBOURS ==> neighbours[i].sock in Sockets(neighbours[..])
    {
      i := 0;
      while i < MAX_NEIGHBOURS
        invariant i <= MAX_NEIGHBOURS
        invariant forall j :: 0 <= j < i ==> !Taken(neighbours[j]) || neighbours[j].sock in silent
      {
        if neighbours[i].sock != NO_SOCKET && neighbours[i].sock !in silent {
          assert neighbours[i] in neighbours[..];
          return;
        }
        i := i + 1;
      }
    }

    method PeerOf(sock: int) returns (e: Endpoint)
      requires Valid() && sock in Sockets(neighbours[..])
      ensures sock in net.peer && e == net.peer[sock]
    {
      e := net.peer[sock];
    }

    /** The first half of `handle_leave`. */
    method Depart(departed: nat)
      requires Valid() && departed < MAX_NEIGHBOURS && Taken(neighbours[departed])
      modifies this`nbNeighbours, neighbours, net`open, net`closed
      ensures net.closed == old(net.closed) + [old(neighbours[departed].sock)]
      ensures Valid() && neighbours[..] == old(neighbours[..])[departed := FREE]
      ensures Occupied(neighbours[..]) == Occupied(old(neighbours[..])) - 1
      ensures Sockets(neighbours[..]) == Sockets(old(neighbours[..])) - {old(neighbours[departed].sock)}
      ensures net.open == old(net.open) - {old(neighbours[departed].sock)}
    {
      LeaveExact(neighbours[..], departed);
      net.Close(neighbours[departed].sock);
      neighbours[departed] := FREE;
      assert neighbours[..] == old(neighbours[..])[departed := FREE];
      nbNeighbours := nbNeighbours - 1;
    }

    /**
     * `handle_neighbours`: each neighbour has its turn and may leave; `leaving` says of each slot whether
     * its neighbour, if it has one when its turn comes, sends CMSG_LEAVE. `turns` are the tables before each
     * turn, and after the last: there are fewer only when nobody is left.
     */
    method HandleNeighbours(leaving: seq<bool>, silent: set<int>) returns (res: int, ghost turns: seq<Turn>)
      requires Valid() && |leaving| == MAX_NEIGHBOURS
      modifies this`nbNeighbours, neighbours, net`open, net`closed, net`peer, net`asked, net`joins, net`dialled, net`answered
      ensures Valid()
      ensures old(net.dialled) <= net.dialled && old(net.answered) <= net.answered
      ensures res == (if nbNeighbours == 0 && old(nbNeighbours) > 0 then 1 else 0)
      ensures 0 < |turns| <= MAX_NEIGHBOURS + 1 && (|turns| <= MAX_NEIGHBOURS ==> nbNeighbours == 0)
      ensures TurnsOf(turns, leaving, net.closed)
      ensures turns[0] == Turn(old(neighbours[..]), |old(net.closed)|)
      ensures turns[|turns| - 1] == Turn(neighbours[..], |net.closed|)
      ensures forall i :: 0 <= i < MAX_NEIGHBOURS && Taken(old(neighbours[i])) && !leaving[i] ==>
                neighbours[i] == old(neighbours[i])
      ensures Within(Leavers(old(neighbours[..]), leaving), net.closed, |old(net.closed)|)
      ensures net.answered == old(net.answered) ==>
                neighbours[..] == Remaining(old(neighbours[..]), leaving, MAX_NEIGHBOURS)
      ensures net.tidy && DistinctPeers(Sockets(old(neighbours[..])), old(net.peer)) ==>
                DistinctPeers(Sockets(neighbours[..]), net.peer)
    {
      ghost var t, answered, from := neighbours[..], net.answered, |net.closed|;
      turns := [Turn(t, from)];
      NobodyTurned(t, leaving);
      StoryBegins(t, leaving, net.closed);
      hide Consistent, Connected, Sockets, Occupied, DistinctPeers, Remaining, Story, TurnsOf, Within, Leavers;
      for i := 0 to MAX_NEIGHBOURS
        invariant Valid() && (nbNeighbours == 0 <==> old(nbNeighbours) == 0)
        invariant old(net.dialled) <= net.dialled && answered <= net.answered
        invariant Story(turns, leaving, t, from, neighbours[..], net.closed, i)
        invariant net.answered == answered ==> neighbours[..] == Remaining(t, leaving, i)
        invariant net.tidy && DistinctPeers(Sockets(t), old(net.peer)) ==>
                    DistinctPeers(Sockets(neighbours[..]), net.peer)
      {
        RemainingNext(t, leaving, i);
        var left;
        left, turns := NextTurn(i, leaving, silent, t, from, turns);
        if left == 1 {
          StoryEnds(turns, leaving, t, from, neighbours[..], net.closed, i + 1);
          return 1, turns;
        }
      }
      StoryEnds(turns, leaving, t, from, neighbours[..], net.closed, MAX_NEIGHBOURS);
      return 0, turns;
    }

    /** One turn of the loop of `handle_neighbours`, with the account of the turns so far. */
    method NextTurn(i: nat, leaving: seq<bool>, silent: set<int>, ghost t: seq<Slot>, ghost from: nat, ghost turns: seq<Turn>)
      returns (left: int, ghost turns': seq<Turn>)
      requires Valid() && i < MAX_NEIGHBOURS == |leaving|
      requires Story(turns, leaving, t, from, neighbours[..], net.closed, i)
      modifies this`nbNeighbours, neighbours, net`open, net`closed, net`peer, net`asked, net`joins, net`dialled, net`answered
      ensures Valid() && old(net.dialled) <= net.dialled && old(net.answered) <= net.answered
      ensures Story(turns', leaving, t, from, neighbours[..], net.closed, i + 1)
      ensures net.answered == old(net.answered) ==>
                neighbours[..] == if leaving[i] then old(neighbours[..])[i := FREE] else old(neighbours[..])
      ensures old(nbNeighbours) == 0 ==> nbNeighbours == 0
      ensures left == (if nbNeighbours == 0 && old(nbNeighbours) > 0 then 1 else 0)
      ensures net.tidy && DistinctPeers(Sockets(old(neighbours[..])), old(net.peer)) ==>
                DistinctPeers(Sockets(neighbours[..]), net.peer)
    {
      hide Consistent, Connected, Sockets, Occupied, DistinctPeers, Story, TurnsOf, Extends;
      ghost var u, before := neighbours[..], net.closed;
      left := TakeTurn(i, leaving[i], silent);
      StoryGoesOn(turns, leaving, t, from, u, before, neighbours[..], net.closed, i);
      turns' := turns + [Turn(neighbours[..], |net.closed|)];
    }

    /** The turn itself. */
    method TakeTurn(i: nat, leaves: bool, silent: set<int>) returns (left: int)
      requires Valid() && i < MAX_NEIGHBOURS
      modifies this`nbNeighbours, neighbours, net`open, net`closed, net`peer, net`asked, net`joins, net`dialled, net`answered
      ensures Valid() && old(net.dialled) <= net.dialled && old(net.answered) <= net.answered
      ensures if leaves && Taken(old(neighbours[i]))
              then old(net.closed) + [old(neighbours[i].sock)] <= net.closed
              else net.closed == old(net.closed) && neighbours[..] == old(neighbours[..])
      ensures leaves ==> Extends(old(neighbours[..])[i := FREE], neighbours[..])
      ensures net.answered == old(net.answered) ==>
                neighbours[..] == if leaves then old(neighbours[..])[i := FREE] else old(neighbours[..])
      ensures old(nbNeighbours) == 0 ==> nbNeighbours == 0
      ensures left == (if nbNeighbours == 0 && old(nbNeighbours) > 0 then 1 else 0)
      ensures net.tidy && DistinctPeers(Sockets(old(neighbours[..])), old(net.peer)) ==>
                DistinctPeers(Sockets(neighbours[..]), net.peer)
    {
      FreeSlots(neighbours[..]);
      hide Consistent, Connected, Sockets, Occupied, DistinctPeers, FirstHeard;
      left := 0;
      if neighbours[i].sock != NO_SOCKET && leaves {
        left := HandleLeave(i, silent);
      } else if leaves {
        assert neighbours[..] == neighbours[..][i := FREE];
      }
    }
  }

  // ----- Taking turns -----

  /** The table before a turn, and how many sockets had been closed. */
  datatype Turn = Turn(table: seq<Slot>, closed: nat)

  /**
   * Each turn closes the socket of a neighbour that leaves, before anything else, and frees its slot; who
   * does not leave is left alone.
   */
  ghost predicate TurnsOf(turns: seq<Turn>, leaving: seq<bool>, closed: seq<int>) {
    && 0 < |turns| <= |leaving| + 1
    && (forall i :: 0 <= i < |turns| ==> |turns[i].table| == |leaving| && turns[i].closed <= |closed|)
    && forall i :: 0 <= i < |turns| - 1 ==> IsTurn(turns[i], turns[i + 1], i, leaving, closed)
  }

  ghost predicate IsTurn(now: Turn, next: Turn, i: nat, leaving: seq<bool>, closed: seq<int>)
    requires i < |leaving| == |now.table|
  {
    if leaving[i] && Taken(now.table[i]) then
      && now.closed < next.closed && now.closed < |closed| && closed[now.closed] == now.table[i].sock
      && Extends(now.table[i := FREE], next.table)
    else next == now
  }

  lemma FirstTurn(turns: seq<Turn>, leaving: seq<bool>, closed: seq<int>)
    requires |turns| == 1 && |turns[0].table| == |leaving| && turns[0].closed == |closed|
    ensures TurnsOf(turns, leaving, closed)
  {
  }

  lemma OneMoreTurn(turns: seq<Turn>, leaving: seq<bool>, before: seq<int>, closed: seq<int>, u: seq<Slot>)
    requires TurnsOf(turns, leaving, before) && 0 < |turns| <= |leaving| && |u| == |leaving|
    requires turns[|turns| - 1].closed == |before| && |turns[|turns| - 1].table| == |leaving|
    requires var i := |turns| - 1;
             var t := turns[i].table;
             if leaving[i] && Taken(t[i]) then before + [t[i].sock] <= closed && Extends(t[i := FREE], u)
             else closed == before && u == t
    ensures TurnsOf(turns + [Turn(u, |closed|)], leaving, closed)
  {
    var more, n := turns + [Turn(u, |closed|)], |turns| - 1;
    var t := turns[n].table;
    if leaving[n] && Taken(t[n]) {
      assert closed[|before|] == (before + [t[n].sock])[|before|];
    }
    forall i | 0 <= i < n
      ensures IsTurn(more[i], more[i + 1], i, leaving, closed)
    {
      assert IsTurn(turns[i], turns[i + 1], i, leaving, before);
      assert before <= closed;
    }
  }

  /** The sockets of the neighbours that leave, slot by slot. */
  function Leavers(t: seq<Slot>, leaving: seq<bool>): seq<int>
    requires |t| == |leaving|
  {
    if t == [] then []
    else
      var n := |t| - 1;
      Leavers(t[..n], leaving[..n]) + if leaving[n] && Taken(t[n]) then [t[n].sock] else []
  }

  /** From place `from` on there is an own place in `many` for every element of `few`, in order. */
  ghost predicate Within(few: seq<int>, many: seq<int>, from: nat)
    decreases |few|
  {
    && from <= |many|
    && (few != [] ==>
          exists k :: from <= k < |many| && many[k] == few[|few| - 1] && Within(few[..|few| - 1], many[..k], from))
  }

  lemma {:induction false} WithinMore(few: seq<int>, many: seq<int>, more: seq<int>, from: nat)
    requires Within(few, many, from) && many <= more
    ensures Within(few, more, from)
  {
    if few != [] {
      var k :| from <= k < |many| && many[k] == few[|few| - 1] && Within(few[..|few| - 1], many[..k], from);
      assert more[..k] == many[..k];
    }
  }

  lemma WithinNext(few: seq<int>, many: seq<int>, k: nat, from: nat)
    requires k < |many| && Within(few, many[..k], from)
    ensures Within(few + [many[k]], many, from)
  {
    var all := few + [many[k]];
    assert all[..|all| - 1] == few;
  }

  /** A neighbour keeps its slot until its turn. */
  lemma {:induction false} HeldUntilTurn(turns: seq<Turn>, leaving: seq<bool>, closed: seq<int>, i: nat, j: nat)
    requires TurnsOf(turns, leaving, closed) && i < |turns| && i <= j < |leaving| && Taken(turns[0].table[j])
    ensures turns[i].table[j] == turns[0].table[j]
  {
    if i > 0 {
      HeldUntilTurn(turns, leaving, closed, i - 1, j);
      assert IsTurn(turns[i - 1], turns[i], i - 1, leaving, closed);
    }
  }

  lemma {:induction false} LeaversUpTo(turns: seq<Turn>, leaving: seq<bool>, closed: seq<int>, n: nat)
    requires TurnsOf(turns, leaving, closed) && n < |turns|
    ensures turns[0].closed <= turns[n].closed
    ensures Within(Leavers(turns[0].table[..n], leaving[..n]), closed[..turns[n].closed], turns[0].closed)
  {
    var t := turns[0].table;
    if n > 0 {
      var i := n - 1;
      LeaversUpTo(turns, leaving, closed, i);
      assert IsTurn(turns[i], turns[n], i, leaving, closed);
      assert t[..n][..i] == t[..i] && leaving[..n][..i] == leaving[..i];
      var few, k := Leavers(t[..i], leaving[..i]), turns[i].closed;
      if Taken(t[i]) {
        HeldUntilTurn(turns, leaving, closed, i, i);
      }
      assert Leavers(t[..n], leaving[..n]) == few + if leaving[i] && Taken(t[i]) then [t[i].sock] else [];
      assert few + [] == few;
      hide Leavers, Extends;
      var many := closed[..turns[n].closed];
      if leaving[i] && Taken(t[i]) {
        assert many[..k] == closed[..k];
        WithinNext(few, many, k, turns[0].closed);
      } else {
        WithinMore(few, closed[..k], many, turns[0].closed);
      }
    }
  }

  lemma {:induction false} NoLeavers(t: seq<Slot>, leaving: seq<bool>, n: nat)
    requires n <= |t| == |leaving| && forall j :: n <= j < |t| ==> !Taken(t[j])
    ensures Leavers(t, leaving) == Leavers(t[..n], leaving[..n])
  {
    if n < |t| {
      var i := |t| - 1;
      NoLeavers(t[..i], leaving[..i], n);
      assert t[..i][..n] == t[..n] && leaving[..i][..n] == leaving[..n];
    } else {
      assert t[..n] == t && leaving[..n] == leaving;
    }
  }

  /** When all had their turn, or nobody is left, every leaver's socket was closed, in slot order. */
  lemma LeaversLeft(turns: seq<Turn>, leaving: seq<bool>, closed: seq<int>)
    requires TurnsOf(turns, leaving, closed) && 0 < |turns| && |turns[|turns| - 1].table| == |leaving|
    requires turns[|turns| - 1].closed == |closed| && |turns[0].table| == |leaving|
    requires |turns| <= |leaving| ==> Occupied(turns[|turns| - 1].table) == 0
    ensures Within(Leavers(turns[0].table, leaving), closed, turns[0].closed)
  {
    var n, t := |turns| - 1, turns[0].table;
    LeaversUpTo(turns, leaving, closed, n);
    assert closed[..|closed|] == closed;
    OccupiedBound(turns[n].table);
    forall j | n <= j < |t|
      ensures !Taken(t[j])
    {
      if Taken(t[j]) {
        HeldUntilTurn(turns, leaving, closed, n, j);
      }
    }
    NoLeavers(t, leaving, n);
  }

  /** Who had no turn yet, or did not leave, is where he was. */
  ghost predicate Stays(t: seq<Slot>, u: seq<Slot>, leaving: seq<bool>, n: nat)
    requires |leaving| == |t| == |u|
  {
    forall j :: 0 <= j < |t| && Taken(t[j]) && !(j < n && leaving[j]) ==> u[j] == t[j]
  }

  lemma NobodyTurned(t: seq<Slot>, leaving: seq<bool>)
    requires |leaving| == |t|
    ensures Stays(t, t, leaving, 0) && Remaining(t, leaving, 0) == t
  {
  }

  lemma RemainingNext(t: seq<Slot>, leaving: seq<bool>, n: nat)
    requires |leaving| == |t| && n < |t|
    ensures Remaining(t, leaving, n + 1) ==
            if leaving[n] then Remaining(t, leaving, n)[n := FREE] else Remaining(t, leaving, n)
  {
  }

  lemma StaysNext(t: seq<Slot>, u: seq<Slot>, v: seq<Slot>, leaving: seq<bool>, n: nat)
    requires |leaving| == |t| == |u| == |v| && n < |t| && Stays(t, u, leaving, n)
    requires if leaving[n] then Extends(u[n := FREE], v) else v == u
    ensures Stays(t, v, leaving, n + 1)
  {
    forall j | 0 <= j < |t| && Taken(t[j]) && !(j < n + 1 && leaving[j])
      ensures v[j] == t[j]
    {
      assert u[j] == t[j];
      assert leaving[n] ==> u[n := FREE][j] == u[j];
    }
  }

  /** The turns so far, from the table t to the table u. */
  ghost predicate Story(turns: seq<Turn>, leaving: seq<bool>, t: seq<Slot>, from: nat, u: seq<Slot>, closed: seq<int>, i: nat) {
    && |t| == |u| == |leaving| && i <= |leaving| && |turns| == i + 1 && TurnsOf(turns, leaving, closed)
    && turns[0] == Turn(t, from) && turns[i] == Turn(u, |closed|) && Stays(t, u, leaving, i)
  }

  lemma StoryBegins(t: seq<Slot>, leaving: seq<bool>, closed: seq<int>)
    requires |t| == |leaving|
    ensures Story([Turn(t, |closed|)], leaving, t, |closed|, t, closed, 0)
  {
    NobodyTurned(t, leaving);
    FirstTurn([Turn(t, |closed|)], leaving, closed);
  }

  lemma StoryGoesOn(turns: seq<Turn>, leaving: seq<bool>, t: seq<Slot>, from: nat, u: seq<Slot>, before: seq<int>,
                    v: seq<Slot>, closed: seq<int>, i: nat)
    requires Story(turns, leaving, t, from, u, before, i) && i < |leaving| && |v| == |leaving|
    requires if leaving[i] && Taken(u[i]) then before + [u[i].sock] <= closed else closed == before && v == u
    requires leaving[i] ==> Extends(u[i := FREE], v)
    ensures Story(turns + [Turn(v, |closed|)], leaving, t, from, v, closed, i + 1)
  {
    hide TurnsOf, Stays, Extends;
    OneMoreTurn(turns, leaving, before, closed, v);
    StaysNext(t, u, v, leaving, i);
  }

  /** What the whole story says, when all had their turn or nobody is left. */
  lemma StoryEnds(turns: seq<Turn>, leaving: seq<bool>, t: seq<Slot>, from: nat, u: seq<Slot>, closed: seq<int>, i: nat)
    requires Story(turns, leaving, t, from, u, closed, i) && Consistent(t) && (i == |t| || Occupied(u) == 0)
    ensures |turns| == i + 1 && TurnsOf(turns, leaving, closed)
    ensures turns[0] == Turn(t, from) && turns[i] == Turn(u, |closed|)
    ensures forall j :: 0 <= j < |t| && Taken(t[j]) && !leaving[j] ==> u[j] == t[j]
    ensures Remaining(t, leaving, i) == Remaining(t, leaving, |t|)
    ensures Within(Leavers(t, leaving), closed, from)
  {
    hide TurnsOf, Within, Leavers, Consistent, Occupied;
    LeaversLeft(turns, leaving, closed);
    if i < |t| {
      AllLeft(t, u, leaving, i);
    }
  }

  /** With nobody left, nobody is left to have a turn. */
  lemma AllLeft(t: seq<Slot>, u: seq<Slot>, leaving: seq<bool>, n: nat)
    requires |leaving| == |t| == |u| && n <= |t| && Consistent(t) && Stays(t, u, leaving, n) && Occupied(u) == 0
    ensures forall i :: 0 <= i < |t| && Taken(t[i]) && !leaving[i] ==> u[i] == t[i]
    ensures Remaining(t, leaving, n) == Remaining(t, leaving, |t|)
  {
    OccupiedBound(u);
    FreeSlots(t);
    forall j | 0 <= j < |t|
      ensures Remaining(t, leaving, n)[j] == Remaining(t, leaving, |t|)[j]
    {
    }
  }

  lemma FreeSlots(t: seq<Slot>)
    requires Consistent(t)
    ensures forall i :: 0 <= i < |t| && !Taken(t[i]) ==> t[i] == FREE
    ensures Occupied(t) == 0 <==> forall i :: 0 <= i < |t| ==> !Taken(t[i])
  {
    OccupiedBound(t);
  }
}
