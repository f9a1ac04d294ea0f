/** The recursive search for neighbours as a value: whom each level asks, and what its round brings. */
module Crawls {
  import opened Basics
  import opened Wire
  import opened SearchRules
  import opened Membership

  const JOIN_MAX_ATTEMPTS: int := 5

  // ----- One round -----

  /** The advertised endpoints that were not taken for one's own. */
  function Others(list: seq<Endpoint>, mine: seq<bool>): (r: seq<Endpoint>)
    requires |mine| == |list|
    ensures |r| <= |list| && forall e :: e in r ==> e in list
  {
    if list == [] then []
    else
      var n := |list| - 1;
      Others(list[..n], mine[..n]) + if mine[n] then [] else [list[n]]
  }

  lemma OthersSnoc(list: seq<Endpoint>, mine: seq<bool>, e: Endpoint, m: bool)
    requires |mine| == |list|
    ensures Others(list + [e], mine + [m]) == Others(list, mine) + if m then [] else [e]
  {
    assert (list + [e])[..|list|] == list && (mine + [m])[..|list|] == mine;
  }

  /** The contact is asked to join as well, unless its list was full. */
  function ContactToo(contact: Endpoint, list: seq<Endpoint>): seq<Endpoint> {
    if |list| < MAX_NEIGHBOURS then [contact] else []
  }

  /** What one round of `join_network_through` went through: the list read, who became known, who replied. */
  datatype Round = Round(list: Option<seq<Endpoint>>, known: seq<Endpoint>, replies: seq<Reply>)

  /**
   * The round made known whom the contact advertised, less oneself, and the contact unless its list was
   * full; the replies came on at most as many new sockets.
   */
  ghost predicate RoundOf(round: Round, contact: Endpoint, t: seq<Slot>) {
    && |round.replies| <= |round.known| <= MAX_NEIGHBOURS && DistinctSockets(round.replies)
    && (forall r :: r in round.replies ==> r.sock !in Sockets(t))
    && match round.list
       case None => round.known == [] && round.replies == []
       case Some(list) =>
         && |list| <= MAX_NEIGHBOURS
         && exists mine: seq<bool> :: |mine| == |list| &&
              round.known == Others(list, mine) + ContactToo(contact, list)
  }

  lemma RoundIsOf(round: Round, contact: Endpoint, t: seq<Slot>, mine: seq<bool>)
    requires |round.replies| <= |round.known| && DistinctSockets(round.replies)
    requires forall r :: r in round.replies ==> r.sock !in Sockets(t)
    requires round.list.Some? && |round.list.value| <= MAX_NEIGHBOURS && |mine| == |round.list.value|
    requires round.known == Others(round.list.value, mine) + ContactToo(contact, round.list.value)
    ensures RoundOf(round, contact, t)
  {
  }

  /** Slots once taken are left alone. */
  ghost predicate Extends(t: seq<Slot>, u: seq<Slot>) {
    |t| == |u| && forall i :: 0 <= i < |t| && Taken(t[i]) ==> u[i] == t[i]
  }

  lemma ExtendsTransitive(t: seq<Slot>, u: seq<Slot>, v: seq<Slot>)
    requires Extends(t, u) && Extends(u, v)
    ensures Extends(t, v) && Sockets(t) <= Sockets(u) <= Sockets(v)
  {
    ExtendsKeepsSockets(t, u);
    ExtendsKeepsSockets(u, v);
  }

  lemma ExtendsKeepsSockets(t: seq<Slot>, u: seq<Slot>)
    requires Extends(t, u)
    ensures Sockets(t) <= Sockets(u)
  {
    forall s | s in t && Taken(s)
      ensures s in u
    {
      var i :| 0 <= i < |t| && t[i] == s;
      assert u[i] == s;
    }
  }

  lemma {:induction false} AbsorbExtends(t: seq<Slot>, replies: seq<Reply>)
    ensures Extends(t, Absorb(t, replies))
    decreases |replies|
  {
    if replies != [] {
      AbsorbExtends(t, replies[..|replies| - 1]);
    }
  }

  lemma FirstRoundHeld(t: seq<Slot>, round: Round, contact: Endpoint)
    requires |t| == MAX_NEIGHBOURS && Consistent(t) && RoundOf(round, contact, t)
    ensures Occupied(t) == 0 ==> Sockets(Absorb(t, round.replies)) == YesSockets(round.replies)
  {
    if Occupied(t) == 0 {
      FirstRoundAgrees(t, round.replies);
    }
  }

  // ----- The recursion -----

  /** How many servents are asked for their neighbours after a round. */
  function Deeper(t: seq<Slot>, round: Round, attempts: int): nat {
    if attempts > 0 && round.list.Some? && |round.list.value| > 0 && Occupied(Absorb(t, round.replies)) < MIN_NEIGHBOURS
    then |round.known|
    else 0
  }

  /** `join_network_through`: a round with the contact, and then the same with servents made known. */
  datatype Crawl = Crawl(contact: Endpoint, round: Round, deeper: seq<Crawl>)

  /** The table after the round and the first `i` deeper crawls. */
  function TableAt(t: seq<Slot>, c: Crawl, i: nat): seq<Slot>
    requires i <= |c.deeper|
    decreases c, i
  {
    if i == 0 then Absorb(t, c.round.replies) else Outcome(TableAt(t, c, i - 1), c.deeper[i - 1])
  }

  function Outcome(t: seq<Slot>, c: Crawl): seq<Slot>
    decreases c, |c.deeper| + 1
  {
    TableAt(t, c, |c.deeper|)
  }

  /** Who has been asked for neighbours, after the first `i` deeper crawls. */
  function AskedUpTo(c: Crawl, i: nat): seq<Endpoint>
    requires i <= |c.deeper|
    decreases c, i
  {
    if i == 0 then [c.contact] else AskedUpTo(c, i - 1) + Asked(c.deeper[i - 1])
  }

  function Asked(c: Crawl): seq<Endpoint>
    decreases c, |c.deeper| + 1
  {
    AskedUpTo(c, |c.deeper|)
  }

  /** The code crawls like this from the table t, with `attempts` levels to go. */
  ghost predicate CrawlOf(t: seq<Slot>, c: Crawl, attempts: int)
    decreases c, 1
  {
    && RoundOf(c.round, c.contact, t) && |c.deeper| == Deeper(t, c.round, attempts)
    && Chained(t, c, c.round.known[..|c.deeper|], attempts - 1)
  }

  /** The deeper crawls go through the endpoints of `known`, each from the table the one before has left. */
  ghost predicate Chained(t: seq<Slot>, c: Crawl, known: seq<Endpoint>, attempts: int)
    decreases c, 0
  {
    && |c.deeper| == |known|
    && forall i :: 0 <= i < |c.deeper| ==>
         c.deeper[i].contact == known[i] && CrawlOf(TableAt(t, c, i), c.deeper[i], attempts)
  }

  function More(c: Crawl, d: Crawl): Crawl {
    Crawl(c.contact, c.round, c.deeper + [d])
  }

  lemma {:induction false} MoreBefore(t: seq<Slot>, c: Crawl, d: Crawl, i: nat)
    requires i <= |c.deeper|
    ensures TableAt(t, More(c, d), i) == TableAt(t, c, i) && AskedUpTo(More(c, d), i) == AskedUpTo(c, i)
  {
    if i > 0 {
      MoreBefore(t, c, d, i - 1);
      assert More(c, d).deeper[i - 1] == c.deeper[i - 1];
    }
  }

  lemma MoreOutcome(t: seq<Slot>, c: Crawl, d: Crawl)
    ensures Outcome(t, More(c, d)) == Outcome(Outcome(t, c), d) && Asked(More(c, d)) == Asked(c) + Asked(d)
  {
    MoreBefore(t, c, d, |c.deeper|);
    assert More(c, d).deeper[|c.deeper|] == d;
  }

  lemma ChainIs(t: seq<Slot>, c: Crawl, known: seq<Endpoint>, attempts: int)
    ensures Chained(t, c, known, attempts) <==>
            |c.deeper| == |known| && forall i :: 0 <= i < |c.deeper| ==> IsLink(t, c, i, known[i], attempts)
  {
    hide TableAt, CrawlOf;
  }

  ghost predicate IsLink(t: seq<Slot>, c: Crawl, i: nat, contact: Endpoint, attempts: int)
    requires i < |c.deeper|
  {
    c.deeper[i].contact == contact && CrawlOf(TableAt(t, c, i), c.deeper[i], attempts)
  }

  lemma LinkStays(t: seq<Slot>, c: Crawl, d: Crawl, i: nat, contact: Endpoint, attempts: int)
    requires i < |c.deeper| && IsLink(t, c, i, contact, attempts)
    ensures IsLink(t, More(c, d), i, contact, attempts)
  {
    MoreBefore(t, c, d, i);
    hide TableAt, CrawlOf;
  }

  lemma LastLink(t: seq<Slot>, c: Crawl, d: Crawl, attempts: int)
    requires CrawlOf(Outcome(t, c), d, attempts)
    ensures IsLink(t, More(c, d), |c.deeper|, d.contact, attempts)
  {
    MoreBefore(t, c, d, |c.deeper|);
    hide TableAt, CrawlOf;
  }

  lemma ChainGrows(t: seq<Slot>, c: Crawl, known: seq<Endpoint>, d: Crawl, attempts: int)
    requires Chained(t, c, known, attempts) && CrawlOf(Outcome(t, c), d, attempts)
    ensures Chained(t, More(c, d), known + [d.contact], attempts)
  {
    hide Chained, CrawlOf, TableAt, Outcome, IsLink;
    ChainIs(t, c, known, attempts);
    ChainIs(t, More(c, d), known + [d.contact], attempts);
    LastLink(t, c, d, attempts);
    forall i | 0 <= i < |c.deeper|
      ensures IsLink(t, More(c, d), i, known[i], attempts)
    {
      LinkStays(t, c, d, i, known[i], attempts);
    }
  }

  lemma NothingDeeper(t: seq<Slot>, contact: Endpoint, round: Round, attempts: int)
    ensures var c := Crawl(contact, round, []);
            Chained(t, c, [], attempts) && Outcome(t, c) == Absorb(t, round.replies) && Asked(c) == [contact]
  {
  }

  lemma RoundThenDeeper(t: seq<Slot>, c: Crawl, attempts: int)
    requires attempts >= 0 && RoundOf(c.round, c.contact, t)
    requires var list := c.round.list;
             var known := if list.Some? && |list.value| > 0 && Occupied(Absorb(t, c.round.replies)) < MIN_NEIGHBOURS &&
                             attempts > 0 then c.round.known else [];
             Chained(t, c, known, attempts - 1)
    ensures CrawlOf(t, c, attempts)
  {
    assert c.round.known[..|c.round.known|] == c.round.known;
    hide RoundOf, Absorb, Occupied, TableAt;
  }

  // ----- What a crawl keeps -----

  /** Where the first contact gave no list, nothing happens. */
  lemma NobodyAnswered(t: seq<Slot>, c: Crawl)
    ensures c.round.list.None? && RoundOf(c.round, c.contact, t) && c.deeper == [] ==> Outcome(t, c) == t
  {
  }

  lemma {:induction false} TablesExtend(t: seq<Slot>, c: Crawl, i: nat)
    requires i <= |c.deeper|
    ensures Extends(Absorb(t, c.round.replies), TableAt(t, c, i)) && Extends(t, TableAt(t, c, i))
    decreases c, i
  {
    AbsorbExtends(t, c.round.replies);
    if i > 0 {
      TablesExtend(t, c, i - 1);
      var u, d := TableAt(t, c, i - 1), c.deeper[i - 1];
      TablesExtend(u, d, |d.deeper|);
      ExtendsTransitive(Absorb(t, c.round.replies), u, Outcome(u, d));
      ExtendsTransitive(t, u, Outcome(u, d));
    }
  }

  /** A crawl disturbs no neighbour. */
  lemma CrawlExtends(t: seq<Slot>, c: Crawl)
    ensures Extends(t, Outcome(t, c)) && Extends(Absorb(t, c.round.replies), Outcome(t, c))
  {
    TablesExtend(t, c, |c.deeper|);
  }

  // ----- How far the search for neighbours can go -----

  /** The most CMSG_NEIGHBOURS that `attempts` levels can send. */
  function CrawlBound(attempts: int): nat
    decreases attempts + 1
  {
    if attempts < 0 then 0 else 1 + MAX_NEIGHBOURS * CrawlBound(attempts - 1)
  }

  function Power(base: nat, exponent: nat): nat {
    if exponent == 0 then 1 else base * Power(base, exponent - 1)
  }

  /** The bound is the geometric sum 1 + 5 + ... + 5^attempts. */
  lemma {:induction false} CrawlBoundClosed(attempts: nat)
    ensures (MAX_NEIGHBOURS - 1) * CrawlBound(attempts) + 1 == Power(MAX_NEIGHBOURS, attempts + 1)
  {
    if attempts > 0 {
      CrawlBoundClosed(attempts - 1);
    } else {
      assert Power(MAX_NEIGHBOURS, 0) == 1;
    }
  }

  /** One top-level join sends at most 3906 requests for neighbours. */
  lemma TopLevelCrawl()
    ensures CrawlBound(JOIN_MAX_ATTEMPTS) == 3906
  {
    assert CrawlBound(0) == 1 && CrawlBound(1) == 6 && CrawlBound(2) == 31;
    assert CrawlBound(3) == 156 && CrawlBound(4) == 781;
  }

  lemma {:induction false} AskedBound(t: seq<Slot>, c: Crawl, attempts: int, i: nat)
    requires attempts >= 0 && CrawlOf(t, c, attempts) && i <= |c.deeper|
    ensures |AskedUpTo(c, i)| <= 1 + i * CrawlBound(attempts - 1)
    decreases c, i
  {
    if i > 0 {
      var d, bound := c.deeper[i - 1], CrawlBound(attempts - 1);
      AskedBound(t, c, attempts, i - 1);
      assert CrawlOf(TableAt(t, c, i - 1), d, attempts - 1);
      AskedBound(TableAt(t, c, i - 1), d, attempts - 1, |d.deeper|);
      WholeBound(TableAt(t, c, i - 1), d, attempts - 1);
      assert i * bound == (i - 1) * bound + bound;
    }
  }

  lemma WholeBound(t: seq<Slot>, c: Crawl, attempts: int)
    requires attempts >= 0 && CrawlOf(t, c, attempts)
    requires |Asked(c)| <= 1 + |c.deeper| * CrawlBound(attempts - 1)
    ensures |Asked(c)| <= CrawlBound(attempts)
  {
    var bound := CrawlBound(attempts - 1);
    assert |c.deeper| * bound <= MAX_NEIGHBOURS * bound;
  }

  /** A crawl asks at most as many servents for their neighbours as its levels allow. */
  lemma CrawlIsBounded(t: seq<Slot>, c: Crawl, attempts: int)
    requires attempts >= 0 && CrawlOf(t, c, attempts)
    ensures |Asked(c)| <= CrawlBound(attempts)
  {
    AskedBound(t, c, attempts, |c.deeper|);
    WholeBound(t, c, attempts);
  }

  // ----- When a crawl stops -----

  /**
   * After its round a crawl goes on through everybody made known exactly when levels are left, the contact
   * had somebody to advertise, and at most one neighbour is held.
   */
  lemma DeeperExact(t: seq<Slot>, c: Crawl, attempts: int)
    requires CrawlOf(t, c, attempts)
    ensures |c.deeper| ==
            if attempts > 0 && c.round.list.Some? && c.round.list.value != [] && Occupied(Absorb(t, c.round.replies)) <= 1
            then |c.round.known| else 0
    ensures forall i :: 0 <= i < |c.deeper| ==> c.deeper[i].contact == c.round.known[i]
  {
    hide RoundOf, Absorb, Occupied, TableAt;
    ChainIs(t, c, c.round.known[..|c.deeper|], attempts - 1);
  }

  /** Nobody is asked for neighbours, after the first contact, once there are enough of them. */
  predicate StopsInTime(t: seq<Slot>, c: Crawl)
    decreases c
  {
    forall i :: 0 <= i < |c.deeper| ==>
      Occupied(TableAt(t, c, i)) < MIN_NEIGHBOURS && StopsInTime(TableAt(t, c, i), c.deeper[i])
  }

  lemma {:induction false} BeyondAll(t: seq<Slot>) returns (sock: nat)
    ensures forall s :: s in Sockets(t) ==> s < sock
  {
    if t == [] {
      sock := 0;
    } else {
      sock := BeyondAll(t[1..]);
      if sock <= t[0].sock {
        sock := t[0].sock + 1;
      }
      forall s | s in Sockets(t)
        ensures s < sock
      {
        var slot :| slot in t && Taken(slot) && slot.sock == s;
        if slot != t[0] {
          assert slot in t[1..] && s in Sockets(t[1..]);
        }
      }
    }
  }

  /** Nobody accepts in this round. */
  function Barren(contact: Endpoint, e: Endpoint): Round {
    Round(Some([e]), [e, contact], [])
  }

  /** Two do in this one. */
  function Fruitful(contact: Endpoint, e: Endpoint, sock: nat): Round {
    Round(Some([e]), [e, contact], [Reply(sock, true, []), Reply(sock + 1, true, [])])
  }

  /** The second endpoint made known is asked, although the first has brought two neighbours. */
  function Overdone(contact: Endpoint, e: Endpoint, sock: nat): Crawl {
    Crawl(contact, Barren(contact, e), [Crawl(e, Fruitful(e, contact, sock), []), Crawl(contact, Round(None, [], []), [])])
  }

  lemma KnownOfOne(contact: Endpoint, e: Endpoint)
    ensures Others([e], [false]) + ContactToo(contact, [e]) == [e, contact]
  {
    OthersSnoc([], [], e, false);
    assert [] + [e] == [e] && [] + [false] == [false];
  }

  lemma BarrenIsRound(t: seq<Slot>, contact: Endpoint, e: Endpoint)
    ensures RoundOf(Barren(contact, e), contact, t) && Absorb(t, Barren(contact, e).replies) == t
  {
    KnownOfOne(contact, e);
    RoundIsOf(Barren(contact, e), contact, t, [false]);
  }

  lemma {:induction false} FruitfulIsRound(t: seq<Slot>, contact: Endpoint, e: Endpoint, sock: nat)
    requires Consistent(t) && |t| >= 3 && Occupied(t) < MIN_NEIGHBOURS && forall s :: s in Sockets(t) ==> s < sock
    ensures RoundOf(Fruitful(contact, e, sock), contact, t)
    ensures Occupied(Absorb(t, Fruitful(contact, e, sock).replies)) >= MIN_NEIGHBOURS
  {
    var replies := Fruitful(contact, e, sock).replies;
    KnownOfOne(contact, e);
    RoundIsOf(Fruitful(contact, e, sock), contact, t, [false]);
    assert replies[..1][..0] == [] && YesCount(replies[..1]) == 1;
    assert YesCount(replies) == 2;
    AbsorbExact(t, replies);
  }

  lemma OverdoneIsCrawl(t: seq<Slot>, contact: Endpoint, e: Endpoint, sock: nat, attempts: int)
    requires Consistent(t) && |t| >= 3 && Occupied(t) < MIN_NEIGHBOURS && forall s :: s in Sockets(t) ==> s < sock
    requires attempts > 0
    ensures CrawlOf(t, Overdone(contact, e, sock), attempts) && !StopsInTime(t, Overdone(contact, e, sock))
  {
    var c := Overdone(contact, e, sock);
    BarrenIsRound(t, contact, e);
    FruitfulIsRound(t, e, contact, sock);
    hide RoundOf, Absorb, Occupied, Consistent, Sockets;
    assert TableAt(t, c, 0) == t;
    NothingDeeper(t, e, c.deeper[0].round, attempts - 1);
    assert CrawlOf(t, c.deeper[0], attempts - 1);
    var u := TableAt(t, c, 1);
    FruitlessIsRound(u, contact);
    assert CrawlOf(u, c.deeper[1], attempts - 1);
  }

  lemma FruitlessIsRound(t: seq<Slot>, contact: Endpoint)
    ensures RoundOf(Round(None, [], []), contact, t)
  {
  }

  /**
   * The recursion is said to stop as soon as there are two neighbours, MIN_NEIGHBOURS. It does so on every
   * crawl from this table if and only if there are no levels to go or there are enough neighbours to begin
   * with: otherwise the first servent asked in the loop can bring them, and the next is asked all the same.
   */
  lemma StopExact(t: seq<Slot>, contact: Endpoint, attempts: int)
    requires |t| == MAX_NEIGHBOURS && Consistent(t) && attempts >= 0
    ensures (forall c :: CrawlOf(t, c, attempts) && c.contact == contact ==> StopsInTime(t, c)) <==>
            (attempts == 0 || Occupied(t) >= 2)
  {
    if attempts == 0 || Occupied(t) >= 2 {
      forall c | CrawlOf(t, c, attempts) && c.contact == contact
        ensures StopsInTime(t, c)
      {
        AbsorbExact(t, c.round.replies);
        hide StopsInTime, Absorb, Occupied;
        NoLoop(t, c);
      }
    } else {
      var sock := BeyondAll(t);
      OverdoneIsCrawl(t, contact, contact, sock, attempts);
    }
  }

  lemma NoLoop(t: seq<Slot>, c: Crawl)
    requires c.deeper == []
    ensures StopsInTime(t, c)
  {
  }
}
