/** The table of neighbours as a value: what joining, accepting and leaving make of it. */
module Membership {
  import opened Basics
  import opened SearchRules

  const MIN_NEIGHBOURS: nat := 2

  /** `socket_contact_t` */
  datatype Slot = Slot(sock: int, port: Option<CString>)

  const FREE := Slot(NO_SOCKET, None)

  /** The answer to one join request: yes with the port to contact, or no. */
  datatype Reply = Reply(sock: int, yes: bool, port: CString)

  predicate Taken(s: Slot) {
    s.sock != NO_SOCKET
  }

  function Occupied(t: seq<Slot>): nat {
    if t == [] then 0 else (if Taken(t[0]) then 1 else 0) + Occupied(t[1..])
  }

  /** The number of free slots. */
  function Room(t: seq<Slot>): nat {
    OccupiedBound(t);
    |t| - Occupied(t)
  }

  function Sockets(t: seq<Slot>): set<int> {
    set s | s in t && Taken(s) :: s.sock
  }

  /** Occupied slots have distinct sockets, and exactly the occupied slots have a contact port. */
  predicate Consistent(t: seq<Slot>) {
    && (forall i, j :: 0 <= i < j < |t| && Taken(t[i]) && Taken(t[j]) ==> t[i].sock != t[j].sock)
    && (forall i :: 0 <= i < |t| ==> (Taken(t[i]) <==> t[i].port.Some?))
  }

  function FirstFree(t: seq<Slot>): (i: nat)
    ensures i <= |t|
    ensures i < |t| ==> !Taken(t[i])
    ensures forall j :: 0 <= j < i ==> Taken(t[j])
  {
    if t == [] || !Taken(t[0]) then 0 else 1 + FirstFree(t[1..])
  }

  /** `add_neighbour`: the first free slot, or nothing when there is none. */
  function Add(t: seq<Slot>, sock: int, port: CString): (r: seq<Slot>)
    ensures |r| == |t|
  {
    var i := FirstFree(t);
    if i == |t| then t else t[i := Slot(sock, Some(port))]
  }

  /** `handle_join_responses`: every yes is added in turn. */
  function Absorb(t: seq<Slot>, replies: seq<Reply>): (r: seq<Slot>)
    ensures |r| == |t|
    decreases |replies|
  {
    if replies == [] then t
    else
      var n := |replies| - 1;
      var before := Absorb(t, replies[..n]);
      if replies[n].yes then Add(before, replies[n].sock, replies[n].port) else before
  }

  function YesCount(replies: seq<Reply>): nat {
    if replies == [] then 0
    else
      var n := |replies| - 1;
      YesCount(replies[..n]) + if replies[n].yes then 1 else 0
  }

  /** The decision on CMSG_JOIN; `coin` is the toss taken when the request is not a rescue. */
  predicate Accepts(t: seq<Slot>, rescue: bool, coin: bool) {
    Occupied(t) < |t| && (rescue || coin)
  }

  // ----- Counting slots -----

  lemma {:induction false} OccupiedBound(t: seq<Slot>)
    ensures Occupied(t) <= |t|
    ensures Occupied(t) == |t| <==> FirstFree(t) == |t|
    ensures Occupied(t) == 0 <==> forall i :: 0 <= i < |t| ==> !Taken(t[i])
  {
    if t != [] {
      OccupiedBound(t[1..]);
      assert forall i :: 0 < i < |t| ==> t[i] == t[1..][i - 1];
    }
  }

  lemma {:induction false} OccupiedUpdate(t: seq<Slot>, i: nat, s: Slot)
    requires i < |t|
    ensures Occupied(t[i := s]) + (if Taken(t[i]) then 1 else 0) == Occupied(t) + if Taken(s) then 1 else 0
  {
    if i == 0 {
      assert t[i := s][1..] == t[1..];
    } else {
      assert t[i := s][1..] == t[1..][i - 1 := s];
      OccupiedUpdate(t[1..], i - 1, s);
    }
  }

  lemma SocketsUpdate(t: seq<Slot>, i: nat, s: Slot)
    requires i < |t| && Consistent(t)
    ensures Sockets(t[i := s]) == Sockets(t) - (if Taken(t[i]) then {t[i].sock} else {}) + if Taken(s) then {s.sock} else {}
  {
    var u := t[i := s];
    assert u[i] == s;
    forall x | x in t && x != t[i]
      ensures x in u
    {
      var j :| 0 <= j < |t| && t[j] == x;
      assert u[j] == x;
    }
    forall x | x in u && x != s
      ensures x in t && (Taken(x) ==> x.sock != t[i].sock)
    {
      var j :| 0 <= j < |u| && u[j] == x;
      assert t[j] == x;
    }
    if Taken(s) {
      assert s in u;
    }
  }

  // ----- What each operation keeps -----

  lemma ConsistentUpdate(t: seq<Slot>, i: nat, s: Slot)
    requires Consistent(t) && i < |t| && (Taken(s) <==> s.port.Some?) && (Taken(s) ==> s.sock !in Sockets(t))
    ensures Consistent(t[i := s])
  {
    forall j | 0 <= j < |t| && Taken(t[j]) && Taken(s)
      ensures t[j].sock != s.sock
    {
      assert t[j] in t;
    }
  }

  /** Adding a new socket keeps the table consistent and stores it exactly when a slot is free. */
  lemma {:induction false} AddExact(t: seq<Slot>, sock: int, port: CString)
    requires Consistent(t) && sock != NO_SOCKET && sock !in Sockets(t)
    ensures var r := Add(t, sock, port);
            && Consistent(r)
            && (Occupied(t) < |t| ==> Sockets(r) == Sockets(t) + {sock} && Occupied(r) == Occupied(t) + 1)
            && (Occupied(t) == |t| ==> r == t)
            && (sock in Sockets(r) <==> Occupied(t) < |t|)
  {
    OccupiedBound(t);
    var i, s := FirstFree(t), Slot(sock, Some(port));
    hide Consistent, Sockets, Occupied;
    if i < |t| {
      ConsistentUpdate(t, i, s);
      SocketsUpdate(t, i, s);
      OccupiedUpdate(t, i, s);
    }
  }

  /** A departure frees one slot and nothing else. */
  lemma LeaveExact(t: seq<Slot>, i: nat)
    requires Consistent(t) && i < |t| && Taken(t[i])
    ensures var r := t[i := FREE];
            Consistent(r) && Occupied(r) == Occupied(t) - 1 && Sockets(r) == Sockets(t) - {t[i].sock}
  {
    SocketsUpdate(t, i, FREE);
    OccupiedUpdate(t, i, FREE);
  }

  predicate DistinctSockets(replies: seq<Reply>) {
    && (forall i :: 0 <= i < |replies| ==> replies[i].sock != NO_SOCKET)
    && (forall i, j :: 0 <= i < j < |replies| ==> replies[i].sock != replies[j].sock)
  }

  /** The sockets of the first `room` replies that say yes. */
  function Admitted(replies: seq<Reply>, room: nat): set<int> {
    if replies == [] then {}
    else
      var n := |replies| - 1;
      var before := Admitted(replies[..n], room);
      if replies[n].yes && YesCount(replies[..n]) < room then before + {replies[n].sock} else before
  }

  function YesSockets(replies: seq<Reply>): set<int> {
    set r | r in replies && r.yes :: r.sock
  }

  lemma {:induction false} AdmittedAreYes(replies: seq<Reply>, room: nat)
    ensures Admitted(replies, room) <= YesSockets(replies)
  {
    if replies != [] {
      var n := |replies| - 1;
      AdmittedAreYes(replies[..n], room);
      assert replies == replies[..n] + [replies[n]];
    }
  }

  /**
   * Absorbing the replies to a round of joins fills the free slots with the first acceptors, in the order
   * the requests went out, and forgets the others.
   */
  lemma {:induction false} AbsorbExact(t: seq<Slot>, replies: seq<Reply>)
    requires Consistent(t) && DistinctSockets(replies)
    requires forall r :: r in replies ==> r.sock !in Sockets(t)
    ensures var u := Absorb(t, replies);
            && Consistent(u)
            && Sockets(u) == Sockets(t) + Admitted(replies, Room(t))
            && Occupied(u) == (if Occupied(t) + YesCount(replies) < |t| then Occupied(t) + YesCount(replies) else |t|)
    decreases |replies|
  {
    OccupiedBound(t);
    if replies != [] {
      var n := |replies| - 1;
      var before := Absorb(t, replies[..n]);
      AbsorbExact(t, replies[..n]);
      AdmittedAreYes(replies[..n], Room(t));
      assert replies[n] in replies;
      forall r | r in replies[..n]
        ensures r.sock != replies[n].sock
      {
      }
      if replies[n].yes {
        AddExact(before, replies[n].sock, replies[n].port);
      }
    }
  }

  lemma {:induction false} AllAdmitted(replies: seq<Reply>, room: nat)
    requires DistinctSockets(replies)
    ensures YesSockets(replies) <= Admitted(replies, room) <==> YesCount(replies) <= room
  {
    if replies != [] {
      var n := |replies| - 1;
      var earlier, last := replies[..n], replies[n];
      AllAdmitted(earlier, room);
      AdmittedAreYes(earlier, room);
      assert replies == earlier + [last];
      assert YesSockets(replies) == YesSockets(earlier) + if last.yes then {last.sock} else {};
      forall r | r in earlier
        ensures r.sock != last.sock
      {
      }
    }
  }

  /**
   * Join agreement, exactly: after a round of joins the joiner holds every servent that said yes - and so
   * holds the joiner - if and only if there were free slots for all of them.
   */
  lemma {:induction false} AgreementExact(t: seq<Slot>, replies: seq<Reply>)
    requires Consistent(t) && DistinctSockets(replies)
    requires forall r :: r in replies ==> r.sock !in Sockets(t)
    ensures YesSockets(replies) <= Sockets(Absorb(t, replies)) <==> Occupied(t) + YesCount(replies) <= |t|
  {
    OccupiedBound(t);
    AbsorbExact(t, replies);
    AllAdmitted(replies, Room(t));
    forall s | s in YesSockets(replies)
      ensures s !in Sockets(t)
    {
      var r :| r in replies && r.yes && r.sock == s;
    }
  }

  lemma {:induction false} YesBound(replies: seq<Reply>)
    ensures YesCount(replies) <= |replies|
  {
    if replies != [] {
      YesBound(replies[..|replies| - 1]);
    }
  }

  /** A first round has an empty table and at most MAX_NEIGHBOURS requests, so no acceptor is forgotten. */
  lemma {:induction false} FirstRoundAgrees(t: seq<Slot>, replies: seq<Reply>)
    requires |t| == MAX_NEIGHBOURS && Consistent(t) && Occupied(t) == 0
    requires DistinctSockets(replies) && |replies| <= MAX_NEIGHBOURS
    ensures Sockets(Absorb(t, replies)) == YesSockets(replies)
  {
    OccupiedBound(t);
    YesBound(replies);
    assert Sockets(t) == {};
    AbsorbExact(t, replies);
    AgreementExact(t, replies);
    AdmittedAreYes(replies, Room(t));
  }
}
