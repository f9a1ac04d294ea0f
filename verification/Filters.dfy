/**
 * The loops that pick from a list or a table, and what they pick: each is the stable filter of the list
 * loops, whose order `Lists.KeptInOrder` gives.
 */
module Filters {
  import opened Basics
  import opened Wire
  import opened SearchRules
  import opened Membership
  import Lists
  import Sending
  import Crawls
  import Overlay

  /** A packet is meant for the sockets in use that are not its source's. */
  lemma {:induction false} WantedIsFilter(socks: seq<int>, source: int, keep: seq<bool>)
    requires |keep| == |socks| && forall i :: 0 <= i < |socks| ==> (keep[i] <==> socks[i] != -1 && socks[i] != source)
    ensures Sending.Wanted(socks, source) == Lists.Kept(socks, keep)
  {
    if socks != [] {
      var n := |socks| - 1;
      WantedIsFilter(socks[..n], source, keep[..n]);
    }
  }

  /** The endpoints a contact makes known: those it advertised that are not one's own, and it itself behind a short list. */
  lemma {:induction false} KnownIsFilter(list: seq<Endpoint>, mine: seq<bool>, keep: seq<bool>, contact: Endpoint)
    requires |keep| == |mine| == |list| && forall i :: 0 <= i < |list| ==> (keep[i] <==> !mine[i])
    ensures Crawls.Others(list, mine) == Lists.Kept(list, keep)
    ensures Crawls.ContactToo(contact, list) == if |list| < 5 then [contact] else []
  {
    if list != [] {
      var n := |list| - 1;
      KnownIsFilter(list[..n], mine[..n], keep[..n], contact);
    }
  }

  lemma {:induction false} StrangersAreFilter(known: seq<Endpoint>, peers: set<Endpoint>, keep: seq<bool>)
    requires |keep| == |known| && forall i :: 0 <= i < |known| ==> (keep[i] <==> known[i] !in peers)
    ensures Overlay.Strangers(known, peers) == Lists.Kept(known, keep)
  {
    if known != [] {
      var n := |known| - 1;
      StrangersAreFilter(known[..n], peers, keep[..n]);
    }
  }

  /** Whom a round dials: the contact first, and then the known endpoints that are no neighbours. */
  lemma DialsAreFilter(contact: Endpoint, known: seq<Endpoint>, peers: set<Endpoint>, keep: seq<bool>)
    requires |keep| == |known| && forall i :: 0 <= i < |known| ==> (keep[i] <==> known[i] !in peers)
    ensures Overlay.RoundDials(contact, known, peers) == [contact] + Lists.Kept(known, keep)
  {
    StrangersAreFilter(known, peers, keep);
  }

  /** Who is advertised: the taken slots, by the address of the connection and the port to contact. */
  lemma {:induction false} AdvertisedIsFilter(t: seq<Slot>, peer: map<int, Endpoint>, keep: seq<bool>)
    requires |keep| == |t| && forall i :: 0 <= i < |t| ==> (keep[i] <==> t[i].sock != -1)
    requires forall i :: 0 <= i < |t| && keep[i] ==> t[i].sock >= 0 && t[i].sock in peer && t[i].port.Some?
    ensures var list, kept := Overlay.Advertised(t, peer), Lists.Kept(t, keep);
            && |list| == |kept|
            && forall i :: 0 <= i < |list| ==>
                 && kept[i].sock in peer && kept[i].port.Some?
                 && list[i] == Endpoint(peer[kept[i].sock].ip, kept[i].port.value)
  {
    if t != [] {
      var n := |t| - 1;
      AdvertisedIsFilter(t[..n], peer, keep[..n]);
    }
  }

  /** Whose sockets are closed when they leave. */
  lemma {:induction false} LeaversAreFilter(t: seq<Slot>, leaving: seq<bool>, keep: seq<bool>)
    requires |keep| == |leaving| == |t| && forall i :: 0 <= i < |t| ==> (keep[i] <==> leaving[i] && t[i].sock != -1)
    ensures var list, kept := Overlay.Leavers(t, leaving), Lists.Kept(t, keep);
            |list| == |kept| && forall i :: 0 <= i < |list| ==> list[i] == kept[i].sock
  {
    if t != [] {
      var n := |t| - 1;
      LeaversAreFilter(t[..n], leaving[..n], keep[..n]);
    }
  }

  /** The connections given up after a round: those of the servents that said no. */
  lemma {:induction false} RefusedIsFilter(replies: seq<Reply>, keep: seq<bool>)
    requires |keep| == |replies| && forall i :: 0 <= i < |replies| ==> (keep[i] <==> !replies[i].yes)
    ensures var list, kept := Overlay.Refused(replies), Lists.Kept(replies, keep);
            |list| == |kept| && forall i :: 0 <= i < |list| ==> list[i] == kept[i].sock
  {
    if replies != [] {
      var n := |replies| - 1;
      RefusedIsFilter(replies[..n], keep[..n]);
    }
  }
}
