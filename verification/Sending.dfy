/** Whom a packet of the search is sent to: the sockets it is meant for, and those the code hands on. */
module Sending {
  import opened SearchRules

  predicate Chosen(sock: int, source: int) {
    sock != NO_SOCKET && sock != source
  }

  /** The sockets an answer or relay is meant for, in slot order. */
  function Wanted(socks: seq<int>, source: int): seq<int> {
    if socks == [] then []
    else
      var n := |socks| - 1;
      Wanted(socks[..n], source) + if Chosen(socks[n], source) then [socks[n]] else []
  }

  /**
   * The array the code fills: a chosen socket goes to the index of its *slot*, and the other elements stay
   * what `malloc` left there.
   */
  function Scattered(socks: seq<int>, source: int, uninit: seq<int>): (r: seq<int>)
    requires |uninit| == |socks|
    ensures |r| == |socks|
  {
    seq(|socks|, i requires 0 <= i < |socks| => if Chosen(socks[i], source) then socks[i] else uninit[i])
  }

  /** ... of which as many elements are used as sockets were chosen. */
  function Recipients(socks: seq<int>, source: int, uninit: seq<int>): seq<int>
    requires |uninit| == |socks|
  {
    WantedNotMore(socks, source);
    Scattered(socks, source, uninit)[..|Wanted(socks, source)|]
  }

  /** No slot that is passed over comes before a chosen one. */
  predicate ChosenFirst(socks: seq<int>, source: int) {
    forall i, j :: 0 <= i < j < |socks| && Chosen(socks[j], source) ==> Chosen(socks[i], source)
  }

  lemma {:induction false} WantedNotMore(socks: seq<int>, source: int)
    ensures |Wanted(socks, source)| <= |socks|
  {
    if socks != [] {
      WantedNotMore(socks[..|socks| - 1], source);
    }
  }

  lemma {:induction false} WantedIsPrefix(socks: seq<int>, source: int)
    requires ChosenFirst(socks, source)
    ensures |Wanted(socks, source)| <= |socks| && Wanted(socks, source) == socks[..|Wanted(socks, source)|]
    ensures forall i :: 0 <= i < |socks| ==> (Chosen(socks[i], source) <==> i < |Wanted(socks, source)|)
  {
    if socks != [] {
      var n := |socks| - 1;
      assert ChosenFirst(socks[..n], source);
      WantedIsPrefix(socks[..n], source);
      assert socks == socks[..n] + [socks[n]];
      forall i | 0 <= i < n
        ensures socks[i] == socks[..n][i]
      {
      }
    }
  }

  lemma {:induction false} WantedAreChosen(socks: seq<int>, source: int)
    ensures forall s :: s in Wanted(socks, source) <==> s in socks && Chosen(s, source)
  {
    if socks != [] {
      var n := |socks| - 1;
      WantedAreChosen(socks[..n], source);
      assert socks == socks[..n] + [socks[n]];
    }
  }

  /** A chosen slot behind `i` chosen or skipped ones counts beyond a skipped one. */
  lemma {:induction false} WantedCounts(socks: seq<int>, source: int, gap: nat)
    requires gap < |socks| && (forall i :: 0 <= i < gap ==> Chosen(socks[i], source))
    ensures |Wanted(socks, source)| >= gap
    ensures (exists j :: gap <= j < |socks| && Chosen(socks[j], source)) ==> |Wanted(socks, source)| > gap
    decreases |socks|
  {
    var n := |socks| - 1;
    if gap == n {
      assert ChosenFirst(socks[..n], source);
      WantedIsPrefix(socks[..n], source);
      assert forall i :: 0 <= i < n ==> Chosen(socks[..n][i], source);
    } else {
      WantedCounts(socks[..n], source, gap);
      if !Chosen(socks[n], source) {
        assert forall j :: gap <= j < n ==> socks[..n][j] == socks[j];
      }
    }
  }

  lemma {:induction false} FirstGap(socks: seq<int>, source: int, n: nat) returns (gap: nat)
    requires n <= |socks| && exists i :: 0 <= i < n && !Chosen(socks[i], source)
    ensures gap < n && !Chosen(socks[gap], source) && forall i :: 0 <= i < gap ==> Chosen(socks[i], source)
  {
    gap := 0;
    while Chosen(socks[gap], source)
      invariant gap < n && (forall i :: 0 <= i < gap ==> Chosen(socks[i], source))
      invariant exists i :: gap <= i < n && !Chosen(socks[i], source)
      decreases n - gap
    {
      gap := gap + 1;
    }
  }

  lemma RecipientsRight(socks: seq<int>, source: int, uninit: seq<int>)
    requires |uninit| == |socks| && ChosenFirst(socks, source)
    ensures Recipients(socks, source, uninit) == Wanted(socks, source)
  {
    WantedIsPrefix(socks, source);
  }

  function Unset(n: nat): (r: seq<int>)
    ensures |r| == n && forall i :: 0 <= i < n ==> r[i] == NO_SOCKET
  {
    seq(n, _ => NO_SOCKET)
  }

  lemma RecipientsWrong(socks: seq<int>, source: int)
    requires !ChosenFirst(socks, source)
    ensures Recipients(socks, source, Unset(|socks|)) != Wanted(socks, source)
  {
    var i, j :| 0 <= i < j < |socks| && Chosen(socks[j], source) && !Chosen(socks[i], source);
    var gap := FirstGap(socks, source, j);
    WantedCounts(socks, source, gap);
    WantedAreChosen(socks, source);
    WantedNotMore(socks, source);
    assert gap <= j < |socks| && Chosen(socks[j], source);
    assert |Wanted(socks, source)| > gap;
    var r := Recipients(socks, source, Unset(|socks|));
    assert r[gap] == NO_SOCKET && r[gap] in r;
  }

  /**
   * Exactly when the packet goes to the sockets it is meant for, each once and in order, whatever the
   * allocated array held before: the chosen slots must come before all others.
   */
  lemma RecipientsExact(socks: seq<int>, source: int)
    ensures (forall uninit: seq<int> :: |uninit| == |socks| ==> Recipients(socks, source, uninit) == Wanted(socks, source))
            <==> ChosenFirst(socks, source)
  {
    hide Recipients, Wanted, ChosenFirst;
    if ChosenFirst(socks, source) {
      forall uninit: seq<int> | |uninit| == |socks|
        ensures Recipients(socks, source, uninit) == Wanted(socks, source)
      {
        RecipientsRight(socks, source, uninit);
      }
    } else {
      RecipientsWrong(socks, source);
    }
  }

  lemma WantedStep(socks: seq<int>, source: int, i: nat)
    requires i < |socks|
    ensures Wanted(socks[..i + 1], source) ==
            if Chosen(socks[i], source) then Wanted(socks[..i], source) + [socks[i]] else Wanted(socks[..i], source)
  {
    assert socks[..i + 1][..i] == socks[..i];
  }

  /** Only what is written to a neighbour's socket gets to a servent. */
  function Delivered(socks: seq<int>, recipients: seq<int>): (r: seq<int>)
    ensures |r| <= |recipients| && forall s :: s in r <==> s in recipients && s in socks && s != NO_SOCKET
  {
    if recipients == [] then []
    else
      var n := |recipients| - 1;
      assert recipients == recipients[..n] + [recipients[n]];
      Delivered(socks, recipients[..n]) +
      if recipients[n] in socks && recipients[n] != NO_SOCKET then [recipients[n]] else []
  }

  lemma DeliveredSnoc(socks: seq<int>, recipients: seq<int>, last: int)
    ensures Delivered(socks, recipients + [last]) ==
            Delivered(socks, recipients) + if last in socks && last != NO_SOCKET then [last] else []
  {
    assert (recipients + [last])[..|recipients|] == recipients;
  }

  /** Whoever is meant is a neighbour. */
  lemma {:induction false} WantedDelivered(socks: seq<int>, source: int)
    ensures Delivered(socks, Wanted(socks, source)) == Wanted(socks, source)
  {
    WantedAreChosen(socks, source);
    AllDelivered(socks, Wanted(socks, source));
  }

  lemma {:induction false} AllDelivered(socks: seq<int>, recipients: seq<int>)
    requires forall s :: s in recipients ==> s in socks && s != NO_SOCKET
    ensures Delivered(socks, recipients) == recipients
  {
    if |recipients| > 0 {
      var n := |recipients| - 1;
      var before, last := recipients[..n], recipients[n];
      assert recipients == before + [last];
      assert last in recipients;
      DeliveredSnoc(socks, before, last);
      hide Delivered;
      forall s | s in before
        ensures s in socks && s != NO_SOCKET
      {
        assert s in recipients;
      }
      AllDelivered(socks, before);
    }
  }

  // ----- Who is sure to hear an answer -----

  /** Values the unset `source_sock` and the fresh array may have; `memory` is what unset memory may hold. */
  ghost predicate Garbage(socks: seq<int>, memory: iset<int>, source: int, uninit: seq<int>) {
    |uninit| == |socks| && source in memory && forall u :: u in uninit ==> u in memory
  }

  /** The recipients of an answer, as the code leaves the array. */
  ghost predicate CodeRecipients(socks: seq<int>, memory: iset<int>, to: seq<int>) {
    exists source: int, uninit: seq<int> ::
      Garbage(socks, memory, source, uninit) && to == Delivered(socks, Recipients(socks, source, uninit))
  }

  /** Whatever unset memory holds, the answer gets through to r. */
  ghost predicate Hears(socks: seq<int>, memory: iset<int>, r: int) {
    forall source, uninit :: Garbage(socks, memory, source, uninit) ==>
      r in Delivered(socks, Recipients(socks, source, uninit))
  }

  /** Unset memory holds something, but no socket in use. */
  ghost predicate Harmless(socks: seq<int>, memory: iset<int>) {
    && (exists g :: g in memory)
    && forall g :: g in memory && g != NO_SOCKET ==> g !in socks
  }

  /** No two slots hold the same socket. */
  predicate Simple(socks: seq<int>) {
    forall i, j :: 0 <= i < j < |socks| && socks[i] != NO_SOCKET ==> socks[i] != socks[j]
  }

  lemma {:induction false} WantedGap(socks: seq<int>, source: int, gap: nat)
    requires gap < |socks| && !Chosen(socks[gap], source)
    ensures |Wanted(socks, source)| < |socks|
  {
    var n := |socks| - 1;
    if gap < n {
      WantedGap(socks[..n], source, gap);
    } else {
      WantedNotMore(socks[..n], source);
    }
  }

  /** With a gap before the last chosen slot, that slot lies beyond the number of those chosen. */
  lemma {:induction false} LastIsBeyond(socks: seq<int>, source: int, gap: nat, last: nat)
    requires gap < last < |socks| && !Chosen(socks[gap], source)
    requires forall i :: last < i < |socks| ==> !Chosen(socks[i], source)
    ensures |Wanted(socks, source)| <= last
    decreases |socks|
  {
    var n := |socks| - 1;
    if last < n {
      LastIsBeyond(socks[..n], source, gap, last);
    } else {
      WantedGap(socks[..n], source, gap);
    }
  }

  lemma LastChosen(socks: seq<int>, source: int, j: nat) returns (last: nat)
    requires j < |socks| && Chosen(socks[j], source)
    ensures j <= last < |socks| && Chosen(socks[last], source)
    ensures forall i :: last < i < |socks| ==> !Chosen(socks[i], source)
  {
    last := j;
    for i := j + 1 to |socks|
      invariant j <= last < i && Chosen(socks[last], source)
      invariant forall k :: last < k < i ==> !Chosen(socks[k], source)
    {
      if Chosen(socks[i], source) {
        last := i;
      }
    }
  }

  lemma GaplessHears(socks: seq<int>, memory: iset<int>, r: int)
    requires Harmless(socks, memory) && ChosenFirst(socks, NO_SOCKET) && r in socks && r != NO_SOCKET
    ensures Hears(socks, memory, r)
  {
    forall source, uninit | Garbage(socks, memory, source, uninit)
      ensures r in Delivered(socks, Recipients(socks, source, uninit))
    {
      forall i | 0 <= i < |socks|
        ensures Chosen(socks[i], source) <==> Chosen(socks[i], NO_SOCKET)
      {
        assert socks[i] in socks;
      }
      hide Wanted, Recipients;
      RecipientsRight(socks, source, uninit);
      WantedAreChosen(socks, source);
    }
  }

  lemma GapDeafens(socks: seq<int>, memory: iset<int>) returns (r: int)
    requires Harmless(socks, memory) && Simple(socks) && !ChosenFirst(socks, NO_SOCKET)
    ensures r in socks && r != NO_SOCKET && !Hears(socks, memory, r)
  {
    var i, j :| 0 <= i < j < |socks| && Chosen(socks[j], NO_SOCKET) && !Chosen(socks[i], NO_SOCKET);
    var g :| g in memory;
    assert forall k :: 0 <= k < |socks| ==> socks[k] in socks;
    var last := LastChosen(socks, g, j);
    LastIsBeyond(socks, g, i, last);
    r := socks[last];
    var uninit := seq(|socks|, _ => g);
    assert Garbage(socks, memory, g, uninit);
    forall k | 0 <= k < |Wanted(socks, g)|
      ensures Recipients(socks, g, uninit)[k] != r
    {
      WantedNotMore(socks, g);
      assert socks[k] == r ==> k == last;
    }
  }

  /**
   * As long as unset memory never happens to hold a socket in use, every neighbour is sure to hear the
   * answers exactly when no free slot comes before a taken one.
   */
  lemma AllHearExact(socks: seq<int>, memory: iset<int>)
    requires Harmless(socks, memory) && Simple(socks)
    ensures (forall r :: r in socks && r != NO_SOCKET ==> Hears(socks, memory, r)) <==> ChosenFirst(socks, NO_SOCKET)
  {
    if ChosenFirst(socks, NO_SOCKET) {
      forall r | r in socks && r != NO_SOCKET
        ensures Hears(socks, memory, r)
      {
        GaplessHears(socks, memory, r);
      }
    } else {
      var r := GapDeafens(socks, memory);
    }
  }

  /** If the unset `source_sock` may be a neighbour's socket, that neighbour is not sure to hear. */
  lemma SourceIsDeaf(socks: seq<int>, memory: iset<int>, r: int)
    requires r in memory && NO_SOCKET in memory && r != NO_SOCKET
    ensures !Hears(socks, memory, r)
  {
    var uninit := Unset(|socks|);
    assert Garbage(socks, memory, r, uninit);
    assert forall x :: x in Recipients(socks, r, uninit) ==> x != r;
  }
}
