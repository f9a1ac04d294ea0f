/** The network model sends what the search handlers write, and delivers what they read. */
module FloodRefinement {
  import opened Basics
  import opened Wire
  import opened SearchRules
  import opened Sending
  import opened Flood
  import opened FloodLaws
  import opened FloodPolicies
  import SearchHandlers

  /** What the handler of the oldest request writes, by the contracts of the search handlers. */
  function Written(node: Node): Packet
    requires node.pending != []
  {
    match node.pending[0]
    case LocalSearch(file) => SearchHandlers.LocalPacket(node.self, file, file in node.files)
    case RemoteSearch(_, req) =>
      if node.self.ip == req.source.ip then IntSearchAnswer(req.file, req.found)
      else Rebuilt(req, node.self, CodeAnswers(node.log, req), CodeUnique(node.log, req) && req.file in node.files)
  }

  /** The packets between servents, as they are written to sockets. */
  function SentOf(flights: seq<Flight>): (r: seq<SearchHandlers.Sent>)
    ensures |r| == |flights|
    ensures forall i :: 0 <= i < |r| ==> r[i] == SearchHandlers.Sent(flights[i].dst, Encode(PacketOf(flights[i])))
  {
    seq(|flights|, i requires 0 <= i < |flights| => SearchHandlers.Sent(flights[i].dst, Encode(PacketOf(flights[i]))))
  }

  /** What of all that is written goes to neighbours' sockets. */
  function Received(socks: seq<int>, sent: seq<SearchHandlers.Sent>): seq<SearchHandlers.Sent> {
    if sent == [] then []
    else
      var n := |sent| - 1;
      Received(socks, sent[..n]) + if sent[n].sock in socks && sent[n].sock != NO_SOCKET then [sent[n]] else []
  }

  lemma ReceivedSnoc(socks: seq<int>, sent: seq<SearchHandlers.Sent>, last: SearchHandlers.Sent)
    ensures Received(socks, sent + [last]) ==
            Received(socks, sent) + if last.sock in socks && last.sock != NO_SOCKET then [last] else []
  {
    assert (sent + [last])[..|sent|] == sent;
  }

  lemma NothingReceived(socks: seq<int>, data: Bytes)
    ensures SearchHandlers.Broadcast([], data) == [] == Received(socks, []) && Delivered(socks, []) == []
  {
  }

  lemma {:induction false} BroadcastReceived(socks: seq<int>, recipients: seq<int>, data: Bytes)
    ensures Received(socks, SearchHandlers.Broadcast(recipients, data)) ==
            SearchHandlers.Broadcast(Delivered(socks, recipients), data)
  {
    hide *;
    NothingReceived(socks, data);
    if recipients != [] {
      var n := |recipients| - 1;
      var before, last := recipients[..n], recipients[n];
      assert recipients == before + [last];
      var sent, some := SearchHandlers.Broadcast(before, data), Delivered(socks, before);
      BroadcastReceived(socks, before, data);
      SearchHandlers.BroadcastSnoc(before, last, data);
      ReceivedSnoc(socks, sent, SearchHandlers.Sent(last, data));
      DeliveredSnoc(socks, before, last);
      if last in socks && last != NO_SOCKET {
        SearchHandlers.BroadcastSnoc(some, last, data);
      } else {
        assert some + [] == some && Received(socks, sent) + [] == Received(socks, sent);
      }
    }
  }

  lemma {:induction false} BroadcastAt(socks: seq<int>, data: Bytes)
    ensures |SearchHandlers.Broadcast(socks, data)| == |socks|
    ensures forall i :: 0 <= i < |socks| ==> SearchHandlers.Broadcast(socks, data)[i] == SearchHandlers.Sent(socks[i], data)
  {
    if socks != [] {
      BroadcastAt(socks[..|socks| - 1], data);
    }
  }

  /** Packets that are all the same, to these recipients, are a broadcast. */
  lemma SameToAll(flights: seq<Flight>, to: seq<nat>, packet: Packet)
    requires |flights| == |to|
    requires forall i :: 0 <= i < |to| ==> flights[i].dst == to[i] && PacketOf(flights[i]) == packet
    ensures SentOf(flights) == SearchHandlers.Broadcast(to, Encode(packet))
  {
    hide Encode, PacketOf;
    BroadcastAt(to, Encode(packet));
  }

  /** The packets for other servents, and not for the own client. */
  predicate ToServents(s: Network, e: Event)
    requires Enabled(s, e) && e.Serve?
  {
    ServesRemote(s, e) || (s.nodes[e.n].pending[0].LocalSearch? && !e.hit)
  }

  /**
   * What serving a request puts in flight is what its handler is proved to write, byte by byte and socket
   * by socket: to every neighbour for a search of the own client, to the recipients the array of the code
   * yields for the request of another; or the one packet for the own client.
   */
  lemma HandlersSendTheFlights(s: Network, e: Event, memory: iset<int>)
    requires WellFormed(s) && Enabled(s, e) && e.Serve? && AsWritten(s, e, memory)
    ensures var node, out := s.nodes[e.n], Emits(s.nodes[e.n], e);
            var data := Encode(Written(node));
            && (!ToServents(s, e) ==> |out| == 1 && out[0].ToClient? && out[0].dst == e.n && Encode(PacketOf(out[0])) == data)
            && (ToServents(s, e) && node.pending[0].LocalSearch? ==>
                  SentOf(out) == SearchHandlers.Broadcast(Wanted(node.slots, NO_SOCKET), data))
            && (ServesRemote(s, e) ==>
                  exists source, uninit :: Garbage(node.slots, memory, source, uninit) &&
                    SentOf(out) == Received(node.slots, SearchHandlers.Broadcast(Recipients(node.slots, source, uninit), data)))
  {
    var node, out := s.nodes[e.n], Emits(s.nodes[e.n], e);
    hide Encode;
    if ToServents(s, e) {
      SameToAll(out, e.to, Written(node));
      if ServesRemote(s, e) {
        var source, uninit :| Garbage(node.slots, memory, source, uninit) &&
          e.to == Delivered(node.slots, Recipients(node.slots, source, uninit));
        BroadcastReceived(node.slots, Recipients(node.slots, source, uninit), Encode(Written(node)));
      }
    }
  }

  /** The servent is in the state the network model gives the node. */
  ghost predicate Mirrors(servent: SearchHandlers.Servent, node: Node)
    reads servent, servent.socks
  {
    && servent.self == node.self && servent.files == node.files && servent.log == node.log
    && servent.socks[..] == node.slots
  }

  lemma RemoteFlights(s: Network, e: Event, memory: iset<int>, source: int, uninit: seq<int>)
    requires WellFormed(s) && Enabled(s, e) && AsWritten(s, e, memory) && ServesRemote(s, e)
    requires |uninit| == |s.nodes[e.n].slots|
    requires e.to == Delivered(s.nodes[e.n].slots, Recipients(s.nodes[e.n].slots, source, uninit))
    ensures var node, req := s.nodes[e.n], ServedRequest(s, e);
            var packet := Rebuilt(req, node.self, CodeAnswers(node.log, req), CodeUnique(node.log, req) && req.file in node.files);
            && node.self.ip != req.source.ip
            && Received(node.slots, SearchHandlers.Broadcast(Recipients(node.slots, source, uninit), Encode(packet))) ==
                 SentOf(Emits(node, e))
  {
    var node := s.nodes[e.n];
    hide Encode;
    SameToAll(Emits(node, e), e.to, Written(node));
    BroadcastReceived(node.slots, Recipients(node.slots, source, uninit), Encode(Written(node)));
  }

  lemma LocalFlights(s: Network, e: Event)
    requires WellFormed(s) && Enabled(s, e) && e.Serve? && AsksEveryone(s, e) && s.nodes[e.n].pending[0].LocalSearch?
    ensures var node, file, out := s.nodes[e.n], s.nodes[e.n].pending[0].file, Emits(s.nodes[e.n], e);
            var all := SearchHandlers.Broadcast(Wanted(node.slots, NO_SOCKET), Encode(SearchHandlers.LocalPacket(node.self, file, false)));
            && (file in node.files ==>
                  && !ToServents(s, e) && |out| == 1 && out[0].ToClient?
                  && PacketOf(out[0]) == SearchHandlers.LocalPacket(node.self, file, true))
            && (file !in node.files ==> ToServents(s, e) && Received(node.slots, all) == SentOf(out))
  {
    var node, file := s.nodes[e.n], s.nodes[e.n].pending[0].file;
    hide Encode;
    if file !in node.files {
      SameToAll(Emits(node, e), e.to, Written(node));
      WantedDelivered(node.slots, NO_SOCKET);
      BroadcastReceived(node.slots, Wanted(node.slots, NO_SOCKET), Encode(Written(node)));
    }
  }

  /** The writes of a handler, and what the event puts in flight. */
  twostate predicate WroteFlights(servent: SearchHandlers.Servent, node: Node, out: seq<Flight>, toServents: bool)
    reads servent, servent.client
  {
    && old(servent.sent) <= servent.sent
    && (if toServents then
          && Received(node.slots, servent.sent[|old(servent.sent)|..]) == SentOf(out)
          && servent.client.outgoing == old(servent.client.outgoing)
        else
          && |out| == 1 && out[0].ToClient? && servent.sent == old(servent.sent)
          && (!servent.client.broken ==>
                servent.client.outgoing == old(servent.client.outgoing) + Encode(PacketOf(out[0]))))
  }

  /**
   * The handlers themselves, called on a servent in the node's state: what they write to neighbours' sockets
   * is what the event puts in flight, or else what they write to the own client is.
   */
  method ServeLocal(servent: SearchHandlers.Servent, ghost s: Network, ghost e: Event, file: CString)
    requires WellFormed(s) && Enabled(s, e) && e.Serve? && AsksEveryone(s, e)
    requires Mirrors(servent, s.nodes[e.n]) && s.nodes[e.n].pending[0] == LocalSearch(file)
    modifies servent`sent, servent`overran, servent.client`outgoing
    ensures Mirrors(servent, s.nodes[e.n])
    ensures WroteFlights(servent, s.nodes[e.n], Emits(s.nodes[e.n], e), ToServents(s, e))
  {
    LocalFlights(s, e);
    hide Encode, Emits, Received, SentOf, SearchHandlers.Broadcast, SearchHandlers.LocalPacket, ToServents;
    servent.AnswerLocalSearchRequest(file);
  }

  /** The same for the request of another machine, with the garbage its array of recipients came by. */
  method ServeRemote(servent: SearchHandlers.Servent, ghost s: Network, ghost e: Event, ghost memory: iset<int>,
                     req: SearchRequest, source: int, uninit: seq<int>)
    requires WellFormed(s) && Enabled(s, e) && AsWritten(s, e, memory) && ServesRemote(s, e) && ServedRequest(s, e) == req
    requires Mirrors(servent, s.nodes[e.n]) && |uninit| == servent.socks.Length
    requires e.to == Delivered(s.nodes[e.n].slots, Recipients(s.nodes[e.n].slots, source, uninit))
    modifies servent`sent, servent`overran, servent.client`outgoing
    ensures Mirrors(servent, s.nodes[e.n])
    ensures WroteFlights(servent, s.nodes[e.n], Emits(s.nodes[e.n], e), true)
  {
    RemoteFlights(s, e, memory, source, uninit);
    hide Encode, Emits, Received, SentOf, SearchHandlers.Broadcast, Rebuilt, Recipients, Delivered, AsWritten;
    servent.AnswerRemoteSearchRequest(req, source, uninit);
  }

  /** ... and for a request that has come back to its own address. */
  method ServeOwn(servent: SearchHandlers.Servent, ghost s: Network, ghost e: Event, req: SearchRequest, source: int,
                  uninit: seq<int>)
    requires WellFormed(s) && Enabled(s, e) && e.Serve? && !ServesRemote(s, e)
    requires Mirrors(servent, s.nodes[e.n]) && s.nodes[e.n].pending[0].RemoteSearch? && s.nodes[e.n].pending[0].req == req
    requires |uninit| == servent.socks.Length
    modifies servent`sent, servent`overran, servent.client`outgoing
    ensures Mirrors(servent, s.nodes[e.n])
    ensures WroteFlights(servent, s.nodes[e.n], Emits(s.nodes[e.n], e), false)
  {
    hide Encode;
    servent.AnswerRemoteSearchRequest(req, source, uninit);
  }

  /**
   * ... and reading a packet off the wire queues the request, or hands the list to the client, that was
   * put in flight, whatever follows on the socket.
   */
  lemma ReadersSeeTheFlights(s: Network, k: nat, rest: Bytes)
    requires WellFormed(s) && Enabled(s, Arrive(k)) && ShortFlight(s.wire[k])
    ensures var fl := s.wire[k];
            var s' := Next(s, Arrive(k));
            match Decode(Encode(PacketOf(fl)) + rest)
            case Some((Search(req), r)) =>
              r == rest && s'.nodes[fl.dst].pending == s.nodes[fl.dst].pending + [RemoteSearch(fl.src, req)]
            case Some((SearchAnswer(file, found), r)) =>
              r == rest && s'.wire == Without(s.wire, k) + [ToClient(fl.dst, file, found)]
            case _ => false
  {
    hide Decode, Encode;
    RoundTripExact(PacketOf(s.wire[k]), rest);
  }
}
