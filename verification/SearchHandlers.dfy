/** The search handlers of one servent: reading requests and answers, rebuilding packets, choosing recipients. */
module SearchHandlers {
  import opened Basics
  import opened Wire
  import opened Streams
  import opened SearchRules
  import opened Sending

  const INET6_ADDRSTRLEN: nat := 46

  datatype Sent = Sent(sock: int, data: Bytes)

  // ----- Allocated sizes -----

  /** What is allocated for a rebuilt packet. */
  function RebuiltCapacity(machines: nat): nat {
    1 + 1 + INET6_ADDRSTRLEN + 1 + 5 + 1 + 255 + 1 + 1 + machines * (1 + INET6_ADDRSTRLEN + 1 + 5)
  }

  /** What is allocated for the packet to the client; the byte for the number of machines is forgotten. */
  function ClientCapacity(file: CString, machines: nat): nat {
    1 + 1 + |file| + machines * (1 + INET6_ADDRSTRLEN + 1 + 5)
  }

  /** What is allocated for a local search, whichever packet it becomes. */
  const LOCAL_CAPACITY: nat := 1 + 1 + INET6_ADDRSTRLEN + 1 + 5 + 1 + 255 + 1 + 1 + 1 + INET6_ADDRSTRLEN + 1 + 5

  /** An address as `inet_ntop` prints it, with at most `n` characters, and a port of at most five digits. */
  predicate Printed(e: Endpoint, n: nat) {
    |e.ip| <= n && |e.port| <= 5
  }

  /** The bytes the machines of a list take. */
  function Sizes(list: seq<Endpoint>): nat {
    if list == [] then 0 else 2 + |list[0].ip| + |list[0].port| + Sizes(list[1..])
  }

  lemma {:induction false} SizesExact(list: seq<Endpoint>)
    requires forall e :: e in list ==> ShortEndpoint(e)
    ensures |PutEndpoints(list, [])| == Sizes(list)
  {
    if list != [] {
      SizesExact(list[1..]);
      assert list[0] in list;
    }
  }

  lemma {:induction false} SizesBounded(list: seq<Endpoint>, n: nat)
    requires forall e :: e in list ==> Printed(e, n)
    ensures Sizes(list) <= |list| * (7 + n)
  {
    if list != [] {
      assert list[0] in list;
      SizesBounded(list[1..], n);
      assert |list| * (7 + n) == (|list| - 1) * (7 + n) + (7 + n);
    }
  }

  lemma NamedSize(file: CString, found: seq<Endpoint>)
    requires |file| < 256 && forall e :: e in found ==> ShortEndpoint(e)
    ensures |PutNamedMachines(file, found, [])| == 2 + |file| + Sizes(found)
  {
    SizesExact(found);
  }

  /**
   * The packet for the client fits its allocation exactly when it lists somebody: an empty list is one byte
   * longer than what was allocated.
   */
  lemma ClientAnswerFitsExact(file: CString, found: seq<Endpoint>)
    requires |file| < 256 && forall e :: e in found ==> Printed(e, INET6_ADDRSTRLEN - 1)
    ensures |Encode(IntSearchAnswer(file, found))| <= ClientCapacity(file, |found|) <==> found != []
  {
    NamedSize(file, found);
    SizesBounded(found, INET6_ADDRSTRLEN - 1);
    hide PutNamedMachines;
    assert |found| > 0 ==> |found| * 52 + 1 <= |found| * 53;
  }

  lemma RequestSize(req: SearchRequest)
    requires ShortEndpoint(req.source) && |req.file| < 256 && forall e :: e in req.found ==> ShortEndpoint(e)
    ensures |PutRequest(req, [])| == 5 + |req.source.ip| + |req.source.port| + |req.file| + Sizes(req.found)
  {
    SizesExact(req.found);
    hide PutEndpoints, Sizes;
  }

  lemma AnswerFits(file: CString, found: seq<Endpoint>, self: Endpoint, hit: bool)
    requires |file| <= 255 && Printed(self, INET6_ADDRSTRLEN - 1)
    requires forall e :: e in found ==> Printed(e, INET6_ADDRSTRLEN - 1)
    ensures |Encode(SearchAnswer(file, found + if hit then [self] else []))| <= RebuiltCapacity(|found|)
  {
    var list := found + if hit then [self] else [];
    NamedSize(file, list);
    SizesBounded(list, INET6_ADDRSTRLEN - 1);
    hide PutNamedMachines, Sizes;
  }

  /** Names as `inet_ntop` and the file system yield them. */
  predicate PrintedRequest(req: SearchRequest, self: Endpoint) {
    && |req.file| <= 255 && Printed(self, INET6_ADDRSTRLEN - 1) && Printed(req.source, INET6_ADDRSTRLEN - 1)
    && forall e :: e in req.found ==> Printed(e, INET6_ADDRSTRLEN - 1)
  }

  lemma RelaySize(req: SearchRequest, self: Endpoint, hit: bool)
    requires req.ttl > 0 && PrintedRequest(req, self)
    ensures |Encode(Search(Relayed(req, self, hit)))| ==
            6 + |req.source.ip| + |req.source.port| + |req.file| + Sizes(Listed(req, self, hit))
  {
    RequestSize(Relayed(req, self, hit));
  }

  /**
   * A rebuilt packet fits its allocation, whatever its names, if it is an answer - although a hit adds a
   * machine the allocation does not count - or a relay without a hit.
   */
  lemma RebuiltFits(req: SearchRequest, self: Endpoint, answer: bool, hit: bool)
    requires PrintedRequest(req, self) && (answer || (req.ttl > 0 && !hit))
    ensures |Encode(Rebuilt(req, self, answer, hit))| <= RebuiltCapacity(|req.found|)
  {
    hide Encode;
    if answer {
      AnswerFits(req.file, req.found, self, hit);
    } else {
      RelaySize(req, self, hit);
      SizesBounded(req.found, INET6_ADDRSTRLEN - 1);
      assert Listed(req, self, hit) == req.found;
    }
  }

  /** The longest name of a file that a relayed hit has room for in any case. */
  function RoomForFile(machines: nat): nat {
    RebuiltCapacity(machines) - (6 + (machines + 1) * (7 + INET6_ADDRSTRLEN - 1) + INET6_ADDRSTRLEN - 1 + 5)
  }

  lemma RoomExact(machines: nat)
    ensures RoomForFile(machines) == 204 + machines
  {
  }

  /** A request with names as long as they get. */
  function Longest(file: CString, machines: nat): SearchRequest {
    SearchRequest(LongName(), file, DEFAULT_TTL, seq(machines, _ => LongName()))
  }

  function LongName(): Endpoint {
    Endpoint(seq(INET6_ADDRSTRLEN - 1, _ => 58), [54, 53, 53, 51, 53])
  }

  lemma {:induction false} LongSizes(list: seq<Endpoint>)
    requires forall e :: e in list ==> |e.ip| == INET6_ADDRSTRLEN - 1 && |e.port| == 5
    ensures Sizes(list) == |list| * (7 + INET6_ADDRSTRLEN - 1)
  {
    if list != [] {
      assert list[0] in list;
      LongSizes(list[1..]);
      assert |list| * 52 == (|list| - 1) * 52 + 52;
    }
  }

  lemma LongestSize(file: CString, machines: nat)
    requires |file| <= 255
    ensures PrintedRequest(Longest(file, machines), LongName())
    ensures |Encode(Search(Relayed(Longest(file, machines), LongName(), true)))| - RebuiltCapacity(machines) ==
            |file| - RoomForFile(machines)
  {
    var req := Longest(file, machines);
    RelaySize(req, LongName(), true);
    LongSizes(Listed(req, LongName(), true));
    hide Encode, Sizes;
  }

  /**
   * A relayed hit fits its allocation exactly when the name of the file leaves room for the machine that
   * was not counted: for a name of this length and a list of this many machines it fits whatever the
   * addresses are, if and only if the name has at most 204 characters and one more for each machine.
   */
  lemma RelayedHitFitsExact(file: CString, machines: nat)
    requires |file| <= 255
    ensures (forall req, self :: PrintedRequest(req, self) && req.ttl > 0 && req.file == file && |req.found| == machines ==>
               |Encode(Rebuilt(req, self, false, true))| <= RebuiltCapacity(machines))
            <==> |file| <= 204 + machines
  {
    RoomExact(machines);
    if |file| <= 204 + machines {
      forall req, self | PrintedRequest(req, self) && req.ttl > 0 && req.file == file && |req.found| == machines
        ensures |Encode(Rebuilt(req, self, false, true))| <= RebuiltCapacity(machines)
      {
        RelaySize(req, self, true);
        SizesBounded(Listed(req, self, true), INET6_ADDRSTRLEN - 1);
        hide Encode, Sizes;
      }
    } else {
      LongestSize(file, machines);
      hide Encode, RebuiltCapacity, RoomForFile;
      var req := Longest(file, machines);
      assert req.ttl > 0 && req.file == file && |req.found| == machines;
      assert Rebuilt(req, LongName(), false, true) == Search(Relayed(req, LongName(), true));
    }
  }

  /** A search of the own client: answered with the own address, or sent out with a full TTL. */
  function LocalPacket(self: Endpoint, file: CString, hit: bool): Packet {
    if hit then IntSearchAnswer(file, [self]) else Search(SearchRequest(self, file, DEFAULT_TTL, []))
  }

  /** Whichever packet a local search becomes, it fits. */
  lemma LocalSearchFits(self: Endpoint, file: CString, hit: bool)
    requires |file| <= 255 && Printed(self, INET6_ADDRSTRLEN)
    ensures |Encode(LocalPacket(self, file, hit))| <= LOCAL_CAPACITY == 365
  {
    NamedSize(file, [self]);
    RequestSize(SearchRequest(self, file, DEFAULT_TTL, []));
    assert [self][1..] == [];
    hide PutNamedMachines, PutRequest;
  }

  // ----- The handlers -----

  /** The packets one broadcast writes, in order. */
  function Broadcast(socks: seq<int>, data: Bytes): seq<Sent> {
    if socks == [] then []
    else
      var n := |socks| - 1;
      Broadcast(socks[..n], data) + [Sent(socks[n], data)]
  }

  datatype Request =
    | LocalSearch(file: CString)
    | RemoteSearch(req: SearchRequest)

  /** The part of `server_t` that searches touch. */
  class Servent {
    const self: Endpoint                 // own address and listening port
    const socks: array<int>              // the neighbours' sockets, slot by slot
    const client: Descriptor
    var files: set<CString>
    var pending: seq<Request>
    var log: seq<LogEntry>
    var sent: seq<Sent>                  // what was written to neighbours
    var overran: bool                    // some packet did not fit its allocation

    constructor (self: Endpoint, client: Descriptor, files: set<CString>)
      ensures this.self == self && this.client == client && this.files == files
      ensures pending == [] && log == [] && sent == [] && !overran
      ensures fresh(socks) && socks[..] == Unset(MAX_NEIGHBOURS)
    {
      this.self, this.client, this.files := self, client, files;
      socks := new int[MAX_NEIGHBOURS](_ => NO_SOCKET);
      pending, log, sent, overran := [], [], [], false;
    }

    /** `handle_remote_search_request`: reads CMSG_SEARCH_REQUEST after its opcode and queues it. */
    method HandleRemoteSearchRequest(fd: Descriptor)
      modifies fd`incoming, this`pending
      ensures !fd.broken && GetRequest(old(fd.incoming)).Some? ==>
                var (req, rest) := GetRequest(old(fd.incoming)).value;
                fd.incoming == rest && pending == old(pending) + [RemoteSearch(req)]
    {
      hide GetText, GetMachines, GetEndpoint;
      var source := ReadEndpoint(fd);
      var file := ReadText(fd);
      var ttl := ReadByte(fd);
      var found := ReadMachines(fd);
      pending := pending + [RemoteSearch(SearchRequest(source, file, ttl, found))];
    }

    /** `handle_remote_search_answer`: reads SMSG_SEARCH_REQUEST after its opcode and tells the client. */
    method HandleRemoteSearchAnswer(fd: Descriptor)
      requires fd != client
      modifies fd`incoming, client`outgoing, this`overran
      ensures !fd.broken && !client.broken && GetNamedMachines(old(fd.incoming)).Some? ==>
                var ((file, found), rest) := GetNamedMachines(old(fd.incoming)).value;
                && fd.incoming == rest
                && client.outgoing == old(client.outgoing) + Encode(IntSearchAnswer(file, found))
                && overran == (old(overran) || |Encode(IntSearchAnswer(file, found))| > ClientCapacity(file, |found|))
    {
      hide GetText, GetMachines;
      var file := ReadText(fd);
      var found := ReadMachines(fd);
      SendSearchAnswerToClient(file, found);
    }

    /** `send_search_answer_to_client` */
    method SendSearchAnswerToClient(file: CString, found: seq<Endpoint>)
      modifies client`outgoing, this`overran
      ensures !client.broken ==> client.outgoing == old(client.outgoing) + Encode(IntSearchAnswer(file, found))
      ensures overran == (old(overran) || |Encode(IntSearchAnswer(file, found))| > ClientCapacity(file, |found|))
    {
      hide PacketBuffer.Contents, PacketBuffer.Valid, PacketBuffer.Overran;
      hide PutText, PutEndpoints;
      var packet := new PacketBuffer(ClientCapacity(file, |found|));
      packet.Write([SMSG_INT + 1]);
      packet.WriteText(file);
      packet.Write([|found| % 256]);
      packet.WriteEndpoints(found);
      NamedBytes(SMSG_INT + 1, file, found);
      overran := overran || packet.Overran();
      var _ := WriteToFd(client, packet.Contents());
    }

    /** `check_unique_request` */
    method CheckUnique(req: SearchRequest) returns (unique: bool)
      ensures unique == CodeUnique(log, req)
    {
      var i := 0;
      while i < |log|
        invariant 0 <= i <= |log| && CodeUnique(log[..i], req)
      {
        if log[i].file == req.file {
          if log[i].source.ip == req.source.ip {
            if log[i].source.port != req.source.port {
              assert log[i] in log;
              return false;
            }
          }
        }
        i := i + 1;
      }
      assert log[..i] == log;
      return true;
    }

    /** Everything of a rebuilt packet in front of its machines. */
    method WriteHead(packet: PacketBuffer, req: SearchRequest, answer: bool)
      requires packet.Valid() && (answer || req.ttl > 0)
      modifies packet, packet.data
      ensures packet.Valid() && packet.Contents() == old(packet.Contents()) + HeadBytes(req, answer)
    {
      hide PacketBuffer.Contents, PacketBuffer.Valid;
      hide PutText, PutEndpoint;
      var opcode: byte := if answer then SMSG + 3 else CMSG + 3;
      packet.Write([opcode]);
      if !answer {
        packet.WriteEndpoint(req.source);
      }
      packet.WriteText(req.file);
      if !answer {
        packet.Write([req.ttl - 1]);
      }
    }

    /** The machines of a rebuilt packet: the count, those of the request, and this one for a hit. */
    method WriteList(packet: PacketBuffer, req: SearchRequest, hit: bool)
      requires packet.Valid()
      modifies packet, packet.data
      ensures packet.Valid() && packet.Contents() == old(packet.Contents()) + PutMachines(Listed(req, self, hit), [])
    {
      hide PacketBuffer.Contents, PacketBuffer.Valid;
      hide PutEndpoints, PutEndpoint, PutMachines;
      packet.Write([(|req.found| + if hit then 1 else 0) % 256]);
      packet.WriteEndpoints(req.found);
      if hit {
        packet.WriteEndpoint(self);
      }
      ListedBytes(req, self, hit);
    }

    /** The packet of `answer_remote_search_request`, written field by field. */
    method BuildRebuilt(req: SearchRequest, answer: bool, hit: bool) returns (packet: PacketBuffer)
      requires answer || req.ttl > 0
      ensures packet.Valid() && fresh(packet) && fresh(packet.data)
      ensures packet.Contents() == Encode(Rebuilt(req, self, answer, hit))
      ensures packet.data.Length == RebuiltCapacity(|req.found|)
    {
      hide PacketBuffer.Contents, PacketBuffer.Valid;
      hide PutMachines, HeadBytes, Encode;
      packet := new PacketBuffer(RebuiltCapacity(|req.found|));
      WriteHead(packet, req, answer);
      WriteList(packet, req, hit);
      RebuiltBytes(req, self, answer, hit);
    }

    /**
     * `answer_remote_search_request`. `uninit` is what the freshly allocated array of sockets happens to
     * hold, and `source` what the request's never assigned `source_sock` happens to be.
     */
    method AnswerRemoteSearchRequest(req: SearchRequest, source: int, uninit: seq<int>)
      requires |uninit| == socks.Length
      modifies this`sent, this`overran, client`outgoing
      ensures log == old(log) && pending == old(pending)
      ensures self.ip == req.source.ip ==>
                && sent == old(sent)
                && (!client.broken ==>
                      client.outgoing == old(client.outgoing) + Encode(IntSearchAnswer(req.file, req.found)))
      ensures self.ip != req.source.ip ==>
                var packet := Rebuilt(req, self, CodeAnswers(log, req), CodeUnique(log, req) && req.file in files);
                && client.outgoing == old(client.outgoing)
                && sent == old(sent) + Broadcast(Recipients(socks[..], source, uninit), Encode(packet))
                && overran == (old(overran) || |Encode(packet)| > RebuiltCapacity(|req.found|))
    {
      if self.ip == req.source.ip {
        SendSearchAnswerToClient(req.file, req.found);
        return;
      }
      hide Encode, Rebuilt;
      var unique := CheckUnique(req);
      var answer := unique || req.ttl == 0;
      var hit := unique && req.file in files;
      var packet := BuildRebuilt(req, answer, hit);
      overran := overran || packet.Overran();
      var sockets, count := Compact(source, uninit);
      BroadcastTo(sockets, count, packet.Contents());
    }

    /** The loop that fills the array of recipients. */
    method Compact(source: int, uninit: seq<int>) returns (sockets: seq<int>, count: nat)
      requires |uninit| == socks.Length
      ensures count <= |sockets| == socks.Length
      ensures sockets[..count] == Recipients(socks[..], source, uninit)
    {
      sockets, count := uninit, 0;
      for i := 0 to socks.Length
        invariant |sockets| == socks.Length && count == |Wanted(socks[..i], source)| <= i
        invariant forall k :: 0 <= k < socks.Length ==>
                    sockets[k] == if k < i && Chosen(socks[k], source) then socks[k] else uninit[k]
      {
        var sock := socks[i];
        if sock != NO_SOCKET && sock != source {
          sockets := sockets[i := sock];
          count := count + 1;
        }
        assert socks[..i + 1][..i] == socks[..i];
      }
      assert socks[..socks.Length] == socks[..];
      assert sockets == Scattered(socks[..], source, uninit);
    }

    /** `broadcast_packet_to` */
    method BroadcastTo(sockets: seq<int>, count: nat, data: Bytes)
      requires count <= |sockets|
      modifies this`sent
      ensures sent == old(sent) + Broadcast(sockets[..count], data)
    {
      for i := 0 to count
        invariant sent == old(sent) + Broadcast(sockets[..i], data)
      {
        assert sockets[..i + 1][..i] == sockets[..i];
        sent := sent + [Sent(sockets[i], data)];
      }
    }

    /** `broadcast_packet`: every neighbour. */
    method BroadcastAll(data: Bytes)
      modifies this`sent
      ensures sent == old(sent) + Broadcast(Wanted(socks[..], NO_SOCKET), data)
    {
      assert Broadcast(Wanted(socks[..0], NO_SOCKET), data) == [];
      hide Broadcast, Wanted;
      for i := 0 to socks.Length
        invariant sent == old(sent) + Broadcast(Wanted(socks[..i], NO_SOCKET), data)
      {
        WantedStep(socks[..], NO_SOCKET, i);
        assert socks[..][..i] == socks[..i] && socks[..][..i + 1] == socks[..i + 1];
        if socks[i] != NO_SOCKET {
          BroadcastSnoc(Wanted(socks[..i], NO_SOCKET), socks[i], data);
          sent := sent + [Sent(socks[i], data)];
        }
      }
      assert socks[..socks.Length] == socks[..];
    }

    /** The packet a local search becomes, written field by field. */
    method BuildLocal(file: CString, hit: bool) returns (packet: PacketBuffer)
      ensures packet.Valid() && fresh(packet) && fresh(packet.data) && packet.data.Length == LOCAL_CAPACITY
      ensures packet.Contents() == Encode(LocalPacket(self, file, hit))
    {
      hide PacketBuffer.Contents, PacketBuffer.Valid;
      hide PutText, PutEndpoint;
      packet := new PacketBuffer(LOCAL_CAPACITY);
      if hit {
        packet.Write([SMSG_INT + 1]);
        packet.WriteText(file);
        packet.Write([1]);
        packet.WriteEndpoint(self);
        LocalHitBytes(self, file);
      } else {
        packet.Write([CMSG + 3]);
        packet.WriteEndpoint(self);
        packet.WriteText(file);
        packet.Write([DEFAULT_TTL]);
        packet.Write([0]);
        LocalMissBytes(self, file);
      }
    }

    /** `answer_local_search_request`: the client is told at once, or every neighbour is asked. */
    method AnswerLocalSearchRequest(file: CString)
      modifies this`sent, this`overran, client`outgoing
      ensures file in files ==>
                && sent == old(sent)
                && (!client.broken ==> client.outgoing == old(client.outgoing) + Encode(LocalPacket(self, file, true)))
      ensures file !in files ==>
                && client.outgoing == old(client.outgoing)
                && sent == old(sent) + Broadcast(Wanted(socks[..], NO_SOCKET), Encode(LocalPacket(self, file, false)))
      ensures overran == (old(overran) || |Encode(LocalPacket(self, file, file in files))| > LOCAL_CAPACITY)
    {
      hide Encode, PacketBuffer.Contents, PacketBuffer.Valid, PacketBuffer.Overran;
      var packet := BuildLocal(file, file in files);
      overran := overran || packet.Overran();
      if file in files {
        var _ := WriteToFd(client, packet.Contents());
      } else {
        BroadcastAll(packet.Contents());
      }
    }
  }

  lemma BroadcastSnoc(socks: seq<int>, sock: int, data: Bytes)
    ensures Broadcast(socks + [sock], data) == Broadcast(socks, data) + [Sent(sock, data)]
  {
    assert (socks + [sock])[..|socks|] == socks;
  }

  // ----- The bytes, field by field -----

  lemma NamedBytes(opcode: byte, file: CString, found: seq<Endpoint>)
    ensures [opcode] + PutNamedMachines(file, found, []) ==
            [opcode] + PutText(file, []) + [|found| % 256] + PutEndpoints(found, [])
  {
    hide PutText, PutEndpoints;
    PutTextFirst(file, PutMachines(found, []));
  }

  lemma ListedBytes(req: SearchRequest, self: Endpoint, hit: bool)
    ensures PutMachines(Listed(req, self, hit), []) ==
            [(|req.found| + if hit then 1 else 0) % 256] + PutEndpoints(req.found, [])
            + if hit then PutEndpoint(self, []) else []
  {
    hide PutEndpoints, PutEndpoint;
    if hit {
      PutOneMore(req.found, self);
    } else {
      assert Listed(req, self, hit) == req.found;
    }
  }

  function HeadBytes(req: SearchRequest, answer: bool): Bytes
    requires answer || req.ttl > 0
  {
    [if answer then SMSG + 3 else CMSG + 3] + (if answer then [] else PutEndpoint(req.source, []))
    + PutText(req.file, []) + if answer then [] else [req.ttl - 1]
  }

  lemma RebuiltBytes(req: SearchRequest, self: Endpoint, answer: bool, hit: bool)
    requires answer || req.ttl > 0
    ensures Encode(Rebuilt(req, self, answer, hit)) == HeadBytes(req, answer) + PutMachines(Listed(req, self, hit), [])
  {
    hide PutText, PutEndpoints, PutEndpoint, PutMachines;
    var machines := PutMachines(Listed(req, self, hit), []);
    if answer {
      PutTextFirst(req.file, machines);
    } else {
      PutTextFirst(req.file, [req.ttl - 1] + machines);
      PutEndpointFirst(req.source, PutText(req.file, [req.ttl - 1] + machines));
    }
  }

  lemma LocalHitBytes(self: Endpoint, file: CString)
    ensures Encode(IntSearchAnswer(file, [self])) ==
            [SMSG_INT + 1] + PutText(file, []) + [1] + PutEndpoint(self, [])
  {
    hide PutText, PutEndpoint;
    NamedBytes(SMSG_INT + 1, file, [self]);
    PutOneMore([], self);
    assert [] + [self] == [self];
    assert PutEndpoints([], []) + PutEndpoint(self, []) == PutEndpoint(self, []);
  }

  lemma LocalMissBytes(self: Endpoint, file: CString)
    ensures Encode(Search(SearchRequest(self, file, DEFAULT_TTL, []))) ==
            [CMSG + 3] + PutEndpoint(self, []) + PutText(file, []) + [DEFAULT_TTL] + [0]
  {
    hide PutText, PutEndpoint;
    assert PutMachines([], []) == [0];
    PutTextFirst(file, [DEFAULT_TTL] + [0]);
    PutEndpointFirst(self, PutText(file, [DEFAULT_TTL] + [0]));
  }
}
