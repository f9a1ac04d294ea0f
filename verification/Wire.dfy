/**
 * The packets of the servent and their byte layout.
 *
 * `Put...(x, tail)` is the bytes of `x` followed by `tail`; `Get...(b)` reads one `x` off the front
 * of `b` and returns it with what is left, or None when the stream ends inside it.
 */
module Wire {
  import opened Basics

  datatype Endpoint = Endpoint(ip: CString, port: CString)

  datatype SearchRequest = SearchRequest(source: Endpoint, file: CString, ttl: byte, found: seq<Endpoint>)

  datatype Packet =
    | AskNeighbours                                            // CMSG_NEIGHBOURS
    | Join(rescue: byte, port: CString)                        // CMSG_JOIN
    | Search(req: SearchRequest)                               // CMSG_SEARCH_REQUEST
    | Leave                                                    // CMSG_LEAVE
    | Download(file: CString)                                  // CMSG_DOWNLOAD
    | Neighbours(list: seq<Endpoint>)                          // SMSG_NEIGHBOURS
    | JoinYes(port: CString)                                   // SMSG_JOIN, answer 1
    | JoinNo(answer: byte)                                     // SMSG_JOIN, any other answer
    | SearchAnswer(file: CString, found: seq<Endpoint>)        // SMSG_SEARCH_REQUEST
    | FileMissing(at: Endpoint, file: CString)                 // SMSG_DOWNLOAD, ANSWER_CODE_REMOTE_NOT_FOUND
    | FileContent(code: byte, file: CString, content: Bytes)   // SMSG_DOWNLOAD, any other code
    | IntHandshake                                             // CMSG_INT_HANDSHAKE
    | IntExit                                                  // CMSG_INT_EXIT
    | IntSearch(file: CString)                                 // CMSG_INT_SEARCH
    | IntDownload(at: Endpoint, file: CString)                 // CMSG_INT_DOWNLOAD
    | IntHandshakeAnswer                                       // SMSG_INT_HANDSHAKE
    | IntSearchAnswer(file: CString, found: seq<Endpoint>)     // SMSG_INT_SEARCH
    | IntDownloadFailed(code: byte, at: Endpoint, file: CString) // SMSG_INT_DOWNLOAD, any other code
    | IntDownloadDone(file: CString)                           // SMSG_INT_DOWNLOAD, ANSWER_CODE_REMOTE_FOUND
    | Unknown(opcode: byte)                                    // dispatched to `default`

  const CMSG: byte := 0x00
  const SMSG: byte := 0x40
  const CMSG_INT: byte := 0x80
  const SMSG_INT: byte := 0xC0

  const REMOTE_NOT_FOUND: byte := 2
  const REMOTE_FOUND: byte := 3

  const KNOWN_OPCODES: set<byte> :=
    {0x00, 0x01, 0x03, 0x04, 0x05, 0x40, 0x41, 0x43, 0x44, 0x80, 0x81, 0x82, 0x83, 0xC0, 0xC1, 0xC2}

  // ----- Fields -----

  /** A length byte and that many characters: `uint8_t length = strlen(s)` keeps the length modulo 256. */
  function PutText(s: CString, tail: Bytes): Bytes {
    [|s| % 256] + s[..|s| % 256] + tail
  }

  function GetText(b: Bytes): Option<(CString, Bytes)> {
    if |b| == 0 || |b| < 1 + b[0] as int then None
    else Some((UntilNul(b[1..1 + b[0] as int]), b[1 + b[0] as int..]))
  }

  function PutEndpoint(e: Endpoint, tail: Bytes): Bytes {
    PutText(e.ip, PutText(e.port, tail))
  }

  function GetEndpoint(b: Bytes): Option<(Endpoint, Bytes)> {
    var (ip, b1) :- GetText(b);
    var (port, b2) :- GetText(b1);
    Some((Endpoint(ip, port), b2))
  }

  function PutEndpoints(list: seq<Endpoint>, tail: Bytes): Bytes {
    if list == [] then tail else PutEndpoint(list[0], PutEndpoints(list[1..], tail))
  }

  function GetEndpoints(n: nat, b: Bytes): Option<(seq<Endpoint>, Bytes)> {
    if n == 0 then Some(([], b))
    else
      var (e, b1) :- GetEndpoint(b);
      var (list, b2) :- GetEndpoints(n - 1, b1);
      Some(([e] + list, b2))
  }

  function PutMachines(list: seq<Endpoint>, tail: Bytes): Bytes {
    [|list| % 256] + PutEndpoints(list, tail)
  }

  function GetMachines(b: Bytes): Option<(seq<Endpoint>, Bytes)> {
    if |b| == 0 then None else GetEndpoints(b[0], b[1..])
  }

  /** A `uint32_t` copied from memory by a little-endian host. */
  function PutWord(n: nat, tail: Bytes): Bytes {
    [n % 256, n / 0x100 % 256, n / 0x1_0000 % 256, n / 0x100_0000 % 256] + tail
  }

  function GetWord(b: Bytes): Option<(nat, Bytes)> {
    if |b| < 4 then None
    else Some((b[0] as int + 0x100 * b[1] as int + 0x1_0000 * b[2] as int + 0x100_0000 * b[3] as int, b[4..]))
  }

  function PutContent(content: Bytes, tail: Bytes): Bytes {
    PutWord(|content| % UINT32_RANGE, content + tail)
  }

  function GetContent(b: Bytes): Option<(Bytes, Bytes)> {
    var (n, b1) :- GetWord(b);
    if |b1| < n then None else Some((b1[..n], b1[n..]))
  }

  function PutNamedMachines(file: CString, found: seq<Endpoint>, tail: Bytes): Bytes {
    PutText(file, PutMachines(found, tail))
  }

  function GetNamedMachines(b: Bytes): Option<((CString, seq<Endpoint>), Bytes)> {
    var (file, b1) :- GetText(b);
    var (found, b2) :- GetMachines(b1);
    Some(((file, found), b2))
  }

  function PutRequest(r: SearchRequest, tail: Bytes): Bytes {
    PutEndpoint(r.source, PutText(r.file, [r.ttl] + PutMachines(r.found, tail)))
  }

  function GetRequest(b: Bytes): Option<(SearchRequest, Bytes)> {
    var (source, b1) :- GetEndpoint(b);
    var (file, b2) :- GetText(b1);
    if |b2| == 0 then None
    else
      var (found, b3) :- GetMachines(b2[1..]);
      Some((SearchRequest(source, file, b2[0], found), b3))
  }

  // ----- Packets -----

  function Opcode(p: Packet): byte {
    match p
    case AskNeighbours => CMSG + 0
    case Join(_, _) => CMSG + 1
    case Search(_) => CMSG + 3
    case Leave => CMSG + 4
    case Download(_) => CMSG + 5
    case Neighbours(_) => SMSG + 0
    case JoinYes(_) => SMSG + 1
    case JoinNo(_) => SMSG + 1
    case SearchAnswer(_, _) => SMSG + 3
    case FileMissing(_, _) => SMSG + 4
    case FileContent(_, _, _) => SMSG + 4
    case IntHandshake => CMSG_INT + 0
    case IntExit => CMSG_INT + 1
    case IntSearch(_) => CMSG_INT + 2
    case IntDownload(_, _) => CMSG_INT + 3
    case IntHandshakeAnswer => SMSG_INT + 0
    case IntSearchAnswer(_, _) => SMSG_INT + 1
    case IntDownloadFailed(_, _, _) => SMSG_INT + 2
    case IntDownloadDone(_) => SMSG_INT + 2
    case Unknown(opcode) => opcode
  }

  /** Everything after the opcode, in the order the builders write it. */
  function PutBody(p: Packet, tail: Bytes): Bytes {
    match p
    case Join(rescue, port) => [rescue] + PutText(port, tail)
    case Search(req) => PutRequest(req, tail)
    case Download(file) => PutText(file, tail)
    case Neighbours(list) => PutMachines(list, tail)
    case JoinYes(port) => [1] + PutText(port, tail)
    case JoinNo(answer) => [answer] + tail
    case SearchAnswer(file, found) => PutNamedMachines(file, found, tail)
    case FileMissing(at, file) => [REMOTE_NOT_FOUND] + PutEndpoint(at, PutText(file, tail))
    case FileContent(code, file, content) => [code] + PutText(file, PutContent(content, tail))
    case IntSearch(file) => PutText(file, tail)
    case IntDownload(at, file) => PutEndpoint(at, PutText(file, tail))
    case IntSearchAnswer(file, found) => PutNamedMachines(file, found, tail)
    case IntDownloadFailed(code, at, file) => [code] + PutEndpoint(at, PutText(file, tail))
    case IntDownloadDone(file) => [REMOTE_FOUND] + PutText(file, tail)
    case _ => tail
  }

  function Put(p: Packet, tail: Bytes): Bytes {
    [Opcode(p)] + PutBody(p, tail)
  }

  function Encode(p: Packet): Bytes {
    Put(p, [])
  }

  function Decode(b: Bytes): Option<(Packet, Bytes)> {
    if |b| == 0 then None else GetBody(b[0], b[1..])
  }

  function Tag<T>(read: Option<(T, Bytes)>, wrap: T -> Packet): Option<(Packet, Bytes)> {
    var (x, rest) :- read;
    Some((wrap(x), rest))
  }

  /** The dispatch on the opcode, with the reads each handler makes. */
  function GetBody(opcode: byte, b: Bytes): Option<(Packet, Bytes)> {
    match opcode
    case 0x00 => Some((AskNeighbours, b))
    case 0x01 => GetJoin(b)
    case 0x03 => Tag(GetRequest(b), req => Search(req))
    case 0x04 => Some((Leave, b))
    case 0x05 => Tag(GetText(b), file => Download(file))
    case 0x40 => Tag(GetMachines(b), list => Neighbours(list))
    case 0x41 => GetJoinAnswer(b)
    case 0x43 => Tag(GetNamedMachines(b), (m: (CString, seq<Endpoint>)) => SearchAnswer(m.0, m.1))
    case 0x44 => GetFile(b)
    case 0x80 => Some((IntHandshake, b))
    case 0x81 => Some((IntExit, b))
    case 0x82 => Tag(GetText(b), file => IntSearch(file))
    case 0x83 => Tag(GetAddressed(b), (a: (Endpoint, CString)) => IntDownload(a.0, a.1))
    case 0xC0 => Some((IntHandshakeAnswer, b))
    case 0xC1 => Tag(GetNamedMachines(b), (m: (CString, seq<Endpoint>)) => IntSearchAnswer(m.0, m.1))
    case 0xC2 => GetOutcome(b)
    case _ => Some((Unknown(opcode), b))
  }

  function GetAddressed(b: Bytes): Option<((Endpoint, CString), Bytes)> {
    var (at, b1) :- GetEndpoint(b);
    var (file, b2) :- GetText(b1);
    Some(((at, file), b2))
  }

  function GetJoin(b: Bytes): Option<(Packet, Bytes)> {
    if |b| == 0 then None
    else
      var (port, r) :- GetText(b[1..]);
      Some((Join(b[0], port), r))
  }

  /** SMSG_JOIN: the port follows only an answer of 1. */
  function GetJoinAnswer(b: Bytes): Option<(Packet, Bytes)> {
    if |b| == 0 then None
    else if b[0] != 1 then Some((JoinNo(b[0]), b[1..]))
    else
      var (port, r) :- GetText(b[1..]);
      Some((JoinYes(port), r))
  }

  /** The two shapes of SMSG_DOWNLOAD, told apart by the answer byte. */
  function GetFile(b: Bytes): Option<(Packet, Bytes)> {
    if |b| == 0 then None
    else if b[0] == REMOTE_NOT_FOUND then
      var ((at, file), r) :- GetAddressed(b[1..]);
      Some((FileMissing(at, file), r))
    else
      var (file, b1) :- GetText(b[1..]);
      var (content, r) :- GetContent(b1);
      Some((FileContent(b[0], file, content), r))
  }

  /** The two shapes of SMSG_INT_DOWNLOAD, told apart by the answer byte. */
  function GetOutcome(b: Bytes): Option<(Packet, Bytes)> {
    if |b| == 0 then None
    else if b[0] != REMOTE_FOUND then
      var ((at, file), r) :- GetAddressed(b[1..]);
      Some((IntDownloadFailed(b[0], at, file), r))
    else
      var (file, r) :- GetText(b[1..]);
      Some((IntDownloadDone(file), r))
  }

  // ----- Which packets survive the wire -----

  predicate ShortEndpoint(e: Endpoint) {
    |e.ip| < 256 && |e.port| < 256
  }

  predicate ShortList(list: seq<Endpoint>) {
    |list| < 256 && forall e :: e in list ==> ShortEndpoint(e)
  }

  /** Every string and list fits its length byte, and the shape agrees with its code byte. */
  predicate Fits(p: Packet) {
    match p
    case Join(_, port) => |port| < 256
    case Search(r) => ShortEndpoint(r.source) && |r.file| < 256 && ShortList(r.found)
    case Download(file) => |file| < 256
    case Neighbours(list) => ShortList(list)
    case JoinYes(port) => |port| < 256
    case JoinNo(answer) => answer != 1
    case SearchAnswer(file, found) => |file| < 256 && ShortList(found)
    case FileMissing(at, file) => ShortEndpoint(at) && |file| < 256
    case FileContent(code, file, content) => code != REMOTE_NOT_FOUND && |file| < 256 && |content| < UINT32_RANGE
    case IntSearch(file) => |file| < 256
    case IntDownload(at, file) => ShortEndpoint(at) && |file| < 256
    case IntSearchAnswer(file, found) => |file| < 256 && ShortList(found)
    case IntDownloadFailed(code, at, file) => code != REMOTE_FOUND && ShortEndpoint(at) && |file| < 256
    case IntDownloadDone(file) => |file| < 256
    case Unknown(opcode) => opcode !in KNOWN_OPCODES
    case _ => true
  }

  // ----- Field laws -----

  /** Reading a text field back gives the string clipped to its length byte, and leaves the tail. */
  lemma TextRoundTrip(s: CString, tail: Bytes)
    ensures GetText(PutText(s, tail)) == Some((s[..|s| % 256], tail))
  {
    var b := PutText(s, tail);
    var clipped: CString := s[..|s| % 256];
    assert b[1..1 + b[0] as int] == clipped;
    assert b[1 + b[0] as int..] == tail;
    UntilNulOfCString(clipped);
  }

  lemma EndpointRoundTrip(e: Endpoint, tail: Bytes)
    requires ShortEndpoint(e)
    ensures GetEndpoint(PutEndpoint(e, tail)) == Some((e, tail))
  {
    TextRoundTrip(e.ip, PutText(e.port, tail));
    TextRoundTrip(e.port, tail);
    assert e.ip[..|e.ip|] == e.ip && e.port[..|e.port|] == e.port;
  }

  lemma {:induction false} EndpointsRoundTrip(list: seq<Endpoint>, tail: Bytes)
    requires forall e :: e in list ==> ShortEndpoint(e)
    ensures GetEndpoints(|list|, PutEndpoints(list, tail)) == Some((list, tail))
  {
    if list != [] {
      EndpointRoundTrip(list[0], PutEndpoints(list[1..], tail));
      EndpointsRoundTrip(list[1..], tail);
      assert [list[0]] + list[1..] == list;
    }
  }

  /** The count and what follows it, read and written. */
  lemma CountedMachines(list: seq<Endpoint>, n: byte, tail: Bytes)
    requires n == |list|
    ensures GetMachines(PutMachines(list, tail)) == GetEndpoints(n, PutEndpoints(list, tail))
  {
    hide GetEndpoints, PutEndpoints;
    var body := PutEndpoints(list, tail);
    var b := [n] + body;
    assert |list| % 256 == n;
    assert b[0] == n && b[1..] == body;
  }

  lemma {:induction false} MachinesRoundTrip(list: seq<Endpoint>, tail: Bytes)
    requires ShortList(list)
    ensures GetMachines(PutMachines(list, tail)) == Some((list, tail))
  {
    EndpointsRoundTrip(list, tail);
    hide *;
    CountedMachines(list, |list|, tail);
  }

  lemma ShortTextRoundTrip(s: CString, tail: Bytes)
    requires |s| < 256
    ensures GetText(PutText(s, tail)) == Some((s, tail))
  {
    TextRoundTrip(s, tail);
    assert s[..|s|] == s;
  }

  lemma WordRoundTrip(n: nat, tail: Bytes)
    requires n < UINT32_RANGE
    ensures GetWord(PutWord(n, tail)) == Some((n, tail))
  {
    assert n / 0x1_0000 == n / 0x100 / 0x100;
    assert n / 0x100_0000 == n / 0x100 / 0x100 / 0x100;
    assert PutWord(n, tail)[4..] == tail;
  }

  lemma ContentRoundTrip(content: Bytes, tail: Bytes)
    requires |content| < UINT32_RANGE
    ensures GetContent(PutContent(content, tail)) == Some((content, tail))
  {
    hide PutWord, GetWord;
    var b := content + tail;
    WordRoundTrip(|content|, b);
    assert |content| % UINT32_RANGE == |content|;
    assert b[..|content|] == content && b[|content|..] == tail;
  }

  lemma RequestRoundTrip(r: SearchRequest, tail: Bytes)
    requires Fits(Search(r))
    ensures GetRequest(PutRequest(r, tail)) == Some((r, tail))
  {
    var t3 := PutMachines(r.found, tail);
    var t2 := [r.ttl] + t3;
    EndpointRoundTrip(r.source, PutText(r.file, t2));
    ShortTextRoundTrip(r.file, t2);
    assert t2[1..] == t3;
    MachinesRoundTrip(r.found, tail);
  }

  lemma NamedMachinesRoundTrip(file: CString, found: seq<Endpoint>, tail: Bytes)
    requires |file| < 256 && ShortList(found)
    ensures GetNamedMachines(PutNamedMachines(file, found, tail)) == Some(((file, found), tail))
  {
    ShortTextRoundTrip(file, PutMachines(found, tail));
    MachinesRoundTrip(found, tail);
  }

  lemma AddressedRoundTrip(at: Endpoint, file: CString, tail: Bytes)
    requires ShortEndpoint(at) && |file| < 256
    ensures GetAddressed(PutEndpoint(at, PutText(file, tail))) == Some(((at, file), tail))
  {
    EndpointRoundTrip(at, PutText(file, tail));
    ShortTextRoundTrip(file, tail);
  }

  // ----- Packet laws -----

  /** A code or flag byte in front of a body costs exactly itself. */
  lemma JoinRoundTrip(p: Packet, tail: Bytes)
    requires Fits(p) && (p.Join? || p.JoinYes? || p.JoinNo?)
    ensures if p.Join? then GetJoin(PutBody(p, tail)) == Some((p, tail))
            else GetJoinAnswer(PutBody(p, tail)) == Some((p, tail))
  {
    var b := PutBody(p, tail);
    if p.JoinNo? {
      assert b[1..] == tail;
    } else {
      assert b[1..] == PutText(p.port, tail);
      ShortTextRoundTrip(p.port, tail);
    }
  }

  lemma FileRoundTrip(p: Packet, tail: Bytes)
    requires Fits(p) && (p.FileMissing? || p.FileContent?)
    ensures GetFile(PutBody(p, tail)) == Some((p, tail))
  {
    var b := PutBody(p, tail);
    if p.FileMissing? {
      assert b[1..] == PutEndpoint(p.at, PutText(p.file, tail));
      AddressedRoundTrip(p.at, p.file, tail);
    } else {
      var t := PutContent(p.content, tail);
      assert b[1..] == PutText(p.file, t);
      ShortTextRoundTrip(p.file, t);
      ContentRoundTrip(p.content, tail);
    }
  }

  lemma OutcomeRoundTrip(p: Packet, tail: Bytes)
    requires Fits(p) && (p.IntDownloadFailed? || p.IntDownloadDone?)
    ensures GetOutcome(PutBody(p, tail)) == Some((p, tail))
  {
    var b := PutBody(p, tail);
    if p.IntDownloadFailed? {
      assert b[1..] == PutEndpoint(p.at, PutText(p.file, tail));
      AddressedRoundTrip(p.at, p.file, tail);
    } else {
      assert b[1..] == PutText(p.file, tail);
      ShortTextRoundTrip(p.file, tail);
    }
  }

  /** The bodies exchanged between servents ... */
  lemma RemoteBodyRoundTrip(p: Packet, tail: Bytes)
    requires Fits(p) && !p.Unknown? && Opcode(p) < CMSG_INT
    ensures GetBody(Opcode(p), PutBody(p, tail)) == Some((p, tail))
  {
    hide GetText, GetMachines, GetRequest, GetNamedMachines, GetAddressed, GetFile, GetOutcome, GetJoin, GetJoinAnswer;
    hide PutText, PutMachines, PutRequest, PutNamedMachines, PutEndpoint;
    match p
    case Join(_, _) => JoinRoundTrip(p, tail);
    case JoinYes(_) => JoinRoundTrip(p, tail);
    case JoinNo(_) => JoinRoundTrip(p, tail);
    case Search(req) => RequestRoundTrip(req, tail);
    case Download(file) => ShortTextRoundTrip(file, tail);
    case Neighbours(list) => MachinesRoundTrip(list, tail);
    case SearchAnswer(file, found) => NamedMachinesRoundTrip(file, found, tail);
    case FileMissing(_, _) => FileRoundTrip(p, tail);
    case FileContent(_, _, _) => FileRoundTrip(p, tail);
    case _ =>
  }

  /** ... and those between a servent and its own client. */
  lemma LocalBodyRoundTrip(p: Packet, tail: Bytes)
    requires Fits(p) && !p.Unknown? && CMSG_INT <= Opcode(p)
    ensures GetBody(Opcode(p), PutBody(p, tail)) == Some((p, tail))
  {
    hide GetText, GetMachines, GetRequest, GetNamedMachines, GetAddressed, GetFile, GetOutcome, GetJoin, GetJoinAnswer;
    hide PutText, PutMachines, PutRequest, PutNamedMachines, PutEndpoint;
    match p
    case IntSearch(file) => ShortTextRoundTrip(file, tail);
    case IntDownload(at, file) => AddressedRoundTrip(at, file, tail);
    case IntSearchAnswer(file, found) => NamedMachinesRoundTrip(file, found, tail);
    case IntDownloadFailed(_, _, _) => OutcomeRoundTrip(p, tail);
    case IntDownloadDone(_) => OutcomeRoundTrip(p, tail);
    case _ =>
  }

  lemma PutThenDecode(p: Packet, tail: Bytes)
    requires Fits(p)
    ensures Decode(Put(p, tail)) == Some((p, tail))
  {
    assert Put(p, tail)[1..] == PutBody(p, tail);
    if p.Unknown? {
    } else if Opcode(p) < CMSG_INT {
      RemoteBodyRoundTrip(p, tail);
    } else {
      LocalBodyRoundTrip(p, tail);
    }
  }

  // ----- What was decoded always fits, and something was consumed -----

  lemma TextConsumed(b: Bytes)
    ensures GetText(b).Some? ==> |GetText(b).value.0| < 256 && |GetText(b).value.1| < |b|
  {
  }

  lemma EndpointConsumed(b: Bytes)
    ensures GetEndpoint(b).Some? ==> ShortEndpoint(GetEndpoint(b).value.0) && |GetEndpoint(b).value.1| < |b|
  {
    TextConsumed(b);
    if GetText(b).Some? {
      TextConsumed(GetText(b).value.1);
    }
  }

  lemma {:induction false} EndpointsConsumed(n: nat, b: Bytes)
    ensures GetEndpoints(n, b).Some? ==>
              var (list, rest) := GetEndpoints(n, b).value;
              |list| == n && (forall e :: e in list ==> ShortEndpoint(e)) && |rest| <= |b|
  {
    if n > 0 {
      EndpointConsumed(b);
      if GetEndpoint(b).Some? {
        EndpointsConsumed(n - 1, GetEndpoint(b).value.1);
      }
    }
  }

  lemma MachinesConsumed(b: Bytes)
    ensures GetMachines(b).Some? ==> ShortList(GetMachines(b).value.0) && |GetMachines(b).value.1| < |b|
  {
    if |b| > 0 {
      EndpointsConsumed(b[0], b[1..]);
    }
  }

  lemma NamedMachinesConsumed(b: Bytes)
    ensures GetNamedMachines(b).Some? ==>
              var ((file, found), rest) := GetNamedMachines(b).value;
              |file| < 256 && ShortList(found) && |rest| < |b|
  {
    hide GetText, GetMachines;
    TextConsumed(b);
    if GetText(b).Some? {
      MachinesConsumed(GetText(b).value.1);
    }
  }

  lemma RequestConsumed(b: Bytes)
    ensures GetRequest(b).Some? ==> Fits(Search(GetRequest(b).value.0)) && |GetRequest(b).value.1| < |b|
  {
    hide GetText, GetMachines, GetEndpoint;
    EndpointConsumed(b);
    if GetEndpoint(b).Some? {
      var b1 := GetEndpoint(b).value.1;
      TextConsumed(b1);
      if GetText(b1).Some? && |GetText(b1).value.1| > 0 {
        MachinesConsumed(GetText(b1).value.1[1..]);
      }
    }
  }

  lemma AddressedConsumed(b: Bytes)
    ensures GetAddressed(b).Some? ==>
              var ((at, file), rest) := GetAddressed(b).value;
              ShortEndpoint(at) && |file| < 256 && |rest| < |b|
  {
    hide GetText, GetEndpoint;
    EndpointConsumed(b);
    if GetEndpoint(b).Some? {
      TextConsumed(GetEndpoint(b).value.1);
    }
  }

  lemma ContentConsumed(b: Bytes)
    ensures GetContent(b).Some? ==> |GetContent(b).value.0| < UINT32_RANGE && |GetContent(b).value.1| <= |b|
  {
  }

  lemma FlaggedConsumed(b: Bytes)
    ensures GetJoin(b).Some? ==> Fits(GetJoin(b).value.0) && |GetJoin(b).value.1| <= |b|
    ensures GetJoinAnswer(b).Some? ==> Fits(GetJoinAnswer(b).value.0) && |GetJoinAnswer(b).value.1| <= |b|
    ensures GetOutcome(b).Some? ==> Fits(GetOutcome(b).value.0) && |GetOutcome(b).value.1| <= |b|
  {
    hide GetText, GetAddressed;
    if |b| > 0 {
      TextConsumed(b[1..]);
      AddressedConsumed(b[1..]);
    }
  }

  lemma FileConsumed(b: Bytes)
    ensures GetFile(b).Some? ==> Fits(GetFile(b).value.0) && |GetFile(b).value.1| <= |b|
  {
    hide GetText, GetAddressed, GetContent;
    if |b| > 0 {
      AddressedConsumed(b[1..]);
      TextConsumed(b[1..]);
      if GetText(b[1..]).Some? {
        ContentConsumed(GetText(b[1..]).value.1);
      }
    }
  }

  lemma RemoteBodyFits(opcode: byte, b: Bytes)
    requires opcode < CMSG_INT && GetBody(opcode, b).Some?
    ensures Fits(GetBody(opcode, b).value.0) && |GetBody(opcode, b).value.1| <= |b|
  {
    hide GetText, GetMachines, GetRequest, GetNamedMachines, GetFile, GetJoin, GetJoinAnswer, GetAddressed, GetOutcome;
    hide ShortList, ShortEndpoint;
    match opcode
    case 0x03 => RequestConsumed(b);
    case 0x05 => TextConsumed(b);
    case 0x40 => MachinesConsumed(b);
    case 0x43 => NamedMachinesConsumed(b);
    case 0x44 => FileConsumed(b);
    case _ => FlaggedConsumed(b);
  }

  lemma LocalBodyFits(opcode: byte, b: Bytes)
    requires CMSG_INT <= opcode && GetBody(opcode, b).Some?
    ensures Fits(GetBody(opcode, b).value.0) && |GetBody(opcode, b).value.1| <= |b|
  {
    hide GetText, GetMachines, GetRequest, GetNamedMachines, GetFile, GetJoin, GetJoinAnswer, GetAddressed, GetOutcome;
    hide ShortList, ShortEndpoint;
    match opcode
    case 0x82 => TextConsumed(b);
    case 0x83 => AddressedConsumed(b);
    case 0xC1 => NamedMachinesConsumed(b);
    case _ => FlaggedConsumed(b);
  }

  lemma DecodedFits(b: Bytes)
    requires Decode(b).Some?
    ensures Fits(Decode(b).value.0) && |Decode(b).value.1| < |b|
  {
    hide GetBody;
    if b[0] < CMSG_INT {
      RemoteBodyFits(b[0], b[1..]);
    } else {
      LocalBodyFits(b[0], b[1..]);
    }
  }

  // ----- The self-delimiting code -----

  lemma PutTextAppends(s: CString, a: Bytes, b: Bytes)
    ensures PutText(s, a + b) == PutText(s, a) + b
  {
  }

  lemma PutEndpointAppends(e: Endpoint, a: Bytes, b: Bytes)
    ensures PutEndpoint(e, a + b) == PutEndpoint(e, a) + b
  {
    PutTextAppends(e.port, a, b);
    PutTextAppends(e.ip, PutText(e.port, a), b);
  }

  lemma PutTextFirst(s: CString, tail: Bytes)
    ensures PutText(s, tail) == PutText(s, []) + tail
  {
    assert [] + tail == tail;
    PutTextAppends(s, [], tail);
  }

  lemma PutEndpointFirst(e: Endpoint, tail: Bytes)
    ensures PutEndpoint(e, tail) == PutEndpoint(e, []) + tail
  {
    assert [] + tail == tail;
    PutEndpointAppends(e, [], tail);
  }

  lemma {:induction false} PutEndpointsAppends(list: seq<Endpoint>, a: Bytes, b: Bytes)
    ensures PutEndpoints(list, a + b) == PutEndpoints(list, a) + b
  {
    if list != [] {
      PutEndpointsAppends(list[1..], a, b);
      PutEndpointAppends(list[0], PutEndpoints(list[1..], a), b);
    }
  }

  lemma {:induction false} PutOneMore(list: seq<Endpoint>, e: Endpoint)
    ensures PutEndpoints(list + [e], []) == PutEndpoints(list, []) + PutEndpoint(e, [])
  {
    hide PutEndpoint;
    if list == [] {
      assert [e][1..] == [];
      assert [] + [e] == [e];
      assert PutEndpoints([e], []) == PutEndpoint(e, PutEndpoints([], []));
    } else {
      assert (list + [e])[1..] == list[1..] + [e];
      PutOneMore(list[1..], e);
      PutEndpointAppends(list[0], PutEndpoints(list[1..], []), PutEndpoint(e, []));
    }
  }

  lemma PutMachinesAppends(list: seq<Endpoint>, a: Bytes, b: Bytes)
    ensures PutMachines(list, a + b) == PutMachines(list, a) + b
  {
    hide PutEndpoints;
    PutEndpointsAppends(list, a, b);
  }

  lemma PutNamedMachinesAppends(file: CString, found: seq<Endpoint>, a: Bytes, b: Bytes)
    ensures PutNamedMachines(file, found, a + b) == PutNamedMachines(file, found, a) + b
  {
    hide PutText, PutMachines;
    PutMachinesAppends(found, a, b);
    PutTextAppends(file, PutMachines(found, a), b);
  }

  lemma PutRequestAppends(r: SearchRequest, a: Bytes, b: Bytes)
    ensures PutRequest(r, a + b) == PutRequest(r, a) + b
  {
    hide PutText, PutMachines, PutEndpoint;
    PutMachinesAppends(r.found, a, b);
    var t := [r.ttl] + PutMachines(r.found, a);
    assert [r.ttl] + PutMachines(r.found, a + b) == t + b;
    PutTextAppends(r.file, t, b);
    PutEndpointAppends(r.source, PutText(r.file, t), b);
  }

  lemma PutAddressedAppends(at: Endpoint, file: CString, a: Bytes, b: Bytes)
    ensures PutEndpoint(at, PutText(file, a + b)) == PutEndpoint(at, PutText(file, a)) + b
  {
    PutTextAppends(file, a, b);
    PutEndpointAppends(at, PutText(file, a), b);
  }

  lemma PutContentAppends(content: Bytes, a: Bytes, b: Bytes)
    ensures PutContent(content, a + b) == PutContent(content, a) + b
  {
    assert content + (a + b) == content + a + b;
  }

  lemma AfterByte(x: byte, a: Bytes, b: Bytes)
    ensures [x] + (a + b) == [x] + a + b
  {
  }

  lemma PutFileAppends(p: Packet, a: Bytes, b: Bytes)
    requires p.FileMissing? || p.FileContent? || p.IntDownloadFailed?
    ensures PutBody(p, a + b) == PutBody(p, a) + b
  {
    hide PutText, PutEndpoint, PutContent;
    if p.FileContent? {
      PutContentAppends(p.content, a, b);
      PutTextAppends(p.file, PutContent(p.content, a), b);
      AfterByte(p.code, PutText(p.file, PutContent(p.content, a)), b);
    } else {
      PutAddressedAppends(p.at, p.file, a, b);
      AfterByte(if p.FileMissing? then REMOTE_NOT_FOUND else p.code, PutEndpoint(p.at, PutText(p.file, a)), b);
    }
  }

  lemma PutFlaggedAppends(p: Packet, a: Bytes, b: Bytes)
    requires p.Join? || p.JoinYes? || p.IntDownloadDone?
    ensures PutBody(p, a + b) == PutBody(p, a) + b
  {
    hide PutText;
    var s := if p.IntDownloadDone? then p.file else p.port;
    PutTextAppends(s, a, b);
    AfterByte(if p.Join? then p.rescue else if p.JoinYes? then 1 else REMOTE_FOUND, PutText(s, a), b);
  }

  lemma PutBodyAppends(p: Packet, a: Bytes, b: Bytes)
    ensures PutBody(p, a + b) == PutBody(p, a) + b
  {
    hide PutText, PutMachines, PutRequest, PutNamedMachines, PutEndpoint, PutContent;
    match p
    case Search(req) => PutRequestAppends(req, a, b);
    case Download(file) => PutTextAppends(file, a, b);
    case Neighbours(list) => PutMachinesAppends(list, a, b);
    case JoinNo(answer) => AfterByte(answer, a, b);
    case SearchAnswer(file, found) => PutNamedMachinesAppends(file, found, a, b);
    case IntSearch(file) => PutTextAppends(file, a, b);
    case IntDownload(at, file) => PutAddressedAppends(at, file, a, b);
    case IntSearchAnswer(file, found) => PutNamedMachinesAppends(file, found, a, b);
    case AskNeighbours =>
    case Leave =>
    case IntHandshake =>
    case IntExit =>
    case IntHandshakeAnswer =>
    case Unknown(_) =>
    case FileMissing(_, _) => PutFileAppends(p, a, b);
    case FileContent(_, _, _) => PutFileAppends(p, a, b);
    case IntDownloadFailed(_, _, _) => PutFileAppends(p, a, b);
    case _ => PutFlaggedAppends(p, a, b);
  }

  /** Putting a packet in front of a stream is appending the stream to its bytes. */
  lemma PutIsAppend(p: Packet, tail: Bytes)
    ensures Put(p, tail) == Encode(p) + tail
  {
    hide PutBody;
    PutBodyAppends(p, [], tail);
    assert [] + tail == tail;
  }

  /**
   * The round trip, exactly: a packet followed by anything is read back as itself, leaving exactly
   * what followed, if and only if each of its strings and lists fits its length byte (and its code
   * byte selects its own shape).
   */
  lemma {:induction false} RoundTripExact(p: Packet, rest: Bytes)
    ensures Decode(Encode(p) + rest) == Some((p, rest)) <==> Fits(p)
  {
    hide Decode, Put;
    PutIsAppend(p, rest);
    if Fits(p) {
      PutThenDecode(p, rest);
    }
    if Decode(Encode(p) + rest).Some? {
      DecodedFits(Encode(p) + rest);
    }
  }

  /** No packet's bytes are a prefix of another's: equal streams start with equal packets. */
  lemma SelfDelimiting(p: Packet, q: Packet, a: Bytes, b: Bytes)
    requires Fits(p) && Fits(q)
    requires Encode(p) + a == Encode(q) + b
    ensures p == q && a == b
  {
    hide Decode, Encode;
    RoundTripExact(p, a);
    RoundTripExact(q, b);
  }

  // ----- Streams of packets -----

  function EncodeAll(ps: seq<Packet>): Bytes {
    if ps == [] then [] else Encode(ps[0]) + EncodeAll(ps[1..])
  }

  /** Reads packets until the stream ends or ends inside one. */
  function DecodeAll(b: Bytes): seq<Packet>
    decreases |b|
  {
    if Decode(b).None? then []
    else
      var (p, rest) := Decode(b).value;
      DecodedFits(b);
      [p] + DecodeAll(rest)
  }

  /** Back-to-back packets on one socket parse to the sequence that was sent. */
  lemma {:induction false} StreamRoundTrip(ps: seq<Packet>)
    requires forall p :: p in ps ==> Fits(p)
    ensures DecodeAll(EncodeAll(ps)) == ps
  {
    if ps == [] {
    } else {
      hide Decode, Encode;
      RoundTripExact(ps[0], EncodeAll(ps[1..]));
      StreamRoundTrip(ps[1..]);
      assert [ps[0]] + ps[1..] == ps;
    }
  }
}
