/** Which bytes each packet is made of: the layout written out, field by field. */
module Layout {
  import opened Basics
  import opened Wire

  lemma TextBytes(s: CString, tail: Bytes)
    requires |s| < 256
    ensures PutText(s, tail) == [|s|] + s + tail
  {
    assert s[..|s|] == s;
  }

  lemma EndpointBytes(e: Endpoint, tail: Bytes)
    requires ShortEndpoint(e)
    ensures PutEndpoint(e, tail) == [|e.ip|] + e.ip + [|e.port|] + e.port + tail
  {
    TextBytes(e.port, tail);
    TextBytes(e.ip, PutText(e.port, tail));
  }

  // ----- Packets without lists -----

  /** An opcode alone. */
  lemma PlainLayout(opcode: byte)
    ensures Encode(AskNeighbours) == [0x00] && Encode(Leave) == [0x04]
    ensures Encode(IntHandshake) == [0x80] && Encode(IntExit) == [0x81] && Encode(IntHandshakeAnswer) == [0xC0]
    ensures Encode(Unknown(opcode)) == [opcode]
  {
  }

  lemma Behind(x: byte, n: byte, s: Bytes)
    ensures [x] + ([n] + s) == [x, n] + s
  {
  }

  lemma Behind2(x: byte, y: byte, n: byte, s: Bytes)
    ensures [x] + ([y] + ([n] + s)) == [x, y, n] + s
  {
  }

  lemma LastText(s: CString)
    requires |s| < 256
    ensures PutText(s, []) == [|s|] + s
  {
    TextBytes(s, []);
    assert [|s|] + s + [] == [|s|] + s;
  }

  lemma JoinBytes(rescue: byte, port: CString, answer: byte)
    ensures Encode(Join(rescue, port)) == [0x01] + ([rescue] + PutText(port, []))
    ensures Encode(JoinYes(port)) == [0x41] + ([1] + PutText(port, []))
    ensures Encode(JoinNo(answer)) == [0x41] + ([answer] + [])
  {
    hide PutText;
  }

  lemma JoinLayout(rescue: byte, port: CString, answer: byte)
    requires |port| < 256
    ensures Encode(Join(rescue, port)) == [0x01, rescue, |port|] + port
    ensures Encode(JoinYes(port)) == [0x41, 1, |port|] + port
    ensures Encode(JoinNo(answer)) == [0x41, answer]
  {
    hide *;
    JoinBytes(rescue, port, answer);
    LastText(port);
    Behind2(0x01, rescue, |port|, port);
    Behind2(0x41, 1, |port|, port);
    assert [0x41] + ([answer] + []) == [0x41, answer];
  }

  lemma PlainNamedBytes(file: CString)
    ensures Encode(Download(file)) == [0x05] + PutText(file, [])
    ensures Encode(IntSearch(file)) == [0x82] + PutText(file, [])
    ensures Encode(IntDownloadDone(file)) == [0xC2] + ([3] + PutText(file, []))
  {
    hide PutText;
  }

  lemma NamedLayout(file: CString)
    requires |file| < 256
    ensures Encode(Download(file)) == [0x05, |file|] + file
    ensures Encode(IntSearch(file)) == [0x82, |file|] + file
    ensures Encode(IntDownloadDone(file)) == [0xC2, 3, |file|] + file
  {
    hide *;
    PlainNamedBytes(file);
    LastText(file);
    Behind(0x05, |file|, file);
    Behind(0x82, |file|, file);
    Behind2(0xC2, 3, |file|, file);
  }

  lemma AddressedBytes(at: Endpoint, file: CString)
    requires ShortEndpoint(at) && |file| < 256
    ensures PutEndpoint(at, PutText(file, [])) ==
            [|at.ip|] + (at.ip + [|at.port|] + at.port + [|file|] + file)
  {
    LastText(file);
    EndpointBytes(at, PutText(file, []));
    hide PutText, PutEndpoint;
    var a, b, c, d := at.ip, [|at.port|], at.port, [|file|];
    hide *;
    assert [|at.ip|] + a + b + c + (d + file) == [|at.ip|] + (a + b + c + d + file);
  }

  lemma AddressedPackets(at: Endpoint, file: CString, code: byte)
    ensures Encode(FileMissing(at, file)) == [0x44] + ([2] + PutEndpoint(at, PutText(file, [])))
    ensures Encode(IntDownload(at, file)) == [0x83] + PutEndpoint(at, PutText(file, []))
    ensures Encode(IntDownloadFailed(code, at, file)) == [0xC2] + ([code] + PutEndpoint(at, PutText(file, [])))
  {
    hide PutText, PutEndpoint;
  }

  /** The address stands before the port. */
  lemma AddressedLayout(at: Endpoint, file: CString, code: byte)
    requires |at.ip| < 256 && |at.port| < 256 && |file| < 256
    ensures var rest := at.ip + [|at.port|] + at.port + [|file|] + file;
            && Encode(FileMissing(at, file)) == [0x44, 2, |at.ip|] + rest
            && Encode(IntDownload(at, file)) == [0x83, |at.ip|] + rest
            && Encode(IntDownloadFailed(code, at, file)) == [0xC2, code, |at.ip|] + rest
  {
    AddressedBytes(at, file);
    hide *;
    AddressedPackets(at, file, code);
    var rest := at.ip + [|at.port|] + at.port + [|file|] + file;
    Behind2(0x44, 2, |at.ip|, rest);
    Behind(0x83, |at.ip|, rest);
    Behind2(0xC2, code, |at.ip|, rest);
  }

  lemma ContentBytes(content: Bytes)
    requires |content| < 0x1_0000_0000
    ensures PutContent(content, []) ==
            [|content| % 256, |content| / 256 % 256, |content| / 65536 % 256, |content| / 16777216] + content
  {
    assert |content| % UINT32_RANGE == |content| && content + [] == content;
    assert |content| / 16777216 < 256;
  }

  /** The length of a file, as a host keeps it that puts the low byte first. */
  lemma FileLayout(code: byte, file: CString, content: Bytes)
    requires |file| < 256 && |content| < 0x1_0000_0000
    ensures var n := |content|;
            Encode(FileContent(code, file, content)) ==
            [0x44, code, |file|] + file + [n % 256, n / 256 % 256, n / 65536 % 256, n / 16777216] + content
  {
    ContentBytes(content);
    hide PutContent;
    TextBytes(file, PutContent(content, []));
    hide PutText;
  }

  // ----- Packets with lists: the empty list, and one machine more -----

  /** A count and a machine more, behind the same head. */
  lemma OneMore(head: Bytes, n: byte, body: Bytes, more: Bytes)
    requires n < 255
    ensures head + ([n + 1] + (body + more)) == (head + ([n] + body))[|head| := n + 1] + more
  {
    var was, now := head + ([n] + body), head + ([n + 1] + (body + more));
    assert was[|head| := n + 1] == head + ([n + 1] + body);
    assert now == head + ([n + 1] + body) + more;
  }

  lemma MachineBytes(m: Endpoint)
    requires ShortEndpoint(m)
    ensures PutEndpoint(m, []) == [|m.ip|] + m.ip + [|m.port|] + m.port
  {
    EndpointBytes(m, []);
    hide *;
    var more := [|m.ip|] + m.ip + [|m.port|] + m.port;
    assert more + [] == more;
  }

  lemma CountBytes(list: seq<Endpoint>, n: byte)
    requires n == |list|
    ensures PutMachines(list, []) == [n] + PutEndpoints(list, [])
  {
    hide PutEndpoints;
    assert |list| % 256 == n;
    var body := PutEndpoints(list, []);
    assert PutMachines(list, []) == [|list| % 256] + body;
  }

  lemma ListBytes(head: Bytes, list: seq<Endpoint>, m: Endpoint)
    requires |list| < 255 && ShortEndpoint(m)
    ensures |PutMachines(list, [])| > 0
    ensures head + PutMachines(list + [m], []) ==
            (head + PutMachines(list, []))[|head| := |list| + 1] + ([|m.ip|] + m.ip + [|m.port|] + m.port)
  {
    assert |m.ip| < 256 && |m.port| < 256;
    hide *;
    CountBytes(list, |list|);
    CountBytes(list + [m], |list| + 1);
    PutOneMore(list, m);
    MachineBytes(m);
    OneMore(head, |list|, PutEndpoints(list, []), PutEndpoint(m, []));
  }

  lemma NeighboursLayout(list: seq<Endpoint>, m: Endpoint)
    requires |list| < 255 && |m.ip| < 256 && |m.port| < 256
    ensures Encode(Neighbours([])) == [0x40, 0]
    ensures |Encode(Neighbours(list))| > 1
    ensures Encode(Neighbours(list + [m])) ==
            Encode(Neighbours(list))[1 := |list| + 1] + ([|m.ip|] + m.ip + [|m.port|] + m.port)
  {
    ListBytes([0x40], list, m);
    hide PutEndpoints;
    assert PutMachines([], []) == [0] + PutEndpoints([], []);
    NoMachines();
  }

  lemma NoMachines()
    ensures PutMachines([], []) == [0]
  {
  }

  lemma NamedListBytes(opcode: byte, file: CString, found: seq<Endpoint>)
    requires |file| < 256
    ensures [opcode] + PutNamedMachines(file, found, []) == [opcode, |file|] + file + PutMachines(found, [])
  {
    hide PutMachines;
    TextBytes(file, PutMachines(found, []));
  }

  lemma AnswerBytes(file: CString, found: seq<Endpoint>)
    requires |file| < 256
    ensures Encode(SearchAnswer(file, found)) == [0x43, |file|] + file + PutMachines(found, [])
    ensures Encode(IntSearchAnswer(file, found)) == [0xC1, |file|] + file + PutMachines(found, [])
  {
    NamedListBytes(0x43, file, found);
    NamedListBytes(0xC1, file, found);
    hide PutMachines, PutNamedMachines;
  }

  lemma AnswerLayout(file: CString)
    requires |file| < 256
    ensures Encode(SearchAnswer(file, [])) == [0x43, |file|] + file + [0]
    ensures Encode(IntSearchAnswer(file, [])) == [0xC1, |file|] + file + [0]
  {
    hide *;
    NoMachines();
    AnswerBytes(file, []);
  }

  lemma AnswerGrows(file: CString, found: seq<Endpoint>, m: Endpoint)
    requires |file| < 256 && |found| < 255 && |m.ip| < 256 && |m.port| < 256
    ensures |Encode(SearchAnswer(file, found))| > 2 + |file|
    ensures Encode(SearchAnswer(file, found + [m])) ==
            Encode(SearchAnswer(file, found))[2 + |file| := |found| + 1] + ([|m.ip|] + m.ip + [|m.port|] + m.port)
  {
    assert ShortEndpoint(m);
    var head := [0x43, |file|] + file;
    assert |head| == 2 + |file|;
    hide *;
    AnswerBytes(file, found);
    AnswerBytes(file, found + [m]);
    ListBytes(head, found, m);
  }

  lemma ClientAnswerGrows(file: CString, found: seq<Endpoint>, m: Endpoint)
    requires |file| < 256 && |found| < 255 && |m.ip| < 256 && |m.port| < 256
    ensures |Encode(IntSearchAnswer(file, found))| > 2 + |file|
    ensures Encode(IntSearchAnswer(file, found + [m])) ==
            Encode(IntSearchAnswer(file, found))[2 + |file| := |found| + 1] + ([|m.ip|] + m.ip + [|m.port|] + m.port)
  {
    assert ShortEndpoint(m);
    var head := [0xC1, |file|] + file;
    assert |head| == 2 + |file|;
    hide *;
    AnswerBytes(file, found);
    AnswerBytes(file, found + [m]);
    ListBytes(head, found, m);
  }

  lemma RequestIs(r: SearchRequest)
    ensures Encode(Search(r)) == [0x03] + PutEndpoint(r.source, PutText(r.file, [r.ttl] + PutMachines(r.found, [])))
  {
    hide PutMachines, PutText, PutEndpoint;
  }

  /** Everything in front of the count. */
  function Head(r: SearchRequest): Bytes
    requires ShortEndpoint(r.source) && |r.file| < 256
  {
    [0x03, |r.source.ip|] + r.source.ip + [|r.source.port|] + r.source.port + [|r.file|] + r.file + [r.ttl]
  }

  lemma HeadIs(r: SearchRequest)
    requires ShortEndpoint(r.source) && |r.file| < 256
    ensures |Head(r)| == 5 + |r.source.ip| + |r.source.port| + |r.file|
    ensures Head(r) + [0] ==
            [0x03, |r.source.ip|] + r.source.ip + [|r.source.port|] + r.source.port + [|r.file|] + r.file + [r.ttl, 0]
  {
  }

  lemma SevenFields(a: Bytes, b: Bytes, c: Bytes, d: Bytes, e: Bytes, f: Bytes, g: Bytes)
    ensures a + b + c + d + (e + f + g) == a + b + c + d + e + f + g
  {
    assert a + b + c + d + (e + f + g) == a + b + c + d + (e + f) + g;
    assert a + b + c + d + (e + f) == a + b + c + d + e + f;
  }

  lemma LastTwo(a: Bytes, f: Bytes, g: Bytes)
    ensures a + (f + g) == a + f + g
  {
  }

  lemma InFront(n: byte, a: Bytes, b: Bytes, c: Bytes, d: Bytes, e: Bytes, f: Bytes, g: Bytes)
    ensures [0x03] + ([n] + a + b + c + d + e + f + g) == [0x03, n] + a + b + c + d + e + f + g
  {
  }

  lemma HeadFields(r: SearchRequest)
    requires ShortEndpoint(r.source) && |r.file| < 256
    ensures Head(r) ==
            [0x03, |r.source.ip|] + r.source.ip + [|r.source.port|] + r.source.port + [|r.file|] + r.file + [r.ttl]
  {
  }

  lemma RequestBytes(r: SearchRequest)
    requires ShortEndpoint(r.source) && |r.file| < 256
    ensures Encode(Search(r)) == Head(r) + PutMachines(r.found, [])
  {
    assert |r.source.ip| < 256 && |r.source.port| < 256;
    hide *;
    var list := PutMachines(r.found, []);
    var tail := [r.ttl] + list;
    RequestIs(r);
    TextBytes(r.file, tail);
    EndpointBytes(r.source, PutText(r.file, tail));
    HeadFields(r);
    var n: byte, a, b, c, d, e := |r.source.ip|, r.source.ip, [|r.source.port|], r.source.port, [|r.file|], r.file;
    SevenFields([n], a, b, c, d, e, tail);
    LastTwo([n] + a + b + c + d + e, [r.ttl], list);
    InFront(n, a, b, c, d, e, [r.ttl], list);
  }

  lemma RequestParts(r: SearchRequest, other: SearchRequest)
    requires ShortEndpoint(r.source) && |r.file| < 256 && other == r.(found := other.found)
    ensures Encode(Search(other)) == Head(r) + PutMachines(other.found, [])
  {
    assert Head(other) == Head(r);
    hide Encode, PutMachines, Head;
    RequestBytes(other);
  }

  /** A request that lists nobody yet: source, file, TTL and count. */
  lemma RequestLayout(r: SearchRequest)
    requires |r.source.ip| < 256 && |r.source.port| < 256 && |r.file| < 256 && r.found == []
    ensures Encode(Search(r)) ==
            [0x03, |r.source.ip|] + r.source.ip + [|r.source.port|] + r.source.port + [|r.file|] + r.file + [r.ttl, 0]
  {
    HeadIs(r);
    RequestParts(r, r);
    hide *;
    NoMachines();
  }

  /** ... and with one machine more. */
  lemma RequestGrows(r: SearchRequest, m: Endpoint)
    requires |r.source.ip| < 256 && |r.source.port| < 256 && |r.file| < 256 && |r.found| < 255
    requires |m.ip| < 256 && |m.port| < 256
    ensures var at := 5 + |r.source.ip| + |r.source.port| + |r.file|;
            && |Encode(Search(r))| > at
            && Encode(Search(r.(found := r.found + [m]))) ==
                 Encode(Search(r))[at := |r.found| + 1] + ([|m.ip|] + m.ip + [|m.port|] + m.port)
  {
    assert ShortEndpoint(m) && ShortEndpoint(r.source);
    HeadIs(r);
    RequestParts(r, r.(found := r.found + [m]));
    RequestParts(r, r);
    hide *;
    ListBytes(Head(r), r.found, m);
  }
}
