/** Descriptors as byte streams, the loops that move whole buffers through them, and packets under construction. */
module Streams {
  import opened Basics
  import opened Wire

  /**
   * One end of a connection, or a file: the bytes still to be read before the end of the stream, and the
   * bytes written so far. `broken` makes every system call fail.
   */
  class Descriptor {
    var incoming: Bytes
    var outgoing: Bytes
    var broken: bool

    constructor (incoming: Bytes)
      ensures this.incoming == incoming && outgoing == [] && !broken
    {
      this.incoming, outgoing, broken := incoming, [], false;
    }

    /** `read(2)`: some bytes, at least one unless the stream has ended. */
    method SysRead(size: nat) returns (res: int, chunk: Bytes)
      requires size > 0
      modifies this`incoming
      ensures broken ==> res == -1 && chunk == [] && incoming == old(incoming)
      ensures !broken ==> res == |chunk| <= size && old(incoming) == chunk + incoming
      ensures !broken ==> (res == 0 <==> old(incoming) == [])
    {
      if broken {
        return -1, [];
      }
      var available := if size < |incoming| then size else |incoming|;
      var n: nat :| n <= available && (available > 0 ==> n > 0);
      res, chunk := n, incoming[..n];
      incoming := incoming[n..];
    }

    /** `write(2)`: takes some of the bytes, at least one. */
    method SysWrite(data: Bytes) returns (res: int)
      requires data != []
      modifies this`outgoing
      ensures broken ==> res == -1 && outgoing == old(outgoing)
      ensures !broken ==> 0 < res <= |data| && outgoing == old(outgoing) + data[..res]
    {
      if broken {
        return -1;
      }
      var n: nat :| 0 < n <= |data|;
      outgoing := outgoing + data[..n];
      res := n;
    }
  }

  /** `write_to_fd`: writes again until everything is written. */
  method WriteToFd(fd: Descriptor, data: Bytes) returns (res: int)
    modifies fd`outgoing
    ensures fd.broken && data != [] ==> res == -1 && fd.outgoing == old(fd.outgoing)
    ensures !fd.broken ==> res == 0 && fd.outgoing == old(fd.outgoing) + data
  {
    var written := 0;
    while written < |data|
      invariant 0 <= written <= |data|
      invariant fd.outgoing == old(fd.outgoing) + data[..written]
      invariant fd.broken ==> written == 0
    {
      res := fd.SysWrite(data[written..]);
      if res == -1 {
        return -1;
      }
      assert data[..written + res] == data[..written] + data[written..][..res];
      written := written + res;
    }
    assert data[..written] == data;
    res := 0;
  }

  /**
   * `read_from_fd`: reads again until the buffer is full. On success it returns the size (its header says
   * 0); when the stream ends first it returns 0 and leaves what it got in the buffer.
   */
  method ReadFromFd(fd: Descriptor, size: nat) returns (res: int, buffer: Bytes)
    modifies fd`incoming
    ensures fd.broken && size > 0 ==> res == -1 && fd.incoming == old(fd.incoming)
    ensures !fd.broken ==> old(fd.incoming) == buffer + fd.incoming
    ensures !fd.broken && |old(fd.incoming)| >= size ==> res == size == |buffer|
    ensures !fd.broken && |old(fd.incoming)| < size ==> res == 0 && fd.incoming == []
    ensures size == 0 ==> fd.incoming == old(fd.incoming) && res == 0
  {
    var count := 0;
    buffer := [];
    while count < size
      invariant count == |buffer| <= size
      invariant old(fd.incoming) == buffer + fd.incoming
      invariant fd.broken ==> count == 0
    {
      var chunk;
      res, chunk := fd.SysRead(size - count);
      if res == -1 {
        return -1, buffer;
      } else if res == 0 {
        return 0, buffer;
      }
      buffer := buffer + chunk;
      count := count + res;
    }
    res := count;
  }

  // ----- Reading fields -----

  /** A one-byte field. A handler never looks at the result of a read; after the end it sees garbage. */
  method ReadByte(fd: Descriptor) returns (b: byte)
    modifies fd`incoming
    ensures !fd.broken && old(fd.incoming) != [] ==> b == old(fd.incoming)[0] && fd.incoming == old(fd.incoming)[1..]
  {
    var res, buffer := ReadFromFd(fd, 1);
    if res == 1 && |buffer| == 1 {
      b := buffer[0];
    } else {
      b := *;
    }
  }

  /** A length byte, that many characters, and the terminator the handler adds. */
  method ReadText(fd: Descriptor) returns (s: CString)
    modifies fd`incoming
    ensures !fd.broken && GetText(old(fd.incoming)).Some? ==> (s, fd.incoming) == GetText(old(fd.incoming)).value
  {
    ghost var b := fd.incoming;
    var length := ReadByte(fd);
    ghost var rest := fd.incoming;
    var _, buffer := ReadFromFd(fd, length);
    s := UntilNul(buffer);
    if !fd.broken && GetText(b).Some? {
      assert rest == b[1..] && rest == buffer + fd.incoming;
      assert buffer == rest[..length] && fd.incoming == rest[length..];
      assert b[1..1 + length as int] == rest[..length] && b[1 + length as int..] == rest[length..];
    }
  }

  method ReadEndpoint(fd: Descriptor) returns (e: Endpoint)
    modifies fd`incoming
    ensures !fd.broken && GetEndpoint(old(fd.incoming)).Some? ==> (e, fd.incoming) == GetEndpoint(old(fd.incoming)).value
  {
    var ip := ReadText(fd);
    var port := ReadText(fd);
    e := Endpoint(ip, port);
  }

  /** The loop over `nb_ips` machines that every list reader repeats. */
  method ReadMachines(fd: Descriptor) returns (list: seq<Endpoint>)
    modifies fd`incoming
    ensures !fd.broken && GetMachines(old(fd.incoming)).Some? ==> (list, fd.incoming) == GetMachines(old(fd.incoming)).value
  {
    ghost var all := GetMachines(fd.incoming);
    ghost var ok := !fd.broken && all.Some?;
    if ok {
      RemainingStart(fd.incoming);
    }
    var count := ReadByte(fd);
    list := [];
    hide GetMachines, GetEndpoint;
    for i := 0 to count
      invariant |list| == i
      invariant ok ==> Remaining(all.value, list, count - i, fd.incoming)
    {
      if ok {
        RemainingStep(all.value, list, count - i, fd.incoming);
      }
      var e := ReadEndpoint(fd);
      list := list + [e];
    }
    assert list + [] == list;
  }

  /** What was read so far, and the machines still to be read, make up the whole. */
  ghost predicate Remaining(all: (seq<Endpoint>, Bytes), list: seq<Endpoint>, count: nat, b: Bytes) {
    GetEndpoints(count, b).Some? && all == (list + GetEndpoints(count, b).value.0, GetEndpoints(count, b).value.1)
  }

  lemma RemainingStart(b: Bytes)
    requires GetMachines(b).Some?
    ensures b != [] && Remaining(GetMachines(b).value, [], b[0], b[1..])
  {
    var list := GetMachines(b).value.0;
    assert [] + list == list;
  }

  lemma RemainingStep(all: (seq<Endpoint>, Bytes), list: seq<Endpoint>, count: nat, b: Bytes)
    requires count > 0 && Remaining(all, list, count, b)
    ensures GetEndpoint(b).Some?
    ensures var (e, rest) := GetEndpoint(b).value; Remaining(all, list + [e], count - 1, rest)
  {
    hide GetEndpoint;
    var (e, rest) := GetEndpoint(b).value;
    var tail := GetEndpoints(count - 1, rest).value.0;
    assert list + ([e] + tail) == list + [e] + tail;
  }

  // ----- Building packets -----

  /**
   * An allocated packet and the cursor that moves through it. C leaves open what a write past the
   * allocation does; here such bytes go to `beyond`, so that a packet that was allocated too small is
   * still followed to its end.
   */
  class PacketBuffer {
    const data: array<byte>
    var cursor: nat
    var beyond: Bytes

    ghost predicate Valid()
      reads this, data
    {
      cursor <= data.Length && (cursor < data.Length ==> beyond == [])
    }

    function Contents(): Bytes
      requires Valid()
      reads this, data
    {
      data[..cursor] + beyond
    }

    constructor (capacity: nat)
      ensures Valid() && fresh(data) && data.Length == capacity && Contents() == []
    {
      data := new byte[capacity];
      cursor, beyond := 0, [];
    }

    method WriteByte(b: byte)
      requires Valid()
      modifies this, data
      ensures Valid() && Contents() == old(Contents()) + [b]
    {
      if cursor < data.Length {
        data[cursor] := b;
        cursor := cursor + 1;
        assert data[..cursor] == old(data[..cursor]) + [b];
      } else {
        beyond := beyond + [b];
      }
    }

    /** `write_to_packet` */
    method Write(bytes: Bytes)
      requires Valid()
      modifies this, data
      ensures Valid() && Contents() == old(Contents()) + bytes
    {
      for i := 0 to |bytes|
        invariant Valid() && Contents() == old(Contents()) + bytes[..i]
      {
        WriteByte(bytes[i]);
        assert bytes[..i + 1] == bytes[..i] + [bytes[i]];
      }
      assert bytes[..|bytes|] == bytes;
    }

    /** `uint8_t length = strlen(s)`, and both written. */
    method WriteText(s: CString)
      requires Valid()
      modifies this, data
      ensures Valid() && Contents() == old(Contents()) + PutText(s, [])
    {
      var length := |s| % 256;
      Write([length]);
      Write(s[..length]);
    }

    method WriteEndpoint(e: Endpoint)
      requires Valid()
      modifies this, data
      ensures Valid() && Contents() == old(Contents()) + PutEndpoint(e, [])
    {
      hide PutText;
      WriteText(e.ip);
      WriteText(e.port);
      PutTextAppends(e.ip, [], PutText(e.port, []));
      assert [] + PutText(e.port, []) == PutText(e.port, []);
    }

    /** The loop that writes a list of machines behind its length byte. */
    method WriteEndpoints(list: seq<Endpoint>)
      requires Valid()
      modifies this, data
      ensures Valid() && Contents() == old(Contents()) + PutEndpoints(list, [])
    {
      hide PutEndpoint;
      for i := 0 to |list|
        invariant Valid() && Contents() == old(Contents()) + PutEndpoints(list[..i], [])
      {
        WriteEndpoint(list[i]);
        assert list[..i + 1] == list[..i] + [list[i]];
        PutOneMore(list[..i], list[i]);
      }
      assert list[..|list|] == list;
    }

    /** The packet did not fit what was allocated for it. */
    predicate Overran()
      requires Valid()
      reads this, data
      ensures Overran() <==> |Contents()| > data.Length
    {
      beyond != []
    }
  }
}
