/** A file on its way from the disk of its holder to the disk of whoever asked for it. */
module Transfer {
  import opened Basics
  import opened Wire
  import opened Streams

  const CHUNK: nat := 100

  /** The largest `int`: `write_to_packet` takes its length as one. */
  const INT_MAX: nat := INT32_RANGE - 1

  /**
   * The chunked read loop. `buffer` always has room for another chunk behind the prefix read so far, and
   * is copied and enlarged after every read. Sizes are `uint32_t`: when the next allocation would wrap,
   * what the loop does is undefined and the result is None.
   */
  method ReadFile(file: Bytes) returns (content: Option<array<byte>>, length: nat)
    ensures content.Some? <==> |file| + 100 < 0x1_0000_0000
    ensures content.Some? ==> fresh(content.value)
    ensures content.Some? ==> length == |file| <= content.value.Length && content.value[..length] == file
  {
    var fd := new Descriptor(file);
    var buffer := new byte[CHUNK];
    length := 0;
    while true
      invariant fresh(fd) && !fd.broken && fresh(buffer)
      invariant length + CHUNK <= buffer.Length && length + CHUNK < UINT32_RANGE
      invariant length <= |file| && file[length..] == fd.incoming && buffer[..length] == file[..length]
      decreases |fd.incoming|
    {
      var res, chunk := fd.SysRead(CHUNK);
      if res == 0 {
        assert file[..length] == file;
        return Some(buffer), length;
      }
      NextPrefix(file, length, chunk, fd.incoming);
      if length + res + CHUNK >= UINT32_RANGE {
        return None, length + res;
      }
      buffer := Extend(buffer, length, chunk);
      length := length + res;
    }
  }

  /** A chunk read behind the prefix, and the buffer copied into one with room for the next chunk. */
  method Extend(buffer: array<byte>, length: nat, chunk: Bytes) returns (larger: array<byte>)
    requires length + |chunk| <= buffer.Length
    modifies buffer
    ensures fresh(larger) && larger.Length == length + |chunk| + CHUNK
    ensures larger[..length + |chunk|] == old(buffer[..length]) + chunk
  {
    CopyInto(buffer, length, chunk);
    larger := new byte[length + |chunk| + CHUNK];
    CopyInto(larger, 0, buffer[..length + |chunk|]);
  }

  lemma NextPrefix(file: Bytes, was: nat, chunk: Bytes, rest: Bytes)
    requires was <= |file| && file[was..] == chunk + rest
    ensures was + |chunk| <= |file|
    ensures file[was + |chunk|..] == rest && file[..was + |chunk|] == file[..was] + chunk
  {
    assert file == file[..was] + (chunk + rest);
  }

  /** `memcpy` */
  method CopyInto(target: array<byte>, at: nat, data: Bytes)
    requires at + |data| <= target.Length
    modifies target
    ensures target[..at] == old(target[..at]) && target[at..at + |data|] == data
    ensures target[..at + |data|] == old(target[..at]) + data
  {
    for i := 0 to |data|
      invariant target[..at] == old(target[..at]) && target[at..at + i] == data[..i]
    {
      target[at + i] := data[i];
      assert target[at..at + i + 1] == target[at..at + i] + [data[i]];
    }
    assert target[..at + |data|] == target[..at] + target[at..at + |data|];
  }

  /** The reply to CMSG_DOWNLOAD for a file that is there. */
  method SendFile(name: CString, file: Bytes) returns (packet: Option<Bytes>)
    ensures packet == if |file| < 0x8000_0000 then Some(Encode(FileContent(3, name, file))) else None
  {
    hide PacketBuffer.Contents, PacketBuffer.Valid, Encode, PutText, PutWord;
    var content, length := ReadFile(file);
    if content.None? {
      return None;
    }
    var buffer := new PacketBuffer(1 + 1 + 1 + |name| + 4 + length);
    buffer.Write([SMSG + 4]);
    buffer.Write([REMOTE_FOUND]);
    buffer.WriteText(name);
    buffer.Write(PutWord(length, []));
    if length > INT_MAX {
      return None;
    }
    assert content.value[..length] == file;
    buffer.Write(content.value[..length]);
    FileBytes(name, file);
    assert buffer.Contents() == [SMSG + 4] + [REMOTE_FOUND] + PutText(name, []) + PutWord(|file|, []) + file;
    return Some(buffer.Contents());
  }

  lemma ContentBytes(file: Bytes)
    requires |file| < UINT32_RANGE
    ensures PutContent(file, []) == PutWord(|file|, []) + file
  {
    assert file + [] == file;
    var n := |file| % UINT32_RANGE;
    assert n == |file|;
  }

  lemma FileBytes(name: CString, file: Bytes)
    requires |file| <= INT_MAX
    ensures Encode(FileContent(REMOTE_FOUND, name, file)) ==
            [SMSG + 4] + [REMOTE_FOUND] + PutText(name, []) + PutWord(|file|, []) + file
  {
    ContentBytes(file);
    hide PutText, PutContent, PutWord;
    PutTextFirst(name, PutContent(file, []));
  }

  // ----- The receiving side -----

  /** What a file holds after it is opened without truncation and written from its start. */
  function Overwritten(old': Option<Bytes>, content: Bytes): Bytes {
    if old'.Some? && |content| < |old'.value| then content + old'.value[|content|..] else content
  }

  /** The directory of downloadable files. */
  class Directory {
    var files: map<CString, Bytes>

    constructor (files: map<CString, Bytes>)
      ensures this.files == files
    {
      this.files := files;
    }

    function Lookup(name: CString): Option<Bytes>
      reads this
    {
      if name in files then Some(files[name]) else None
    }

    /** `open(O_CREAT | O_WRONLY)`, one write of everything, `close` */
    method Store(name: CString, content: Bytes)
      modifies this
      ensures files == old(files)[name := Overwritten(old(Lookup(name)), content)]
    {
      files := files[name := Overwritten(Lookup(name), content)];
    }
  }

  /** `send_download_error_response` */
  method SendDownloadError(client: Descriptor, code: byte, at: Endpoint, file: CString)
    requires code != REMOTE_FOUND
    modifies client`outgoing
    ensures !client.broken ==> client.outgoing == old(client.outgoing) + Encode(IntDownloadFailed(code, at, file))
  {
    hide PacketBuffer.Contents, PacketBuffer.Valid, PutText, PutEndpoint, Encode;
    var packet := new PacketBuffer(4 + |file| + |at.ip| + |at.port| + 1);
    packet.Write([SMSG_INT + 2]);
    packet.Write([code]);
    packet.WriteEndpoint(at);
    packet.WriteText(file);
    FailedBytes(code, at, file);
    var _ := WriteToFd(client, packet.Contents());
  }

  lemma FailedBytes(code: byte, at: Endpoint, file: CString)
    ensures Encode(IntDownloadFailed(code, at, file)) ==
            [SMSG_INT + 2] + [code] + PutEndpoint(at, []) + PutText(file, [])
  {
    hide PutText, PutEndpoint;
    PutEndpointFirst(at, PutText(file, []));
  }

  method ReadContent(fd: Descriptor) returns (content: Bytes)
    modifies fd`incoming
    ensures !fd.broken && GetContent(old(fd.incoming)).Some? ==> (content, fd.incoming) == GetContent(old(fd.incoming)).value
  {
    ghost var b := fd.incoming;
    var _, word := ReadFromFd(fd, 4);
    var length := if |word| == 4 then GetWord(word).value.0 else 0;
    ghost var rest := fd.incoming;
    var _, buffer := ReadFromFd(fd, length);
    content := buffer;
    if !fd.broken && GetContent(b).Some? {
      assert b == word + rest && rest == b[4..];
      assert rest == buffer + fd.incoming && buffer == rest[..length] && fd.incoming == rest[length..];
    }
  }

  /** What the client is told of an answer. */
  function Outcome(answer: Packet): Packet
    requires answer.FileContent? || answer.FileMissing?
  {
    if answer.FileContent? then IntDownloadDone(answer.file)
    else IntDownloadFailed(REMOTE_NOT_FOUND, answer.at, answer.file)
  }

  /** `handle_remote_download_answer`: reads SMSG_DOWNLOAD after its opcode, stores the file, tells the client. */
  method HandleRemoteDownloadAnswer(fd: Descriptor, directory: Directory, client: Descriptor)
    requires fd != client
    modifies fd`incoming, directory, client`outgoing
    ensures !fd.broken && GetFile(old(fd.incoming)).Some? ==>
              var (answer, rest) := GetFile(old(fd.incoming)).value;
              && fd.incoming == rest
              && directory.files == (if answer.FileContent? then
                   old(directory.files)[answer.file := Overwritten(old(directory.Lookup(answer.file)), answer.content)]
                   else old(directory.files))
              && (!client.broken ==> client.outgoing == old(client.outgoing) + Encode(Outcome(answer)))
  {
    hide GetText, GetEndpoint, GetContent, Encode;
    var code := ReadByte(fd);
    if code == REMOTE_NOT_FOUND {
      var at := ReadEndpoint(fd);
      var missing := ReadText(fd);
      SendDownloadError(client, REMOTE_NOT_FOUND, at, missing);
      return;
    }
    var file := ReadText(fd);
    var content := ReadContent(fd);
    directory.Store(file, content);
    TellDone(client, file);
  }

  method TellDone(client: Descriptor, file: CString)
    modifies client`outgoing
    ensures !client.broken ==> client.outgoing == old(client.outgoing) + Encode(IntDownloadDone(file))
  {
    hide PacketBuffer.Contents, PacketBuffer.Valid, PutText, Encode;
    var packet := new PacketBuffer(3 + |file|);
    packet.Write([SMSG_INT + 2]);
    packet.Write([REMOTE_FOUND]);
    packet.WriteText(file);
    DoneBytes(file);
    var _ := WriteToFd(client, packet.Contents());
  }

  lemma DoneBytes(file: CString)
    ensures Encode(IntDownloadDone(file)) == [SMSG_INT + 2] + [REMOTE_FOUND] + PutText(file, [])
  {
    hide PutText;
  }

  // ----- From disk to disk -----

  lemma FileArrives(name: CString, file: Bytes)
    requires |name| < 256 && |file| <= INT_MAX
    ensures var packet := Encode(FileContent(REMOTE_FOUND, name, file));
            packet != [] && packet[0] == SMSG + 4 &&
            GetFile(packet[1..]) == Some((FileContent(REMOTE_FOUND, name, file), []))
  {
    var p := FileContent(REMOTE_FOUND, name, file);
    FileRoundTrip(p, []);
    assert Encode(p)[1..] == PutBody(p, []);
  }

  /** The new content, and behind it whatever a longer file had there before. */
  lemma OverwrittenAt(old': Option<Bytes>, content: Bytes, i: nat)
    requires i < |Overwritten(old', content)|
    ensures |Overwritten(old', content)| == if old'.Some? && |content| < |old'.value| then |old'.value| else |content|
    ensures Overwritten(old', content)[i] == if i < |content| then content[i] else old'.value[i]
  {
  }

  /** The client is told that a file is there, or that the machine asked does not have it. */
  lemma OutcomeIs(file: CString, content: Bytes, code: byte, at: Endpoint)
    ensures Outcome(FileContent(code, file, content)) == IntDownloadDone(file)
    ensures Outcome(FileMissing(at, file)) == IntDownloadFailed(2, at, file)
  {
  }

  lemma OverwrittenExact(old': Option<Bytes>, content: Bytes)
    ensures Overwritten(old', content) == content <==> old'.None? || |old'.value| <= |content|
  {
  }

  /**
   * A whole download. The file is sent exactly when its length is an `int`; what is then stored equals the
   * sender's file exactly when no longer file of that name was there before, because the receiver does not
   * truncate.
   */
  method Download(name: CString, file: Bytes, directory: Directory, client: Descriptor) returns (sent: bool)
    requires |name| < 256
    modifies directory, client`outgoing
    ensures sent <==> |file| < 0x8000_0000
    ensures !sent ==> directory.files == old(directory.files)
    ensures sent ==> name in directory.files && directory.files.Keys == old(directory.files).Keys + {name}
    ensures sent ==> (directory.files[name] == file <==>
                      name !in old(directory.files) || |old(directory.files)[name]| <= |file|)
  {
    var packet := SendFile(name, file);
    if packet.None? {
      return false;
    }
    FileArrives(name, file);
    hide Encode, GetFile;
    var wire := new Descriptor(packet.value);
    var opcode := ReadByte(wire);
    assert opcode == SMSG + 4;
    OverwrittenExact(directory.Lookup(name), file);
    HandleRemoteDownloadAnswer(wire, directory, client);
    return true;
  }
}
