/** The client's index of files and the machines that have them, filled from SMSG_INT_SEARCH. */
module ClientIndex {
  import opened Basics
  import opened Wire
  import opened Streams
  import Flood

  datatype Record = Record(file: CString, machines: seq<Endpoint>)

  /** One answer as the client receives it. */
  datatype SearchResult = SearchResult(file: CString, found: seq<Endpoint>)

  // ----- The index as a value -----

  function Position(records: seq<Record>, file: CString): (r: Option<nat>)
    ensures r.Some? ==> r.value < |records| && records[r.value].file == file
    ensures r.None? <==> forall i :: 0 <= i < |records| ==> records[i].file != file
  {
    if records == [] then None
    else if records[0].file == file then Some(0)
    else
      var r :- Position(records[1..], file);
      Some(r + 1)
  }

  /** Appends each machine that is not listed yet. */
  function AddMissing(machines: seq<Endpoint>, found: seq<Endpoint>): seq<Endpoint> {
    if found == [] then machines
    else
      var n := |found| - 1;
      var before := AddMissing(machines, found[..n]);
      if found[n] in before then before else before + [found[n]]
  }

  /** The records after one answer: only a file seen before has its machines compared. */
  function Absorb(records: seq<Record>, a: SearchResult): seq<Record> {
    var p := Position(records, a.file);
    if p.None? then records + [Record(a.file, a.found)]
    else records[p.value := Record(a.file, AddMissing(records[p.value].machines, a.found))]
  }

  function AbsorbAll(answers: seq<SearchResult>): seq<Record> {
    if answers == [] then []
    else
      var n := |answers| - 1;
      Absorb(AbsorbAll(answers[..n]), answers[n])
  }

  predicate UniqueFiles(records: seq<Record>) {
    forall i, j :: 0 <= i < j < |records| ==> records[i].file != records[j].file
  }

  ghost predicate Duplicates<T>(s: seq<T>) {
    exists i, j :: 0 <= i < j < |s| && s[i] == s[j]
  }

  /** What the network model keeps of an index. */
  ghost function AsMap(records: seq<Record>): map<CString, set<Endpoint>> {
    map r | r in records :: r.file := MachinesOf(records, r.file)
  }

  ghost function MachinesOf(records: seq<Record>, file: CString): set<Endpoint> {
    set r, m | r in records && r.file == file && m in r.machines :: m
  }

  /** All machines that some answer listed for the file. */
  ghost function Answered(answers: seq<SearchResult>, file: CString): set<Endpoint> {
    set a, m | a in answers && a.file == file && m in a.found :: m
  }

  /** The first answer about a file. */
  function FirstAnswer(answers: seq<SearchResult>, file: CString): Option<seq<Endpoint>> {
    if answers == [] then None
    else
      var n := |answers| - 1;
      var before := FirstAnswer(answers[..n], file);
      if before.Some? then before
      else if answers[n].file == file then Some(answers[n].found)
      else None
  }

  // ----- The index as the client keeps it -----

  class FileLookup {
    const filename: CString
    var machines: seq<Endpoint>

    constructor (filename: CString)
      ensures this.filename == filename && machines == []
    {
      this.filename, machines := filename, [];
    }

    /** `has_file_machine_record` */
    method HasMachine(e: Endpoint) returns (found: bool)
      ensures found <==> e in machines
    {
      var i := 0;
      while i < |machines|
        invariant 0 <= i <= |machines| && e !in machines[..i]
      {
        if machines[i].ip == e.ip && machines[i].port == e.port {
          return true;
        }
        i := i + 1;
      }
      return false;
    }
  }

  class Client {
    const server: Descriptor
    var machinesByFiles: seq<FileLookup>

    ghost predicate Valid()
      reads this
    {
      && (forall i, j :: 0 <= i < j < |machinesByFiles| ==> machinesByFiles[i] != machinesByFiles[j])
      && (forall i, j :: 0 <= i < j < |machinesByFiles| ==> machinesByFiles[i].filename != machinesByFiles[j].filename)
    }

    ghost function Records(): (r: seq<Record>)
      reads this, machinesByFiles
      ensures |r| == |machinesByFiles|
    {
      seq(|machinesByFiles|, i requires 0 <= i < |machinesByFiles| reads this, machinesByFiles =>
        Record(machinesByFiles[i].filename, machinesByFiles[i].machines))
    }

    constructor (server: Descriptor)
      ensures Valid() && Records() == [] && this.server == server
    {
      this.server, machinesByFiles := server, [];
    }

    /** `has_file_record` */
    method FindRecord(file: CString) returns (p: Option<nat>)
      ensures p == Position(Records(), file)
      ensures p.None? ==> forall l :: l in machinesByFiles ==> l.filename != file
    {
      var i := 0;
      while i < |machinesByFiles|
        invariant 0 <= i <= |machinesByFiles|
        invariant forall j :: 0 <= j < i ==> machinesByFiles[j].filename != file
      {
        if machinesByFiles[i].filename == file {
          FirstPosition(Records(), file, i);
          return Some(i);
        }
        i := i + 1;
      }
      assert forall l :: l in machinesByFiles ==> l.filename != file;
      return None;
    }

    /** One machine of an answer: compared only with the machines of a file seen before. */
    method Note(lookup: FileLookup, e: Endpoint, seenBefore: bool)
      modifies lookup`machines
      ensures lookup.machines == old(lookup.machines) + if seenBefore && e in old(lookup.machines) then [] else [e]
    {
      if seenBefore {
        var present := lookup.HasMachine(e);
        if !present {
          lookup.machines := lookup.machines + [e];
        }
      } else {
        lookup.machines := lookup.machines + [e];
      }
    }

    /** The loop over the machines of an answer. */
    method ReadInto(lookup: FileLookup, seenBefore: bool) returns (ghost list: seq<Endpoint>)
      modifies lookup`machines, server`incoming
      ensures lookup.machines == Noted(old(lookup.machines), list, seenBefore)
      ensures !server.broken && GetMachines(old(server.incoming)).Some? ==>
                (list, server.incoming) == GetMachines(old(server.incoming)).value
    {
      ghost var all, was := GetMachines(server.incoming), lookup.machines;
      ghost var ok := !server.broken && all.Some?;
      if ok {
        RemainingStart(server.incoming);
      }
      var count := ReadByte(server);
      list := [];
      assert was + [] == was;
      hide GetMachines, GetEndpoint;
      for i := 0 to count
        invariant ok ==> Remaining(all.value, list, count - i, server.incoming)
        invariant lookup.machines == Noted(was, list, seenBefore)
      {
        if ok {
          RemainingStep(all.value, list, count - i, server.incoming);
        }
        var e := ReadEndpoint(server);
        NotedStep(was, list, e, seenBefore);
        Note(lookup, e, seenBefore);
        list := list + [e];
      }
      assert list + [] == list;
    }

    /** `handle_search_answer`: reads SMSG_INT_SEARCH after its opcode, filling the index as it goes. */
    method HandleSearchAnswer()
      requires Valid()
      modifies this`machinesByFiles, server`incoming, machinesByFiles
      ensures Valid()
      ensures forall l :: l in machinesByFiles ==> l in old(machinesByFiles) || fresh(l)
      ensures var answer := GetNamedMachines(old(server.incoming));
              !server.broken && answer.Some? ==>
                var ((file, found), rest) := answer.value;
                server.incoming == rest && Records() == Absorb(old(Records()), SearchResult(file, found))
    {
      hide GetMachines, GetText, Position, AddMissing;
      ghost var before := Records();
      var filename := ReadText(server);
      var p := FindRecord(filename);
      var at := if p.Some? then p.value else |machinesByFiles|;
      if p.None? {
        var created := new FileLookup(filename);
        machinesByFiles := machinesByFiles + [created];
      }
      var lookup := machinesByFiles[at];
      assert forall i :: 0 <= i < |machinesByFiles| && i != at ==> machinesByFiles[i] != lookup;
      ghost var list := ReadInto(lookup, p.Some?);
      ghost var after := Absorb(before, SearchResult(filename, list));
      forall i | 0 <= i < |machinesByFiles|
        ensures i < |after| && Records()[i] == after[i]
      {
      }
    }
  }

  /** The machines of a record once `list` was read. */
  ghost function Noted(was: seq<Endpoint>, list: seq<Endpoint>, seenBefore: bool): seq<Endpoint> {
    if seenBefore then AddMissing(was, list) else was + list
  }

  lemma NotedStep(was: seq<Endpoint>, list: seq<Endpoint>, e: Endpoint, seenBefore: bool)
    ensures var now := Noted(was, list, seenBefore);
            Noted(was, list + [e], seenBefore) == now + if seenBefore && e in now then [] else [e]
  {
    assert (list + [e])[..|list|] == list;
  }

  lemma {:induction false} FirstPosition(records: seq<Record>, file: CString, i: nat)
    requires i < |records| && records[i].file == file
    requires forall j :: 0 <= j < i ==> records[j].file != file
    ensures Position(records, file) == Some(i)
  {
    if i > 0 {
      FirstPosition(records[1..], file, i - 1);
    }
  }

  // ----- What the index means -----

  /** Comparing with the list adds exactly what is missing, behind what was there, and repeats nothing new. */
  lemma {:induction false} AddMissingExact(machines: seq<Endpoint>, found: seq<Endpoint>)
    ensures var now := AddMissing(machines, found);
            && machines <= now
            && (forall m :: m in now <==> m in machines || m in found)
            && (Duplicates(now) <==> Duplicates(machines))
  {
    if found != [] {
      var n := |found| - 1;
      var before := AddMissing(machines, found[..n]);
      AddMissingExact(machines, found[..n]);
      assert found == found[..n] + [found[n]];
      if found[n] !in before {
        AppendKeepsDuplicates(before, found[n]);
      }
    }
  }

  lemma AppendKeepsDuplicates<T>(s: seq<T>, x: T)
    requires x !in s
    ensures Duplicates(s + [x]) <==> Duplicates(s)
  {
    if Duplicates(s) {
      var i, j :| 0 <= i < j < |s| && s[i] == s[j];
      assert (s + [x])[i] == (s + [x])[j];
    }
    if Duplicates(s + [x]) {
      var i, j :| 0 <= i < j < |s + [x]| && (s + [x])[i] == (s + [x])[j];
      assert j < |s| ==> s[i] == s[j];
    }
  }

  lemma UniquePosition(records: seq<Record>, file: CString, i: nat)
    requires UniqueFiles(records) && i < |records| && records[i].file == file
    ensures Position(records, file) == Some(i)
  {
    FirstPosition(records, file, i);
  }

  /** One answer: files stay unique, and exactly the answered file gains exactly the answered machines. */
  lemma AbsorbExact(records: seq<Record>, a: SearchResult, file: CString)
    requires UniqueFiles(records)
    ensures var now := Absorb(records, a);
            && UniqueFiles(now)
            && ((exists r :: r in now && r.file == file) <==> (exists r :: r in records && r.file == file) || a.file == file)
            && MachinesOf(now, file) == MachinesOf(records, file) + if a.file == file then set m | m in a.found else {}
  {
    var now := Absorb(records, a);
    var p := Position(records, a.file);
    hide Position;
    if p.Some? {
      AddMissingExact(records[p.value].machines, a.found);
      AbsorbKnown(records, a, p.value, file);
    } else {
      assert now[|records|] == Record(a.file, a.found);
      assert forall r :: r in now <==> r in records || r == Record(a.file, a.found);
    }
  }

  lemma AbsorbKnown(records: seq<Record>, a: SearchResult, p: nat, file: CString)
    requires UniqueFiles(records) && p < |records| && records[p].file == a.file
    requires forall m :: m in AddMissing(records[p].machines, a.found) <==> m in records[p].machines || m in a.found
    ensures var now := records[p := Record(a.file, AddMissing(records[p].machines, a.found))];
            && UniqueFiles(now)
            && ((exists r :: r in now && r.file == file) <==> (exists r :: r in records && r.file == file))
            && MachinesOf(now, file) == MachinesOf(records, file) + if a.file == file then set m | m in a.found else {}
  {
    hide AddMissing;
    var fresh' := Record(a.file, AddMissing(records[p].machines, a.found));
    var now := records[p := fresh'];
    assert now[p] == fresh' && records[p] in records && fresh' in now;
    forall r | r in records && r != records[p]
      ensures r in now
    {
      var i :| 0 <= i < |records| && records[i] == r;
      assert now[i] == r;
    }
    forall r | r in now && r != fresh'
      ensures r in records && r != records[p]
    {
      var i :| 0 <= i < |now| && now[i] == r;
      assert i != p && records[i] == r;
    }
  }

  /** Machines go in where the answer first lists them. */
  lemma AddsLast(machines: seq<Endpoint>, found: seq<Endpoint>, m: Endpoint)
    ensures AddMissing(machines, []) == machines
    ensures AddMissing(machines, found + [m]) ==
            AddMissing(machines, found) + if m in machines || m in found then [] else [m]
  {
    assert (found + [m])[..|found|] == found;
    AddMissingExact(machines, found);
  }

  /** An answer leaves every record in its place with its machines in front; a new file's record comes last. */
  lemma AbsorbInOrder(records: seq<Record>, a: SearchResult)
    ensures var now := Absorb(records, a);
            if exists r :: r in records && r.file == a.file then |now| == |records|
            else now == records + [Record(a.file, a.found)]
    ensures var now := Absorb(records, a);
            forall i :: 0 <= i < |records| ==>
              && now[i].file == records[i].file && records[i].machines <= now[i].machines
              && (records[i].file != a.file ==> now[i] == records[i])
  {
    var p := Position(records, a.file);
    hide Position, AddMissing;
    if p.Some? {
      AddMissingExact(records[p.value].machines, a.found);
      assert records[p.value] in records;
    }
  }

  /**
   * The client's index refines a map from files to sets of machines: after any sequence of answers every
   * file has one record, a file has one exactly when some answer named it, and its machines are the union
   * of all answers for it.
   */
  lemma {:induction false} IndexIsUnion(answers: seq<SearchResult>, file: CString)
    ensures var records := AbsorbAll(answers);
            && UniqueFiles(records)
            && ((exists r :: r in records && r.file == file) <==> (exists a :: a in answers && a.file == file))
            && MachinesOf(records, file) == Answered(answers, file)
  {
    if answers != [] {
      var n := |answers| - 1;
      IndexIsUnion(answers[..n], file);
      AbsorbExact(AbsorbAll(answers[..n]), answers[n], file);
      assert answers == answers[..n] + [answers[n]];
      assert forall a :: a in answers <==> a in answers[..n] || a == answers[n];
    }
  }

  /**
   * A file's machines are listed without repetition exactly when its first answer listed them without
   * repetition: only that answer goes in unchecked.
   */
  lemma {:induction false} DuplicatesExact(answers: seq<SearchResult>, file: CString)
    ensures var records := AbsorbAll(answers);
            var p := Position(records, file);
            && p.Some? == FirstAnswer(answers, file).Some?
            && (p.Some? ==> (Duplicates(records[p.value].machines) <==> Duplicates(FirstAnswer(answers, file).value)))
  {
    if answers != [] {
      var n := |answers| - 1;
      DuplicatesExact(answers[..n], file);
      var records, a := AbsorbAll(answers[..n]), answers[n];
      IndexIsUnion(answers[..n], file);
      DuplicatesNext(records, a, file);
    }
  }

  lemma {:induction false} DuplicatesNext(records: seq<Record>, a: SearchResult, file: CString)
    requires UniqueFiles(records)
    ensures var now, p := Absorb(records, a), Position(records, file);
            var p' := Position(now, file);
            && p'.Some? == (p.Some? || a.file == file)
            && (p.Some? ==> (Duplicates(now[p'.value].machines) <==> Duplicates(records[p.value].machines)))
            && (p.None? && a.file == file ==> now[p'.value].machines == a.found)
  {
    var now, p := Absorb(records, a), Position(records, file);
    AbsorbExact(records, a, file);
    hide Position, AddMissing;
    if p.Some? {
      assert now[p.value].file == file;
      UniquePosition(now, file, p.value);
      if a.file == file {
        AddMissingExact(records[p.value].machines, a.found);
      }
    } else if a.file == file {
      assert now[|records|] == Record(file, a.found);
      UniquePosition(now, file, |records|);
    }
  }

  /** In the network model's terms: one answer read by a client is one merge of its index. */
  lemma AbsorbRefinesMerge(records: seq<Record>, a: SearchResult)
    requires UniqueFiles(records)
    ensures AsMap(Absorb(records, a)) == Flood.Merge(AsMap(records), a.file, a.found)
  {
    var now := Absorb(records, a);
    forall file
      ensures file in AsMap(now) <==> file in AsMap(records) || file == a.file
      ensures file in AsMap(now) ==> AsMap(now)[file] == Flood.Merge(AsMap(records), a.file, a.found)[file]
    {
      AbsorbExact(records, a, file);
      hide Absorb;
      if file !in AsMap(records) {
        assert MachinesOf(records, file) == {};
      }
    }
  }
}
