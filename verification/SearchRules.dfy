/** What one node decides about one search request; shared by the handlers and the network model. */
module SearchRules {
  import opened Basics
  import opened Wire

  const DEFAULT_TTL: byte := 10
  const MAX_NEIGHBOURS: nat := 5
  const NO_SOCKET: int := -1

  /** An entry of `received_search_requests`. */
  datatype LogEntry = LogEntry(timer: int, source: Endpoint, file: CString)

  /**
   * `check_unique_request` as written: an entry makes the request a duplicate when its file and source
   * address are the same and its source port is *different*.
   */
  predicate CodeUnique(log: seq<LogEntry>, req: SearchRequest) {
    forall e :: e in log ==>
      !(e.file == req.file && e.source.ip == req.source.ip && e.source.port != req.source.port)
  }

  /** As documented: an entry with the same file, source address and source port. */
  predicate IntendedUnique(log: seq<LogEntry>, req: SearchRequest) {
    forall e :: e in log ==> !(e.file == req.file && e.source == req.source)
  }

  /** The log has a search for the file from the same address: with the same port, or with another. */
  predicate HasSearch(log: seq<LogEntry>, req: SearchRequest, samePort: bool) {
    exists e :: e in log && e.file == req.file && e.source.ip == req.source.ip &&
      (e.source.port == req.source.port) == samePort
  }

  /**
   * What the comparison of ports as written costs: the two tests agree exactly when the log has this search
   * both from the same port and from another one, or from neither. So where each address has one port, the
   * code takes every request for unique, and agrees only about those that are.
   */
  lemma UniqueTestsExact(log: seq<LogEntry>, req: SearchRequest)
    ensures CodeUnique(log, req) == IntendedUnique(log, req) <==>
            HasSearch(log, req, true) == HasSearch(log, req, false)
    ensures (forall e :: e in log && e.source.ip == req.source.ip ==> e.source.port == req.source.port) ==>
              CodeUnique(log, req)
  {
    assert CodeUnique(log, req) <==> !HasSearch(log, req, false);
    assert IntendedUnique(log, req) <==> !HasSearch(log, req, true) by {
      if e :| e in log && e.file == req.file && e.source == req.source {
        assert HasSearch(log, req, true);
      }
      if HasSearch(log, req, true) {
        var e :| e in log && e.file == req.file && e.source.ip == req.source.ip && e.source.port == req.source.port;
        assert e.source == req.source;
      }
    }
  }

  /** The machines listed by the rebuilt packet: those of the request, and this one if it was a hit. */
  function Listed(req: SearchRequest, self: Endpoint, hit: bool): (list: seq<Endpoint>)
    ensures req.found <= list && (!hit ==> list == req.found)
    ensures hit ==> |list| == |req.found| + 1 && list[|list| - 1] == self
  {
    req.found + if hit then [self] else []
  }

  /** The request a node passes on. */
  function Relayed(req: SearchRequest, self: Endpoint, hit: bool): SearchRequest
    requires req.ttl > 0
  {
    SearchRequest(req.source, req.file, req.ttl - 1, Listed(req, self, hit))
  }

  /** The packet `answer_remote_search_request` builds. */
  function Rebuilt(req: SearchRequest, self: Endpoint, answer: bool, hit: bool): Packet
    requires answer || req.ttl > 0
  {
    if answer then SearchAnswer(req.file, Listed(req, self, hit)) else Search(Relayed(req, self, hit))
  }

  /** The answer decision as written: it fires for the *unique* requests. */
  predicate CodeAnswers(log: seq<LogEntry>, req: SearchRequest) {
    CodeUnique(log, req) || req.ttl == 0
  }

  /** The answer decision its comment describes: seen before, or as far as it may go. */
  predicate IntendedAnswers(log: seq<LogEntry>, req: SearchRequest) {
    !IntendedUnique(log, req) || req.ttl == 0
  }

  /**
   * When a request is relayed and not answered: by the code, if it has TTL left and the log has this search
   * from another port of the same address; by the comments, if it has TTL left and the log does not have it.
   */
  lemma RelayedExact(log: seq<LogEntry>, req: SearchRequest)
    ensures !CodeAnswers(log, req) <==> req.ttl > 0 && HasSearch(log, req, false)
    ensures !IntendedAnswers(log, req) <==> req.ttl > 0 && !HasSearch(log, req, true)
  {
    if e :| e in log && e.file == req.file && e.source == req.source {
      assert HasSearch(log, req, true);
    }
    if HasSearch(log, req, true) {
      var e :| e in log && e.file == req.file && e.source.ip == req.source.ip && e.source.port == req.source.port;
      assert e.source == req.source;
    }
  }

  /** `update_log_timers` as written: an entry goes when its timer is within this turn's duration. */
  function CodeTick(log: seq<LogEntry>, ms: nat): seq<LogEntry> {
    if log == [] then []
    else (if log[0].timer <= ms then [] else [log[0]]) + CodeTick(log[1..], ms)
  }

  /** As documented: timers count down, and an entry goes when its timer reaches zero. */
  function IntendedTick(log: seq<LogEntry>, ms: nat): seq<LogEntry> {
    if log == [] then []
    else
      (if log[0].timer <= ms then [] else [log[0].(timer := log[0].timer - ms)]) + IntendedTick(log[1..], ms)
  }

  function Total(turns: seq<nat>): nat {
    if turns == [] then 0 else turns[0] + Total(turns[1..])
  }

  function AfterTurns(tick: (seq<LogEntry>, nat) -> seq<LogEntry>, log: seq<LogEntry>, turns: seq<nat>): seq<LogEntry>
    decreases |turns|
  {
    if turns == [] then log else AfterTurns(tick, tick(log, turns[0]), turns[1..])
  }

  lemma {:induction false} CodeLifetime(entry: LogEntry, turns: seq<nat>)
    ensures AfterTurns(CodeTick, [entry], turns) ==
            if exists t :: t in turns && entry.timer <= t then [] else [entry]
    decreases |turns|
  {
    if turns != [] {
      assert [entry][1..] == [];
      if entry.timer <= turns[0] {
        assert turns[0] in turns;
        NothingLeft(turns[1..]);
      } else {
        CodeLifetime(entry, turns[1..]);
        assert forall t :: t in turns <==> t == turns[0] || t in turns[1..];
      }
    }
  }

  lemma {:induction false} NothingLeft(turns: seq<nat>)
    ensures AfterTurns(CodeTick, [], turns) == [] && AfterTurns(IntendedTick, [], turns) == []
  {
    if turns != [] {
      NothingLeft(turns[1..]);
    }
  }

  lemma {:induction false} IntendedLifetime(entry: LogEntry, turns: seq<nat>)
    requires entry.timer > 0
    ensures AfterTurns(IntendedTick, [entry], turns) ==
            if entry.timer <= Total(turns) then [] else [entry.(timer := entry.timer - Total(turns))]
    decreases |turns|
  {
    if turns != [] {
      assert [entry][1..] == [];
      if entry.timer <= turns[0] {
        NothingLeft(turns[1..]);
      } else {
        IntendedLifetime(entry.(timer := entry.timer - turns[0]), turns[1..]);
      }
    }
  }

  /** After these turns both timers agree whether the entry is still there. */
  predicate SameFate(entry: LogEntry, turns: seq<nat>) {
    (AfterTurns(CodeTick, [entry], turns) == []) == (AfterTurns(IntendedTick, [entry], turns) == [])
  }

  /** The k-th turn is the one in which the accumulated time reaches the timer. */
  predicate RunsOut(timer: int, turns: seq<nat>, k: nat)
    requires k < |turns|
  {
    Total(turns[..k]) < timer <= Total(turns[..k + 1])
  }

  lemma FateExact(entry: LogEntry, turns: seq<nat>)
    requires entry.timer > 0
    ensures SameFate(entry, turns) <==> (Total(turns) < entry.timer || exists t :: t in turns && entry.timer <= t)
  {
    CodeLifetime(entry, turns);
    IntendedLifetime(entry, turns);
    forall t | t in turns
      ensures t <= Total(turns)
    {
      TurnWithinTotal(turns, t);
    }
  }

  /**
   * The code drops an entry in the same turn as documented if and only if the turn in which its time runs
   * out is alone as long as its timer: an entry whose time is used up by several shorter turns stays.
   */
  lemma LifetimeExact(entry: LogEntry, turns: seq<nat>)
    requires entry.timer > 0
    ensures (forall k :: 0 <= k <= |turns| ==> SameFate(entry, turns[..k])) <==>
            (forall k :: 0 <= k < |turns| && RunsOut(entry.timer, turns, k) ==> entry.timer <= turns[k])
  {
    hide SameFate;
    if forall k :: 0 <= k <= |turns| ==> SameFate(entry, turns[..k]) {
      forall k | 0 <= k < |turns| && RunsOut(entry.timer, turns, k)
        ensures entry.timer <= turns[k]
      {
        TotalSnoc(turns, k);
        FateExact(entry, turns[..k + 1]);
        var t :| t in turns[..k + 1] && entry.timer <= t;
        if t in turns[..k] {
          TurnWithinTotal(turns[..k], t);
        }
      }
    }
    if forall k :: 0 <= k < |turns| && RunsOut(entry.timer, turns, k) ==> entry.timer <= turns[k] {
      forall k | 0 <= k <= |turns|
        ensures SameFate(entry, turns[..k])
      {
        FateExact(entry, turns[..k]);
        if entry.timer <= Total(turns[..k]) {
          var i := LastBefore(entry.timer, turns, k);
          assert turns[..k][i] in turns[..k];
        }
      }
    }
  }

  lemma TotalSnoc(turns: seq<nat>, k: nat)
    requires k < |turns|
    ensures turns[..k + 1] == turns[..k] + [turns[k]]
    ensures Total(turns[..k + 1]) == Total(turns[..k]) + turns[k]
  {
    TotalAppend(turns[..k], turns[k]);
    assert turns[..k + 1] == turns[..k] + [turns[k]];
  }

  lemma {:induction false} TotalAppend(turns: seq<nat>, t: nat)
    ensures Total(turns + [t]) == Total(turns) + t
  {
    if turns == [] {
      assert [t][1..] == [];
    } else {
      assert (turns + [t])[1..] == turns[1..] + [t];
      TotalAppend(turns[1..], t);
    }
  }

  /** The turn in which the time ran out. */
  lemma {:induction false} LastBefore(timer: int, turns: seq<nat>, k: nat) returns (i: nat)
    requires 0 < timer && k <= |turns| && timer <= Total(turns[..k])
    ensures i < k && RunsOut(timer, turns, i)
  {
    i := k - 1;
    TotalSnoc(turns, i);
    if timer <= Total(turns[..i]) {
      i := LastBefore(timer, turns, i);
    }
  }

  lemma {:induction false} TurnWithinTotal(turns: seq<nat>, t: nat)
    requires t in turns
    ensures t <= Total(turns)
  {
    if t != turns[0] {
      TurnWithinTotal(turns[1..], t);
    }
  }
}
