/** Duplicate suppression in the documented flood. */
module FloodDuplicates {
  import opened Basics
  import opened Wire
  import opened SearchRules
  import opened Flood
  import opened FloodLaws
  import opened FloodPolicies

  /** An entry for this search that will live for at least `left` more milliseconds. */
  predicate HasEntry(log: seq<LogEntry>, source: Endpoint, file: CString, left: int) {
    exists i :: 0 <= i < |log| && log[i].source == source && log[i].file == file && log[i].timer >= left
  }

  /** The event makes node n relay this search. */
  predicate RelaysSearch(s: Network, e: Event, n: nat, source: Endpoint, file: CString) {
    IsRelay(s, e) && e.n == n && ServedRequest(s, e).source == source && ServedRequest(s, e).file == file
  }

  /** The time one event is for node n. */
  function Takes(e: Event, n: nat): nat {
    if e.Tick? && e.n == n then e.ms else 0
  }

  /** The time node n spends in its loop during the events. */
  function Elapsed(events: seq<Event>, n: nat): nat {
    if events == [] then 0 else Takes(events[0], n) + Elapsed(events[1..], n)
  }

  lemma {:induction false} TickKeeps(log: seq<LogEntry>, ms: nat, source: Endpoint, file: CString, left: int)
    requires HasEntry(log, source, file, left) && ms < left
    ensures HasEntry(IntendedTick(log, ms), source, file, left - ms)
  {
    var i :| 0 <= i < |log| && log[i].source == source && log[i].file == file && log[i].timer >= left;
    var rest := IntendedTick(log[1..], ms);
    var first := if log[0].timer <= ms then [] else [log[0].(timer := log[0].timer - ms)];
    var all := IntendedTick(log, ms);
    assert all == first + rest;
    if i == 0 {
      assert all[0] == log[0].(timer := log[0].timer - ms);
    } else {
      assert log[1..][i - 1] == log[i];
      TickKeeps(log[1..], ms, source, file, left);
      var j :| 0 <= j < |rest| && rest[j].source == source && rest[j].file == file && rest[j].timer >= left - ms;
      assert all[|first| + j] == rest[j];
    }
  }

  lemma EntryKept(log: seq<LogEntry>, more: seq<LogEntry>, source: Endpoint, file: CString, left: int)
    requires HasEntry(log, source, file, left)
    ensures HasEntry(log + more, source, file, left)
  {
    var i :| 0 <= i < |log| && log[i].source == source && log[i].file == file && log[i].timer >= left;
    assert (log + more)[i] == log[i];
  }

  /** Node n has an entry for this search that will live for at least `left` more milliseconds. */
  ghost predicate EntryAt(s: Network, n: nat, source: Endpoint, file: CString, left: int) {
    n < |s.nodes| && HasEntry(s.nodes[n].log, source, file, left)
  }

  /** What one step does to the log of a node. */
  lemma LogNext(s: Network, e: Event, lifetime: nat, n: nat)
    requires WellFormed(s) && Enabled(s, e) && AsIntended(s, e, lifetime) && n < |s.nodes|
    ensures |Next(s, e).nodes| == |s.nodes|
    ensures var log, now := s.nodes[n].log, Next(s, e).nodes[n].log;
            if e.Tick? && e.n == n then now == IntendedTick(log, e.ms)
            else if ServesRemote(s, e) && e.n == n && IntendedUnique(log, ServedRequest(s, e))
            then now == log + [LogEntry(lifetime, ServedRequest(s, e).source, ServedRequest(s, e).file)]
            else now == log
  {
    hide Emits, Discovers, SendsOut, Merge, IntendedTick, IntendedUnique;
  }

  /** While its time has not run out, an entry stays. */
  lemma EntryNext(s: Network, e: Event, lifetime: nat, n: nat, source: Endpoint, file: CString, left: nat)
    requires WellFormed(s) && Enabled(s, e) && AsIntended(s, e, lifetime)
    requires EntryAt(s, n, source, file, left) && Takes(e, n) < left
    ensures EntryAt(Next(s, e), n, source, file, left - Takes(e, n))
  {
    var log := s.nodes[n].log;
    LogNext(s, e, lifetime, n);
    hide Next, AsIntended, Enabled, WellFormed, IntendedTick, IntendedUnique, HasEntry;
    if e.Tick? && e.n == n {
      TickKeeps(log, e.ms, source, file, left);
    } else if ServesRemote(s, e) && e.n == n && IntendedUnique(log, ServedRequest(s, e)) {
      var req := ServedRequest(s, e);
      EntryKept(log, [LogEntry(lifetime, req.source, req.file)], source, file, left);
    }
  }

  lemma EntryBlocks(s: Network, e: Event, lifetime: nat, n: nat, source: Endpoint, file: CString, left: int)
    requires Enabled(s, e) && AsIntended(s, e, lifetime)
    requires EntryAt(s, n, source, file, left)
    ensures !RelaysSearch(s, e, n, source, file)
  {
    var log := s.nodes[n].log;
    var i :| 0 <= i < |log| && log[i].source == source && log[i].file == file && log[i].timer >= left;
    assert log[i] in log;
  }

  lemma RelayLogs(s: Network, e: Event, lifetime: nat, n: nat, source: Endpoint, file: CString)
    requires WellFormed(s) && Enabled(s, e) && AsIntended(s, e, lifetime) && RelaysSearch(s, e, n, source, file)
    ensures EntryAt(Next(s, e), n, source, file, lifetime)
  {
    LogNext(s, e, lifetime, n);
    var log := Next(s, e).nodes[n].log;
    hide Next;
    assert log[|log| - 1] == LogEntry(lifetime, source, file);
  }

  lemma RunUnfolds(s: Network, events: seq<Event>, lifetime: nat)
    requires IntendedRun(s, events, lifetime) && events != []
    ensures WellFormed(s) && Enabled(s, events[0]) && AsIntended(s, events[0], lifetime)
    ensures IntendedRun(Next(s, events[0]), events[1..], lifetime)
    ensures Run(Next(s, events[0]), events[1..]) && Run(s, events)
    ensures After(s, events) == After(Next(s, events[0]), events[1..])
  {
    hide Next, Enabled, AsIntended;
    IntendedRunsAreRuns(s, events, lifetime);
  }

  lemma {:induction false} EntrySurvives(s: Network, events: seq<Event>, lifetime: nat,
                                         n: nat, source: Endpoint, file: CString, left: nat)
    requires IntendedRun(s, events, lifetime)
    requires EntryAt(s, n, source, file, left) && Elapsed(events, n) < left
    ensures Run(s, events) && EntryAt(After(s, events), n, source, file, left - Elapsed(events, n))
    decreases |events|
  {
    hide *;
    if events != [] {
      var e, rest := events[0], events[1..];
      RunUnfolds(s, events, lifetime);
      ElapsedUnfolds(events, n);
      EntryNext(s, e, lifetime, n, source, file, left);
      EntrySurvives(Next(s, e), rest, lifetime, n, source, file, left - Takes(e, n));
    } else {
      EmptyRun(s, lifetime);
      NothingHappens(s, n);
    }
  }

  lemma ElapsedUnfolds(events: seq<Event>, n: nat)
    requires events != []
    ensures Elapsed(events, n) == Takes(events[0], n) + Elapsed(events[1..], n)
  {
  }

  lemma EmptyRun(s: Network, lifetime: nat)
    requires IntendedRun(s, [], lifetime)
    ensures WellFormed(s)
  {
  }

  lemma NothingHappens(s: Network, n: nat)
    requires WellFormed(s)
    ensures Run(s, []) && After(s, []) == s && Elapsed([], n) == 0
  {
  }

  /**
   * At most once per lifetime: when a node relays the same search a second time, the time its loop took
   * in between adds up to at least the lifetime of a log entry.
   */
  lemma RelaysAreSpaced(s: Network, first: Event, between: seq<Event>, second: Event, lifetime: nat,
                        n: nat, source: Endpoint, file: CString)
    requires WellFormed(s) && Enabled(s, first) && AsIntended(s, first, lifetime)
    requires IntendedRun(Next(s, first), between, lifetime)
    requires Run(Next(s, first), between)
    requires Enabled(After(Next(s, first), between), second)
    requires AsIntended(After(Next(s, first), between), second, lifetime)
    requires RelaysSearch(s, first, n, source, file)
    requires RelaysSearch(After(Next(s, first), between), second, n, source, file)
    ensures Elapsed(between, n) >= lifetime
  {
    hide *;
    RelayLogs(s, first, lifetime, n, source, file);
    WellFormedNext(s, first);
    if Elapsed(between, n) < lifetime {
      EntrySurvives(Next(s, first), between, lifetime, n, source, file, lifetime);
      EntryBlocks(After(Next(s, first), between), second, lifetime, n, source, file, lifetime - Elapsed(between, n));
    }
  }

  // ----- How many relays one search can cause -----

  ghost function RelayCount(s: Network, events: seq<Event>, source: Endpoint, file: CString): nat
    requires Run(s, events)
    decreases |events|
  {
    if events == [] then 0
    else
      (if events[0].Serve? && RelaysSearch(s, events[0], events[0].n, source, file) then 1 else 0)
      + RelayCount(Next(s, events[0]), events[1..], source, file)
  }

  /** These nodes have logged the search, with enough time left for all of the events. */
  ghost predicate Settled(s: Network, events: seq<Event>, done: set<nat>, source: Endpoint, file: CString) {
    forall n :: n in done ==> EntryAt(s, n, source, file, Elapsed(events, n) + 1)
  }

  lemma SettledNext(s: Network, events: seq<Event>, lifetime: nat, done: set<nat>, source: Endpoint, file: CString)
    requires events != [] && WellFormed(s) && Enabled(s, events[0]) && AsIntended(s, events[0], lifetime)
    requires Settled(s, events, done, source, file)
    ensures Settled(Next(s, events[0]), events[1..], done, source, file)
  {
    hide Next, Enabled, AsIntended, EntryAt, Takes;
    forall n | n in done
      ensures EntryAt(Next(s, events[0]), n, source, file, Elapsed(events[1..], n) + 1)
    {
      EntryNext(s, events[0], lifetime, n, source, file, Elapsed(events, n) + 1);
    }
  }

  lemma SmallSet(done: set<nat>, bound: nat)
    requires forall n :: n in done ==> n < bound
    ensures |done| <= bound
    decreases bound
  {
    if bound > 0 {
      SmallSet(done - {bound - 1}, bound - 1);
    } else {
      assert done == {};
    }
  }

  lemma EntryOutlives(log: seq<LogEntry>, source: Endpoint, file: CString, left: int, less: int)
    requires HasEntry(log, source, file, left) && less <= left
    ensures HasEntry(log, source, file, less)
  {
  }

  /** A node that relays the search was not settled before, and is from then on. */
  lemma RelayingNodeSettles(s: Network, events: seq<Event>, lifetime: nat, done: set<nat>, source: Endpoint, file: CString)
    requires events != [] && WellFormed(s) && Enabled(s, events[0]) && AsIntended(s, events[0], lifetime)
    requires events[0].Serve? && RelaysSearch(s, events[0], events[0].n, source, file)
    requires Settled(s, events, done, source, file)
    requires Settled(Next(s, events[0]), events[1..], done, source, file)
    requires Elapsed(events[1..], events[0].n) < lifetime
    ensures events[0].n !in done
    ensures Settled(Next(s, events[0]), events[1..], done + {events[0].n}, source, file)
  {
    var e := events[0];
    WellFormedNext(s, e);
    if e.n in done {
      EntryBlocks(s, e, lifetime, e.n, source, file, Elapsed(events, e.n) + 1);
    }
    RelayLogs(s, e, lifetime, e.n, source, file);
    hide Next, Enabled, AsIntended, WellFormed, RelaysSearch;
    EntryOutlives(Next(s, e).nodes[e.n].log, source, file, lifetime, Elapsed(events[1..], e.n) + 1);
  }

  lemma {:induction false} RelaysCounted(s: Network, events: seq<Event>, lifetime: nat, done: set<nat>,
                                         source: Endpoint, file: CString)
    requires IntendedRun(s, events, lifetime) && Run(s, events)
    requires forall n :: 0 <= n < |s.nodes| ==> Elapsed(events, n) < lifetime
    requires Settled(s, events, done, source, file)
    ensures RelayCount(s, events, source, file) + |done| <= |s.nodes|
    decreases |events|
  {
    if events == [] {
      SmallSet(done, |s.nodes|);
    } else {
      var e := events[0];
      assert e.Serve? && RelaysSearch(s, e, e.n, source, file) ==> e.n < |s.nodes|;
      WellFormedNext(s, e);
      SettledNext(s, events, lifetime, done, source, file);
      hide Next, Enabled, AsIntended, EntryAt, Takes, RelaysSearch, Settled, WellFormed;
      forall n | 0 <= n < |s.nodes|
        ensures Elapsed(events[1..], n) < lifetime
      {
        assert Elapsed(events, n) == Takes(e, n) + Elapsed(events[1..], n);
      }
      if e.Serve? && RelaysSearch(s, e, e.n, source, file) {
        RelayingNodeSettles(s, events, lifetime, done, source, file);
        RelaysCounted(Next(s, e), events[1..], lifetime, done + {e.n}, source, file);
      } else {
        RelaysCounted(Next(s, e), events[1..], lifetime, done, source, file);
      }
    }
  }

  /**
   * Within one lifetime of the log, one search (same file, same source) is relayed at most once per node
   * of the network, in every intended run.
   */
  lemma RelaysBoundedByNodes(s: Network, events: seq<Event>, lifetime: nat, source: Endpoint, file: CString)
    requires IntendedRun(s, events, lifetime)
    requires forall n :: 0 <= n < |s.nodes| ==> Elapsed(events, n) < lifetime
    ensures Run(s, events) && RelayCount(s, events, source, file) <= |s.nodes|
  {
    IntendedRunsAreRuns(s, events, lifetime);
    RelaysCounted(s, events, lifetime, {}, source, file);
  }
}
