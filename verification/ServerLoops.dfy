/** The log of search requests as the server keeps it: a linked list swept once a turn. */
module ServerLoops {
  import opened SearchRules
  import opened Lists

  /** The verdicts of `update_log_timers`: an entry stays when its timer is beyond the turn's duration. */
  function Verdicts(log: seq<LogEntry>, ms: nat): (r: seq<bool>)
    ensures |r| == |log| && forall i :: 0 <= i < |r| ==> r[i] == (log[i].timer > ms)
  {
    seq(|log|, i requires 0 <= i < |log| => log[i].timer > ms)
  }

  lemma {:induction false} CodeTickSnoc(log: seq<LogEntry>, e: LogEntry, ms: nat)
    ensures CodeTick(log + [e], ms) == CodeTick(log, ms) + if e.timer <= ms then [] else [e]
  {
    var all := log + [e];
    if log == [] {
      assert all == [e] && all[1..] == [];
    } else {
      assert all[0] == log[0] && all[1..] == log[1..] + [e];
      CodeTickSnoc(log[1..], e, ms);
      var first := if log[0].timer <= ms then [] else [log[0]];
      var a, b := CodeTick(log[1..], ms), if e.timer <= ms then [] else [e];
      assert CodeTick(all, ms) == first + (a + b) && CodeTick(log, ms) == first + a;
      hide *;
      assert first + (a + b) == first + a + b;
    }
  }

  lemma KeptSnoc(log: seq<LogEntry>, last: LogEntry, ms: nat)
    ensures Kept(log + [last], Verdicts(log + [last], ms)) ==
            Kept(log, Verdicts(log, ms)) + if last.timer <= ms then [] else [last]
  {
    var all := log + [last];
    assert all[..|log|] == log && Verdicts(all, ms)[..|log|] == Verdicts(log, ms);
    hide Verdicts;
  }

  /** The stable filter the sweep computes is the tick of the log that the network model takes. */
  lemma {:induction false} KeptIsTick(log: seq<LogEntry>, ms: nat)
    ensures Kept(log, Verdicts(log, ms)) == CodeTick(log, ms)
  {
    if log != [] {
      var n := |log| - 1;
      assert log == log[..n] + [log[n]];
      hide *;
      KeptIsTick(log[..n], ms);
      KeptSnoc(log[..n], log[n], ms);
      CodeTickSnoc(log[..n], log[n], ms);
    }
  }

  /** The loop has come to the cell `at`, the k-th of those left, and `prev` is the one before. */
  ghost predicate Sweeping(log: List<LogEntry>, was: seq<Cell<LogEntry>>, keep: seq<bool>, v: nat, k: nat,
                           freed0: set<Cell<LogEntry>>, handled: seq<LogEntry>,
                           prev: Cell?<LogEntry>, at: Cell?<LogEntry>, first: Cell?<LogEntry>)
    reads log, log.cells
  {
    && v <= |was| && k <= |log.cells| && Chained(log.cells)
    && Swept(was, keep, v, k, log.cells, freed0, log.freed, handled)
    && at == Nth(log.cells, k) && prev == Before(log.cells, k)
    && log.head == if log.cells == [] then null else first
  }

  /** One turn of the loop of `update_log_timers`. */
  method TimerTurn(log: List<LogEntry>, diff: nat, prev: Cell?<LogEntry>, at: Cell<LogEntry>,
                   ghost was: seq<Cell<LogEntry>>, ghost keep: seq<bool>, ghost v: nat, ghost k: nat,
                   ghost freed0: set<Cell<LogEntry>>, ghost handled: seq<LogEntry>, ghost first: Cell?<LogEntry>)
    returns (prev': Cell?<LogEntry>, next: Cell?<LogEntry>, ghost k': nat)
    requires Sweeping(log, was, keep, v, k, freed0, handled, prev, at, first)
    requires keep == Verdicts(Data(was), diff)
    modifies log, prev
    ensures v < |was| && at == was[v] && (prev' == prev || prev' == at)
    ensures Sweeping(log, was, keep, v + 1, k', freed0, handled + [at.data], prev', next, first)
  {
    SweptStep(was, keep, v, k, log.cells, freed0, log.freed, handled);
    hide Swept, Chained, RemoveAt;
    prev', next, k' := log.Turn(prev, at, at.data.timer > diff, was, keep, v, k, freed0, handled);
  }

  lemma SweepBegins(log: List<LogEntry>, keep: seq<bool>)
    requires log.Valid() && |keep| == |log.cells|
    ensures Sweeping(log, log.cells, keep, 0, 0, log.freed, [], null, log.head, log.head)
  {
    SweptNothing(log.cells, keep, log.freed);
  }

  lemma SweepEnds(log: List<LogEntry>, was: seq<Cell<LogEntry>>, keep: seq<bool>, v: nat, k: nat,
                  freed0: set<Cell<LogEntry>>, handled: seq<LogEntry>, prev: Cell?<LogEntry>, first: Cell?<LogEntry>)
    requires Sweeping(log, was, keep, v, k, freed0, handled, prev, null, first)
    ensures |keep| == |was| && Chained(log.cells) && log.cells == Kept(was, keep)
    ensures log.freed == freed0 + Dropped(was, keep) && log.head == if log.cells == [] then null else first
  {
    SweptAll(was, keep, v, k, log.cells, freed0, log.freed, handled);
  }

  /** The loop of `update_log_timers`. */
  method TimerLoop(log: List<LogEntry>, diff: nat, ghost keep: seq<bool>)
    requires log.Valid() && keep == Verdicts(Data(log.cells), diff)
    modifies log, log.cells
    ensures Chained(log.cells) && log.cells == Kept(old(log.cells), keep)
    ensures log.freed == old(log.freed) + Dropped(old(log.cells), keep)
    ensures log.head == if log.cells == [] then null else old(log.head)
  {
    SweepBegins(log, keep);
    hide Sweeping, Kept, Dropped, Chained, Verdicts, Data;
    var prev: Cell?<LogEntry> := null;
    var at := log.head;
    ghost var was, freed0, first := log.cells, log.freed, log.head;
    ghost var v: nat, k: nat, handled: seq<LogEntry> := 0, 0, [];
    while at != null
      invariant v <= |was| && (prev == null || prev in was)
      invariant Sweeping(log, was, keep, v, k, freed0, handled, prev, at, first)
      decreases |was| - v
    {
      var cell: Cell<LogEntry> := at;
      prev, at, k := TimerTurn(log, diff, prev, cell, was, keep, v, k, freed0, handled, first);
      handled := handled + [cell.data];
      v := v + 1;
    }
    SweepEnds(log, was, keep, v, k, freed0, handled, prev, first);
  }

  /**
   * `update_log_timers`. The entries left are those of one tick; the list itself is still usable exactly
   * when the oldest entry stays or no entry does.
   */
  method UpdateLogTimers(log: List<LogEntry>, diff: nat)
    requires log.Valid()
    modifies log, log.cells
    ensures log.Contents() == CodeTick(old(log.Contents()), diff)
    ensures log.Valid() <==>
            var was := old(log.Contents());
            was == [] || was[0].timer > diff || forall e :: e in was ==> e.timer <= diff
  {
    ghost var was, keep := log.cells, Verdicts(log.Contents(), diff);
    KeptIsTick(log.Contents(), diff);
    SweptUsable(was, keep);
    HeadVerdict(log.Contents(), diff);
    hide Kept, Dropped, HeadSurvives, AllDifferent, CodeTick, Verdicts, Data;
    TimerLoop(log, diff, keep);
    assert log.Valid() <==> HeadSurvives(keep);
  }

  lemma HeadVerdict(log: seq<LogEntry>, ms: nat)
    ensures HeadSurvives(Verdicts(log, ms)) <==>
            log == [] || log[0].timer > ms || forall e :: e in log ==> e.timer <= ms
  {
    var keep := Verdicts(log, ms);
    if true in keep {
      var i :| 0 <= i < |keep| && keep[i];
      assert log[i] in log && log[i].timer > ms;
    } else {
      forall e | e in log
        ensures e.timer <= ms
      {
        var i :| 0 <= i < |log| && log[i] == e;
        assert keep[i] in keep;
      }
    }
  }
}
