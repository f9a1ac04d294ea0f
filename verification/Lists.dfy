/**
 * The singly linked list and the loops that delete from it while they walk it.
 *
 * `free` is a ghost set: a cell that was freed stays an object of the model, but a list whose `head`
 * is such a cell is no longer well formed.
 */
module Lists {

  class Cell<T> {
    var next: Cell?<T>
    const data: T

    constructor (data: T)
      ensures this.data == data && next == null
    {
      this.data, next := data, null;
    }
  }

  ghost function Nth<T>(cells: seq<Cell<T>>, i: nat): Cell?<T> {
    if i < |cells| then cells[i] else null
  }

  ghost predicate AllDifferent<T>(s: seq<T>) {
    forall i, j {:trigger s[i], s[j]} :: 0 <= i < j < |s| ==> s[i] != s[j]
  }

  /** Each cell leads to the one after it, the last one to nothing, and no cell occurs twice. */
  ghost predicate Chained<T>(cells: seq<Cell<T>>)
    reads cells
  {
    && (forall i {:trigger cells[i].next} :: 0 <= i < |cells| ==> cells[i].next == Nth(cells, i + 1))
    && AllDifferent(cells)
  }

  /** The cell in front of position `i`, or null at the front. */
  ghost function Before<T>(cells: seq<Cell<T>>, i: nat): Cell?<T>
    requires i <= |cells|
  {
    if i == 0 then null else cells[i - 1]
  }

  ghost function RemoveAt<T>(s: seq<T>, k: nat): seq<T>
    requires k < |s|
  {
    s[..k] + s[k + 1..]
  }

  ghost function Data<T>(cells: seq<Cell<T>>): (s: seq<T>)
    ensures |s| == |cells| && forall i :: 0 <= i < |s| ==> s[i] == cells[i].data
  {
    seq(|cells|, i requires 0 <= i < |cells| => cells[i].data)
  }

  /** The elements whose verdict is "keep", in their order. */
  function Kept<T>(s: seq<T>, keep: seq<bool>): (r: seq<T>)
    requires |s| == |keep|
  {
    if s == [] then []
    else
      var n := |s| - 1;
      Kept(s[..n], keep[..n]) + (if keep[n] then [s[n]] else [])
  }

  /** The elements whose verdict is "remove". */
  ghost function Dropped<T>(s: seq<T>, keep: seq<bool>): set<T>
    requires |s| == |keep|
  {
    set i | 0 <= i < |s| && !keep[i] :: s[i]
  }

  /** A sweep leaves the list usable when it removes nothing in front of a cell it keeps. */
  predicate HeadSurvives(keep: seq<bool>) {
    keep == [] || keep[0] || true !in keep
  }

  lemma KeptStep<T>(s: seq<T>, keep: seq<bool>, v: nat)
    requires |s| == |keep| && v < |s|
    ensures Kept(s[..v + 1], keep[..v + 1]) == Kept(s[..v], keep[..v]) + (if keep[v] then [s[v]] else [])
  {
    assert s[..v + 1][..v] == s[..v] && keep[..v + 1][..v] == keep[..v];
  }

  lemma DroppedStep<T>(s: seq<T>, keep: seq<bool>, v: nat)
    requires |s| == |keep| && v < |s|
    ensures Dropped(s[..v + 1], keep[..v + 1]) == Dropped(s[..v], keep[..v]) + (if keep[v] then {} else {s[v]})
  {
    var now, was := Dropped(s[..v + 1], keep[..v + 1]), Dropped(s[..v], keep[..v]);
    forall x | x in was
      ensures x in now
    {
      var i :| 0 <= i < v && !keep[..v][i] && s[..v][i] == x;
      assert !keep[..v + 1][i] && s[..v + 1][i] == x;
    }
    if !keep[v] {
      assert !keep[..v + 1][v] && s[..v + 1][v] == s[v];
    }
  }

  lemma {:induction false} KeptData<T>(cells: seq<Cell<T>>, keep: seq<bool>)
    requires |cells| == |keep|
    ensures Data(Kept(cells, keep)) == Kept(Data(cells), keep)
  {
    if cells == [] {
    } else {
      var n := |cells| - 1;
      KeptData(cells[..n], keep[..n]);
      assert Data(cells)[..n] == Data(cells[..n]);
      assert Data(Kept(cells, keep)) == Data(Kept(cells[..n], keep[..n])) + (if keep[n] then [cells[n].data] else []);
    }
  }

  /** Among different elements, what is kept was not dropped. */
  lemma KeptNotDropped<T>(s: seq<T>, keep: seq<bool>)
    requires |s| == |keep| && AllDifferent(s)
    ensures forall x :: x in Kept(s, keep) ==> x !in Dropped(s, keep)
  {
    forall x | x in Kept(s, keep)
      ensures x !in Dropped(s, keep)
    {
      KeptMembers(s, keep, x);
    }
  }

  /** The first element kept is the first element, or nothing is kept, exactly when the head survives. */
  lemma {:induction false} KeptFirst<T>(s: seq<T>, keep: seq<bool>)
    requires |s| == |keep| && AllDifferent(s)
    ensures var kept := Kept(s, keep);
            && ((kept == [] || kept[0] == s[0]) <==> HeadSurvives(keep))
            && (!HeadSurvives(keep) ==> kept != [] && s[0] in Dropped(s, keep))
  {
    var kept := Kept(s, keep);
    KeptEmpty(s, keep);
    KeptNotDropped(s, keep);
    hide Kept;
    if s != [] && !keep[0] {
      assert s[0] in Dropped(s, keep);
      assert kept != [] ==> kept[0] in kept;
    }
  }

  /** What a sweep leaves, seen from the list: its data, its head, and whether its cells are live. */
  lemma {:induction false} SweptUsable<T>(cells: seq<Cell<T>>, keep: seq<bool>)
    requires |cells| == |keep| && AllDifferent(cells)
    ensures var kept := Kept(cells, keep);
            && (forall c :: c in kept ==> c in cells && c !in Dropped(cells, keep))
            && Data(kept) == Kept(Data(cells), keep)
            && ((kept == [] || kept[0] == cells[0]) <==> HeadSurvives(keep))
            && (!HeadSurvives(keep) ==> kept != [] && cells[0] in Dropped(cells, keep))
  {
    KeptFirst(cells, keep);
    KeptNotDropped(cells, keep);
    KeptData(cells, keep);
    hide HeadSurvives, Dropped;
    forall c | c in Kept(cells, keep)
      ensures c in cells
    {
      KeptMembers(cells, keep, c);
    }
  }

  /**
   * After `v` verdicts, `chain` is what was kept so far and then the unvisited cells; `freed` has grown
   * from `freed0` by the removed cells and `handled` holds the data seen.
   */
  ghost predicate Swept<T>(was: seq<Cell<T>>, keep: seq<bool>, v: nat, k: nat,
                           chain: seq<Cell<T>>, freed0: set<Cell<T>>, freed: set<Cell<T>>, handled: seq<T>)
  {
    && |was| == |keep| && v <= |was|
    && k == |Kept(was[..v], keep[..v])|
    && chain == Kept(was[..v], keep[..v]) + was[v..]
    && freed == freed0 + Dropped(was[..v], keep[..v])
    && handled == Data(was[..v])
  }

  lemma SweptNothing<T>(was: seq<Cell<T>>, keep: seq<bool>, freed: set<Cell<T>>)
    requires |was| == |keep|
    ensures Swept(was, keep, 0, 0, was, freed, freed, [])
  {
    assert was[0..] == was;
  }

  lemma SweptAll<T>(was: seq<Cell<T>>, keep: seq<bool>, v: nat, k: nat,
                    chain: seq<Cell<T>>, freed0: set<Cell<T>>, freed: set<Cell<T>>, handled: seq<T>)
    requires Swept(was, keep, v, k, chain, freed0, freed, handled) && |chain| <= k
    ensures chain == Kept(was, keep) && freed == freed0 + Dropped(was, keep) && handled == Data(was)
  {
    assert was[..v] == was && keep[..v] == keep && was[v..] == [];
  }

  lemma SweptRoom<T>(was: seq<Cell<T>>, keep: seq<bool>, v: nat, k: nat,
                     chain: seq<Cell<T>>, freed0: set<Cell<T>>, freed: set<Cell<T>>, handled: seq<T>)
    requires Swept(was, keep, v, k, chain, freed0, freed, handled) && k < |chain|
    ensures v < |was| == |keep|
  {
  }

  lemma ChainStep<T>(kept: seq<T>, x: T, rest: seq<T>)
    ensures var chain := kept + ([x] + rest);
            chain[|kept|] == x && RemoveAt(chain, |kept|) == kept + rest && kept + [x] + rest == chain
  {
  }

  lemma SweptStep<T>(was: seq<Cell<T>>, keep: seq<bool>, v: nat, k: nat,
                     chain: seq<Cell<T>>, freed0: set<Cell<T>>, freed: set<Cell<T>>, handled: seq<T>)
    requires Swept(was, keep, v, k, chain, freed0, freed, handled) && k < |chain|
    ensures v < |was| && chain[k] == was[v]
    ensures Swept(was, keep, v + 1, if keep[v] then k + 1 else k,
                  if keep[v] then chain else RemoveAt(chain, k),
                  freed0, freed + if keep[v] then {} else {was[v]}, handled + [was[v].data])
  {
    KeptStep(was, keep, v);
    DroppedStep(was, keep, v);
    assert was[v..] == [was[v]] + was[v + 1..];
    ChainStep(Kept(was[..v], keep[..v]), was[v], was[v + 1..]);
    hide RemoveAt, Kept, Dropped;
    assert Data(was[..v + 1]) == Data(was[..v]) + [was[v].data];
  }

  lemma {:induction false} KeptEmpty<T>(s: seq<T>, keep: seq<bool>)
    requires |s| == |keep|
    ensures Kept(s, keep) == [] <==> true !in keep
    ensures keep != [] && keep[0] ==> Kept(s, keep) != [] && Kept(s, keep)[0] == s[0]
  {
    if s != [] {
      var n := |s| - 1;
      KeptEmpty(s[..n], keep[..n]);
      assert keep == keep[..n] + [keep[n]];
    }
  }

  /** The first `n` positions whose verdict is "keep". */
  ghost function Keeping(keep: seq<bool>, n: nat): set<nat>
    requires n <= |keep|
  {
    set i: nat | i < n && keep[i]
  }

  lemma KeepingStep(keep: seq<bool>, n: nat)
    requires n < |keep|
    ensures |Keeping(keep, n + 1)| == |Keeping(keep, n)| + if keep[n] then 1 else 0
  {
    assert Keeping(keep, n + 1) == Keeping(keep, n) + if keep[n] then {n} else {};
  }

  /** The filter is stable: what is kept stands behind as many elements as were kept before it. */
  lemma {:induction false} KeptInOrder<T>(s: seq<T>, keep: seq<bool>)
    requires |s| == |keep|
    ensures |Kept(s, keep)| == |Keeping(keep, |keep|)|
    ensures forall i {:trigger Keeping(keep, i)} :: 0 <= i < |s| && keep[i] ==>
              |Keeping(keep, i)| < |Kept(s, keep)| && Kept(s, keep)[|Keeping(keep, i)|] == s[i]
  {
    if s != [] {
      var n := |s| - 1;
      KeptInOrder(s[..n], keep[..n]);
      KeepingStep(keep, n);
      assert Keeping(keep[..n], n) == Keeping(keep, n);
      forall i | 0 <= i < |s| && keep[i]
        ensures |Keeping(keep, i)| < |Kept(s, keep)| && Kept(s, keep)[|Keeping(keep, i)|] == s[i]
      {
        if i < n {
          assert Keeping(keep[..n], i) == Keeping(keep, i);
        }
      }
    }
  }

  lemma {:induction false} KeptNone<T>(s: seq<T>, keep: seq<bool>)
    requires |s| == |keep| && true !in keep
    ensures Kept(s, keep) == [] && Dropped(s, keep) == set x | x in s
  {
    KeptEmpty(s, keep);
    forall x | x in s
      ensures x in Dropped(s, keep)
    {
      var i :| 0 <= i < |s| && s[i] == x;
      assert !keep[i];
    }
  }

  lemma {:induction false} KeptMembers<T>(s: seq<T>, keep: seq<bool>, x: T)
    requires |s| == |keep|
    ensures x in Kept(s, keep) <==> exists i :: 0 <= i < |s| && keep[i] && s[i] == x
  {
    if s != [] {
      var n := |s| - 1;
      KeptMembers(s[..n], keep[..n], x);
      if x in Kept(s[..n], keep[..n]) {
        var i :| 0 <= i < n && keep[..n][i] && s[..n][i] == x;
        assert keep[i] && s[i] == x;
      }
      if i :| 0 <= i < |s| && keep[i] && s[i] == x {
        if i < n {
          assert keep[..n][i] && s[..n][i] == x;
        }
      }
    }
  }

  class List<T> {
    var head: Cell?<T>
    ghost var cells: seq<Cell<T>>   // the chain of live cells
    ghost var freed: set<Cell<T>>

    ghost predicate Valid()
      reads this, cells
    {
      Chained(cells) && head == Nth(cells, 0) && forall c :: c in cells ==> c !in freed
    }

    ghost function Contents(): seq<T>
      reads this
    {
      Data(cells)
    }

    constructor ()
      ensures Valid() && cells == [] && freed == {} && Contents() == []
    {
      head, cells, freed := null, [], {};
    }

    /** `list_push_back`: walks to the last cell and hangs a new one there. */
    method PushBack(value: T)
      requires Valid()
      modifies this, cells
      ensures Valid() && freed == old(freed)
      ensures Contents() == old(Contents()) + [value]
      ensures |cells| == |old(cells)| + 1 && cells[..|old(cells)|] == old(cells) && fresh(cells[|old(cells)|])
    {
      var at := head;
      var prev: Cell?<T> := null;
      ghost var k := 0;
      while at != null
        invariant 0 <= k <= |cells| && at == Nth(cells, k) && prev == Before(cells, k)
        decreases |cells| - k
      {
        prev := at;
        at := at.next;
        k := k + 1;
      }
      var cell := new Cell(value);
      if prev == null {
        head := cell;
      } else {
        prev.next := cell;
      }
      ghost var was := cells;
      cells := was + [cell];
      forall i | 0 <= i < |cells|
        ensures cells[i].next == Nth(cells, i + 1)
      {
        if i < |was| {
          assert cells[i] == was[i];
        }
      }
    }

    /**
     * `list_pop_at`: unlinks and frees `at`, and answers the cell after it. Only the link of `prev` is
     * repaired; without a previous cell, `head` moves only if `at` was also the last cell.
     */
    method PopAt(prev: Cell?<T>, at: Cell<T>, ghost k: nat) returns (next: Cell?<T>)
      requires Chained(cells) && k < |cells| && cells[k] == at && prev == Before(cells, k)
      modifies this, prev
      ensures cells == RemoveAt(old(cells), k) && Chained(cells)
      ensures freed == old(freed) + {at}
      ensures next == Nth(cells, k)
      ensures head == if cells == [] then null else old(head)
    {
      ghost var was := cells;
      assert at.next == Nth(was, k + 1);
      if prev != null {
        prev.next := at.next;
      } else if at.next == null {
        head := null;
      }
      freed := freed + {at};
      next := at.next;
      cells := RemoveAt(was, k);
      forall i | 0 <= i < |cells|
        ensures cells[i].next == Nth(cells, i + 1)
      {
        if k <= i {
          assert cells[i] == was[i + 1];
        } else {
          assert cells[i] == was[i];
        }
      }
    }
  
    /** One turn of a deletion loop: step over the cell, or pop it. */
    method Visit(prev: Cell?<T>, at: Cell<T>, keep: bool, ghost k: nat) returns (prev': Cell?<T>, next: Cell?<T>)
      requires Chained(cells) && k < |cells| && cells[k] == at && prev == Before(cells, k)
      modifies this, prev
      ensures Chained(cells)
      ensures cells == if keep then old(cells) else RemoveAt(old(cells), k)
      ensures var k' := if keep then k + 1 else k;
              k' <= |cells| && next == Nth(cells, k') && prev' == Before(cells, k')
      ensures prev' == if keep then at else prev
      ensures freed == old(freed) + if keep then {} else {at}
      ensures head == if cells == [] then null else old(head)
    {
      if keep {
        prev', next := at, at.next;
      } else {
        next := PopAt(prev, at, k);
        prev' := prev;
      }
    }

    /** The same turn, with the account of the sweep so far. */
    method Turn(prev: Cell?<T>, at: Cell<T>, keepIt: bool, ghost was: seq<Cell<T>>, ghost keep: seq<bool>,
                ghost v: nat, ghost k: nat, ghost freed0: set<Cell<T>>, ghost handled: seq<T>)
      returns (prev': Cell?<T>, next: Cell?<T>, ghost k': nat)
      requires Swept(was, keep, v, k, cells, freed0, freed, handled) && Chained(cells)
      requires k < |cells| && cells[k] == at && prev == Before(cells, k)
      requires v < |keep| ==> keep[v] == keepIt
      modifies this, prev
      ensures v < |was| && at == was[v] && (prev' == prev || prev' == at)
      ensures Swept(was, keep, v + 1, k', cells, freed0, freed, handled + [at.data]) && Chained(cells)
      ensures k' <= |cells| && next == Nth(cells, k') && prev' == Before(cells, k')
      ensures head == if cells == [] then null else old(head)
    {
      SweptStep(was, keep, v, k, cells, freed0, freed, handled);
      assert |was| == |keep|;
      hide Swept, Kept, Dropped, Chained, RemoveAt;
      prev', next := Visit(prev, at, keepIt, k);
      k' := if keepIt then k + 1 else k;
    }

    /** A deletion loop: each cell is handled once, in order, and removed unless its verdict is to keep it. */
    method SweepLoop(keep: seq<bool>) returns (handled: seq<T>)
      requires Valid() && |keep| == |cells|
      modifies this, cells
      ensures handled == old(Contents())
      ensures Chained(cells) && cells == Kept(old(cells), keep)
      ensures freed == old(freed) + Dropped(old(cells), keep)
      ensures head == if cells == [] then null else old(head)
    {
      hide Swept, Kept, Dropped, Chained;
      var prev: Cell?<T> := null;
      var at := head;
      var v := 0;
      handled := [];
      ghost var was, freed0, first := cells, freed, head;
      ghost var k: nat := 0;
      SweptNothing(was, keep, freed);
      while at != null
        invariant 0 <= v <= |was| && k <= |cells| && Swept(was, keep, v, k, cells, freed0, freed, handled)
        invariant Chained(cells)
        invariant at == Nth(cells, k) && prev == Before(cells, k) && (prev == null || prev in was)
        invariant head == if cells == [] then null else first
        decreases |was| - v
      {
        SweptRoom(was, keep, v, k, cells, freed0, freed, handled);
        var cell: Cell<T> := at;
        prev, at, k := Turn(prev, cell, keep[v], was, keep, v, k, freed0, handled);
        handled := handled + [cell.data];
        v := v + 1;
      }
      SweptAll(was, keep, v, k, cells, freed0, freed, handled);
    }

    /**
     * The deletion loops of the server (over awaiting sockets, log entries and pending downloads). What
     * the handler answers for the i-th cell is `keep[i]`. The chain of live cells is always the right one,
     * but `head` leads to it exactly when `HeadSurvives(keep)`; otherwise `head` is a freed cell.
     */
    method Sweep(keep: seq<bool>) returns (handled: seq<T>)
      requires Valid() && |keep| == |cells|
      modifies this, cells
      ensures handled == old(Contents())
      ensures Chained(cells) && cells == Kept(old(cells), keep)
      ensures Contents() == Kept(old(Contents()), keep)
      ensures freed == old(freed) + Dropped(old(cells), keep)
      ensures Valid() <==> HeadSurvives(keep)
      ensures !HeadSurvives(keep) ==> head in freed
    {
      SweptUsable(cells, keep);
      hide Kept, Dropped, HeadSurvives, AllDifferent;
      handled := SweepLoop(keep);
    }

    /** The loop of `handle_pending_requests`: handle the first request, pop it with no previous cell. */
    method DrainLoop(ghost none: seq<bool>) returns (handled: seq<T>)
      requires Valid() && |none| == |cells| && forall i :: 0 <= i < |none| ==> !none[i]
      modifies this, cells
      ensures handled == old(Contents())
      ensures Chained(cells) && cells == Kept(old(cells), none)
      ensures freed == old(freed) + Dropped(old(cells), none)
      ensures head == if cells == [] then null else old(head)
    {
      hide Swept, Kept, Dropped, Chained, RemoveAt;
      var at := head;
      handled := [];
      ghost var was, freed0, first, v := cells, freed, head, 0;
      SweptNothing(was, none, freed);
      while at != null
        invariant 0 <= v <= |was| && Swept(was, none, v, 0, cells, freed0, freed, handled)
        invariant Chained(cells) && at == Nth(cells, 0)
        invariant head == if cells == [] then null else first
        decreases |was| - v
      {
        SweptStep(was, none, v, 0, cells, freed0, freed, handled);
        var cell: Cell<T> := at;
        handled := handled + [cell.data];
        at := PopAt(null, cell, 0);
        v := v + 1;
      }
      SweptAll(was, none, v, 0, cells, freed0, freed, handled);
    }

    /**
     * `handle_pending_requests`: every queued request is handled once, first come first served, and
     * popped. `head` is stale on the way, and right again at the end.
     */
    method Drain() returns (handled: seq<T>)
      requires Valid()
      modifies this, cells
      ensures handled == old(Contents())
      ensures Valid() && Contents() == []
      ensures freed == old(freed) + set c | c in old(cells)
    {
      ghost var none := seq(|cells|, _ => false);
      KeptNone(cells, none);
      hide Kept, Dropped;
      handled := DrainLoop(none);
    }
  }
}
