/** The flood terminates for every answer policy and delivery order, within a bound fixed beforehand. */
module FloodTermination {
  import opened Basics
  import opened Wire
  import opened SearchRules
  import opened Flood

  /**
   * The steps a queued request can still cause: relaying puts at most MAX_NEIGHBOURS requests with the
   * next lower TTL in flight, each one step away from a queue; answering puts as many answers in flight,
   * each two steps away from an index.
   */
  function RequestWeight(ttl: nat): nat {
    if ttl == 0 then 1 + 2 * MAX_NEIGHBOURS else 1 + MAX_NEIGHBOURS * (1 + RequestWeight(ttl - 1))
  }

  /** What one local search can cost. */
  function AskWeight(): nat {
    1 + MAX_NEIGHBOURS * (1 + RequestWeight(DEFAULT_TTL))
  }

  function FlightWeight(fl: Flight): nat {
    match fl
    case Request(_, _, req) => 1 + RequestWeight(req.ttl)
    case Answer(_, _, _, _) => 2
    case ToClient(_, _, _) => 1
  }

  function PendingWeight(p: Pending): nat {
    match p
    case LocalSearch(_) => AskWeight()
    case RemoteSearch(_, req) => RequestWeight(req.ttl)
  }

  function WireSum(wire: seq<Flight>): nat {
    if wire == [] then 0 else FlightWeight(wire[0]) + WireSum(wire[1..])
  }

  function QueueSum(queue: seq<Pending>): nat {
    if queue == [] then 0 else PendingWeight(queue[0]) + QueueSum(queue[1..])
  }

  function NodesSum(nodes: seq<Node>): nat {
    if nodes == [] then 0 else QueueSum(nodes[0].pending) + NodesSum(nodes[1..])
  }

  /** The weight of everything in flight and queued. */
  function Measure(s: Network): nat {
    WireSum(s.wire) + NodesSum(s.nodes)
  }

  // ----- Sums -----

  lemma {:induction false} WireSumAppend(a: seq<Flight>, b: seq<Flight>)
    ensures WireSum(a + b) == WireSum(a) + WireSum(b)
  {
    if a == [] {
      assert a + b == b;
    } else {
      assert (a + b)[1..] == a[1..] + b;
      WireSumAppend(a[1..], b);
    }
  }

  lemma {:induction false} WireSumWithout(wire: seq<Flight>, k: nat)
    requires k < |wire|
    ensures WireSum(wire) == WireSum(Without(wire, k)) + FlightWeight(wire[k])
  {
    WireSumAppend(wire[..k], wire[k + 1..]);
    WireSumAppend(wire[..k], wire[k..]);
    assert wire == wire[..k] + wire[k..];
  }

  lemma {:induction false} WireSumConstant(wire: seq<Flight>, w: nat)
    requires forall fl :: fl in wire ==> FlightWeight(fl) == w
    ensures WireSum(wire) == |wire| * w
  {
    if wire != [] {
      assert wire[0] in wire;
      WireSumConstant(wire[1..], w);
      assert |wire| * w == w + (|wire| - 1) * w;
    }
  }

  lemma {:induction false} QueueSumAppend(queue: seq<Pending>, p: Pending)
    ensures QueueSum(queue + [p]) == QueueSum(queue) + PendingWeight(p)
  {
    if queue == [] {
      assert (queue + [p])[1..] == [];
    } else {
      assert (queue + [p])[1..] == queue[1..] + [p];
      QueueSumAppend(queue[1..], p);
    }
  }

  lemma {:induction false} NodesSumUpdate(nodes: seq<Node>, n: nat, node: Node)
    requires n < |nodes|
    ensures NodesSum(nodes[n := node]) + QueueSum(nodes[n].pending) == NodesSum(nodes) + QueueSum(node.pending)
  {
    if n == 0 {
      assert nodes[n := node][1..] == nodes[1..];
    } else {
      assert nodes[n := node][1..] == nodes[1..][n - 1 := node];
      NodesSumUpdate(nodes[1..], n - 1, node);
    }
  }

  // ----- One step -----

  /** Steps of the search protocol itself, as against searches, downloads and the clock. */
  predicate IsWork(e: Event) {
    e.Arrive? || e.Read? || e.Serve?
  }

  lemma EmittedWeight(node: Node, e: Event)
    requires e.Serve? && node.pending != [] && CanServe(node, e) && |e.to| <= MAX_NEIGHBOURS
    ensures WireSum(Emits(node, e)) < PendingWeight(node.pending[0])
  {
    var out := Emits(node, e);
    var front := node.pending[0];
    if front.LocalSearch? && !e.hit {
      WireSumConstant(out, 1 + RequestWeight(DEFAULT_TTL));
      WeightsOrdered(|e.to|, 1 + RequestWeight(DEFAULT_TTL));
    } else if front.LocalSearch? || IsSource(node, front.req) {
      assert out[1..] == [];
    } else if e.answer {
      WireSumConstant(out, 2);
      assert front.req.ttl > 0 ==> RequestWeight(front.req.ttl) >= 1 + MAX_NEIGHBOURS * 2 by {
        if front.req.ttl > 0 {
          assert RequestWeight(front.req.ttl - 1) >= 1;
        }
      }
    } else {
      WireSumConstant(out, 1 + RequestWeight(front.req.ttl - 1));
      WeightsOrdered(|e.to|, 1 + RequestWeight(front.req.ttl - 1));
    }
  }

  lemma WeightsOrdered(count: nat, w: nat)
    requires count <= MAX_NEIGHBOURS
    ensures count * w <= MAX_NEIGHBOURS * w
  {
    assert (MAX_NEIGHBOURS - count) * w >= 0;
  }

  /** A protocol step lowers the measure; a new search raises it by a constant; nothing else touches it. */
  lemma MeasureNext(s: Network, e: Event)
    requires WellFormed(s) && Enabled(s, e)
    ensures IsWork(e) ==> Measure(Next(s, e)) < Measure(s)
    ensures e.Ask? ==> Measure(Next(s, e)) == Measure(s) + AskWeight()
    ensures !IsWork(e) && !e.Ask? ==> Measure(Next(s, e)) == Measure(s)
  {
    hide RequestWeight, AskWeight, QueueSum, NodesSum, Emits, CanServe;
    var s' := Next(s, e);
    match e
    case Ask(n, file) =>
      QueueSumAppend(s.nodes[n].pending, LocalSearch(file));
      NodesSumUpdate(s.nodes, n, s'.nodes[n]);
    case Arrive(k) =>
      var fl := s.wire[k];
      WireSumWithout(s.wire, k);
      if fl.Request? {
        QueueSumAppend(s.nodes[fl.dst].pending, RemoteSearch(fl.src, fl.req));
        NodesSumUpdate(s.nodes, fl.dst, s'.nodes[fl.dst]);
      } else {
        var last := ToClient(fl.dst, fl.file, fl.found);
        WireSumAppend(Without(s.wire, k), [last]);
        assert [last][1..] == [];
      }
    case Read(k) =>
      WireSumWithout(s.wire, k);
      NodesSumUpdate(s.nodes, s.wire[k].dst, s'.nodes[s.wire[k].dst]);
    case Serve(n, _, _, _, _) =>
      EmittedWeight(s.nodes[n], e);
      WireSumAppend(s.wire, Emits(s.nodes[n], e));
      QueueSumFront(s.nodes[n].pending);
      NodesSumUpdate(s.nodes, n, s'.nodes[n]);
    case Gain(n, _) =>
      NodesSumUpdate(s.nodes, n, s'.nodes[n]);
    case Tick(n, _, _) =>
      NodesSumUpdate(s.nodes, n, s'.nodes[n]);
  }

  lemma QueueSumFront(queue: seq<Pending>)
    requires queue != []
    ensures QueueSum(queue) == PendingWeight(queue[0]) + QueueSum(queue[1..])
  {
  }

  // ----- Whole runs -----

  function Work(events: seq<Event>): nat {
    if events == [] then 0 else (if IsWork(events[0]) then 1 else 0) + Work(events[1..])
  }

  function Asks(events: seq<Event>): nat {
    if events == [] then 0 else (if events[0].Ask? then 1 else 0) + Asks(events[1..])
  }

  /**
   * Amortised termination: however searches, downloads, clocks, deliveries and answers interleave, the
   * protocol steps of a run are paid for by what was pending at its start and by its searches.
   */
  lemma {:induction false} WorkIsBounded(s: Network, events: seq<Event>)
    requires Run(s, events)
    ensures Work(events) + Measure(After(s, events)) <= Measure(s) + Asks(events) * AskWeight()
    decreases |events|
  {
    hide Measure, AskWeight, Next, Enabled;
    if events != [] {
      MeasureNext(s, events[0]);
      WorkIsBounded(Next(s, events[0]), events[1..]);
      var a, w := Asks(events[1..]), AskWeight();
      assert (a + 1) * w == a * w + w;
    }
  }

  lemma {:induction false} AllWork(events: seq<Event>)
    requires forall e :: e in events ==> IsWork(e)
    ensures Work(events) == |events| && Asks(events) == 0
  {
    if events != [] {
      assert events[0] in events;
      AllWork(events[1..]);
    }
  }

  /** Without new searches, no run has more protocol steps than the measure of its first state. */
  lemma FloodTerminates(s: Network, events: seq<Event>)
    requires Run(s, events) && Asks(events) == 0
    ensures Work(events) <= Measure(s)
  {
    hide Measure, AskWeight;
    WorkIsBounded(s, events);
  }

  /** A run of protocol steps only is no longer than that. */
  lemma WorkOnlyTerminates(s: Network, events: seq<Event>)
    requires Run(s, events) && forall e :: e in events ==> IsWork(e)
    ensures |events| <= Measure(s)
  {
    AllWork(events);
    hide *;
    FloodTerminates(s, events);
  }
}
