/** The balancer's nodes, read off the operations that made them. */
module Fleet {
  import opened Sums
  import opened Upstream
  import opened Fairness

  function AddCount(ops: seq<Op>): nat {
    if |ops| == 0 then 0
    else AddCount(ops[..|ops| - 1]) + if ops[|ops| - 1].AddNode? then 1 else 0
  }

  /** What was last said about the health of this host and port; healthy if nothing was. */
  function LastWord(ops: seq<Op>, host: string, port: int): bool {
    if |ops| == 0 then true
    else match ops[|ops| - 1]
      case Mark(h, p, healthy) => if h == host && p == port then healthy else LastWord(ops[..|ops| - 1], host, port)
      case _ => LastWord(ops[..|ops| - 1], host, port)
  }

  lemma {:induction false} NodeCount(ops: seq<Op>)
    ensures |Run(ops).nodes| == if AddCount(ops) < 16 then AddCount(ops) else 16
  {
    hide AfterPick, GcdWeight, MaxWeight;
    if |ops| > 0 {
      NodeCount(ops[..|ops| - 1]);
    }
  }

  /** Node k is this one, and its counter is of no concern. */
  ghost predicate IsNode(ns: seq<Node>, k: nat, host: string, port: int, weight: int, healthy: bool) {
    && k < |ns| && ns[k].host == host && ns[k].port == port
    && ns[k].weight == weight && ns[k].healthy == healthy
  }

  lemma NodeStays(b: Balancer, op: Op, k: nat, host: string, port: int, weight: int, healthy: bool)
    requires Weighted(b.nodes) && IsNode(b.nodes, k, host, port, weight, healthy)
    ensures IsNode(Apply(b, op).nodes, k, host, port, weight,
                   if op.Mark? && op.host == host && op.port == port then op.healthy else healthy)
  {
    hide GcdWeight, MaxWeight;
    if op.Pick? {
      PickKeepsNode(b.nodes, k);
    }
  }

  lemma PickKeepsNode(ns: seq<Node>, k: nat)
    requires k < |ns|
    ensures AfterPick(ns)[k] == ns[k].(activeConns := AfterPick(ns)[k].activeConns)
  {
    hide HealthyTotal, PickIndex;
  }

  /**
   In every run: while fewer than 16 nodes were added before, adding a node makes the next one, with the host as far as
   it fits, the port, and the weight if that is positive and else 1. Its host, port and weight stay for ever, and it is
   healthy as the last mark for its host and port since then says, or else because it is new.
   */
  lemma {:induction false} NodeFromHistory(ops: seq<Op>, j: nat)
    requires j < |ops| && ops[j].AddNode? && AddCount(ops[..j]) < 16
    ensures var a := ops[j];
      var host := if |a.host| < 64 then a.host else a.host[..63];
      IsNode(Run(ops).nodes, AddCount(ops[..j]), host, a.port, if a.weight > 0 then a.weight else 1,
             LastWord(ops[j + 1..], host, a.port))
  {
    hide IsNode, LastWord, GcdWeight, MaxWeight, AfterPick;
    var a, n := ops[j], |ops| - 1;
    var host, weight := if |a.host| < 64 then a.host else a.host[..63], if a.weight > 0 then a.weight else 1;
    if j == n {
      NodeCount(ops[..j]);
      assert ops[j + 1..] == [];
      NewNode(Run(ops[..j]), a);
      NothingSaid(host, a.port);
    } else {
      assert ops[..n][..j] == ops[..j];
      NodeFromHistory(ops[..n], j);
      NodeStays(Run(ops[..n]), ops[n], AddCount(ops[..j]), host, a.port, weight,
                LastWord(ops[..n][j + 1..], host, a.port));
      OneMoreWord(ops, j, host, a.port);
    }
  }

  lemma NewNode(b: Balancer, a: Op)
    requires Weighted(b.nodes) && |b.nodes| < 16 && a.AddNode?
    ensures var host := if |a.host| < 64 then a.host else a.host[..63];
      IsNode(Apply(b, a).nodes, |b.nodes|, host, a.port, if a.weight > 0 then a.weight else 1, true)
  {
  }

  lemma NothingSaid(host: string, port: int)
    ensures LastWord([], host, port)
  {
  }

  lemma OneMoreWord(ops: seq<Op>, j: nat, host: string, port: int)
    requires j < |ops| - 1
    ensures var op := ops[|ops| - 1];
      LastWord(ops[j + 1..], host, port) ==
        if op.Mark? && op.host == host && op.port == port then op.healthy
        else LastWord(ops[..|ops| - 1][j + 1..], host, port)
  {
    var later := ops[j + 1..];
    assert later[..|later| - 1] == ops[..|ops| - 1][j + 1..];
  }

  /**
   A pick raises the counter of every healthy node by its weight and then lowers that of the chosen one alone, by as
   much as they were raised in all: the counters add up to what they did before. Nothing else about a node changes.
   */
  lemma PickMovesCounters(ns: seq<Node>, i: nat)
    requires Weighted(ns) && i < |ns|
    ensures var r, b := AfterPick(ns), PickIndex(ns);
      && r[i] == ns[i].(activeConns := r[i].activeConns)
      && (i != b ==> r[i].activeConns == ns[i].activeConns + if ns[i].healthy then ns[i].weight else 0)
      && Sum(Counters(r)) == Sum(Counters(ns))
  {
    PickKeepsNode(ns, i);
    PickIsFirstLargest(ns);
    PickKeepsFleet(ns);
  }

  /** By how much the picks of a run raised the counter of node k, and by how much they lowered it. */
  function Credit(ops: seq<Op>, k: nat): int {
    if |ops| == 0 then 0
    else
      var ns := Run(ops[..|ops| - 1]).nodes;
      Credit(ops[..|ops| - 1], k)
      + if ops[|ops| - 1].Pick? && k < |ns| && ns[k].healthy then ns[k].weight else 0
  }

  function Debit(ops: seq<Op>, k: nat): int {
    if |ops| == 0 then 0
    else
      var ns := Run(ops[..|ops| - 1]).nodes;
      Debit(ops[..|ops| - 1], k)
      + if ops[|ops| - 1].Pick? && PickIndex(ns) == k then Sum(HealthyWeights(ns)) else 0
  }

  lemma CounterStep(b: Balancer, op: Op, k: nat)
    requires Weighted(b.nodes) && k < |b.nodes|
    ensures k < |Apply(b, op).nodes|
    ensures Apply(b, op).nodes[k].activeConns == b.nodes[k].activeConns
      + (if op.Pick? && b.nodes[k].healthy then b.nodes[k].weight else 0)
      - (if op.Pick? && PickIndex(b.nodes) == k then Sum(HealthyWeights(b.nodes)) else 0)
  {
    hide GcdWeight, MaxWeight;
    if op.Pick? {
      PickIsFirstLargest(b.nodes);
    }
  }

  lemma NewCounter(b: Balancer, op: Op, k: nat)
    requires Weighted(b.nodes) && |b.nodes| <= k < |Apply(b, op).nodes|
    ensures Apply(b, op).nodes[k].activeConns == 0 && PickIndex(b.nodes) != k
  {
    hide GcdWeight, MaxWeight, AfterPick;
  }

  lemma {:induction false} NoAccountYet(ops: seq<Op>, k: nat)
    requires k >= |Run(ops).nodes|
    ensures Credit(ops, k) == Debit(ops, k) == 0
  {
    hide Apply, PickIndex;
    if |ops| > 0 {
      var front := ops[..|ops| - 1];
      NeverFewer(Run(front), ops[|ops| - 1]);
      NoAccountYet(front, k);
      PickBelow(Run(front).nodes);
    }
  }

  lemma NeverFewer(b: Balancer, op: Op)
    requires Weighted(b.nodes)
    ensures |Apply(b, op).nodes| >= |b.nodes|
  {
    hide GcdWeight, MaxWeight;
  }

  lemma PickBelow(ns: seq<Node>)
    ensures PickIndex(ns) < |ns|
  {
    hide Best;
  }

  /**
   In every run a node's counter is its account: its weight for each pick while it was healthy, less the healthy total
   for each pick that chose it.
   */
  lemma {:induction false} CounterFromHistory(ops: seq<Op>, k: nat)
    requires k < |Run(ops).nodes|
    ensures Run(ops).nodes[k].activeConns == Credit(ops, k) - Debit(ops, k)
  {
    hide Apply, PickIndex;
    if |ops| == 0 {
      assert false;
    } else {
      var front := ops[..|ops| - 1];
      if k < |Run(front).nodes| {
        CounterFromHistory(front, k);
        CounterStep(Run(front), ops[|ops| - 1], k);
      } else {
        NoAccountYet(front, k);
        NewCounter(Run(front), ops[|ops| - 1], k);
      }
    }
  }

  // ----- What the first pick fixes -----

  /** No node was there at any earlier pick. */
  predicate FirstPickAt(ops: seq<Op>, j: nat) {
    && j < |ops| && ops[j].Pick? && |Run(ops[..j]).nodes| > 0
    && forall i | 0 <= i < j && ops[i].Pick? :: |Run(ops[..i]).nodes| == 0
  }

  lemma {:induction false} UnsetBefore(ops: seq<Op>)
    requires forall i | 0 <= i < |ops| && ops[i].Pick? :: |Run(ops[..i]).nodes| == 0
    ensures Run(ops).maxWeight == 0 && Run(ops).gcdWeight == 0
  {
    hide AfterPick, GcdWeight, MaxWeight;
    if |ops| > 0 {
      var n := |ops| - 1;
      forall i | 0 <= i < n && ops[..n][i].Pick? ensures |Run(ops[..n][..i]).nodes| == 0 {
        assert ops[..n][..i] == ops[..i];
      }
      UnsetBefore(ops[..n]);
    }
  }

  lemma {:induction false} SomeNodeIsHeaviest(ns: seq<Node>)
    requires Weighted(ns) && |ns| > 0
    ensures MaxWeight(ns) > 0 && exists i | 0 <= i < |ns| :: ns[i].weight == MaxWeight(ns)
  {
    var n := |ns| - 1;
    if n > 0 && ns[n].weight <= MaxWeight(ns[..n]) {
      SomeNodeIsHeaviest(ns[..n]);
      var i :| 0 <= i < n && ns[..n][i].weight == MaxWeight(ns[..n]);
      assert ns[i].weight == MaxWeight(ns);
    } else {
      assert ns[n].weight == MaxWeight(ns);
    }
  }

  lemma PickSets(b: Balancer)
    requires Weighted(b.nodes) && |b.nodes| > 0 && b.maxWeight == 0
    ensures Apply(b, Pick).maxWeight == MaxWeight(b.nodes) && Apply(b, Pick).gcdWeight == GcdWeight(b.nodes)
  {
    hide AfterPick, GcdWeight, MaxWeight;
  }

  lemma WeightsStay(b: Balancer, op: Op)
    requires Weighted(b.nodes) && b.maxWeight > 0
    ensures Apply(b, op).maxWeight == b.maxWeight && Apply(b, op).gcdWeight == b.gcdWeight
  {
    hide AfterPick, GcdWeight, MaxWeight;
  }

  lemma FirstPickEarlier(ops: seq<Op>, j: nat)
    requires FirstPickAt(ops, j)
    ensures j < |ops| - 1 ==> ops[..|ops| - 1][..j] == ops[..j] && FirstPickAt(ops[..|ops| - 1], j)
    ensures Run(ops[..j]).maxWeight == 0
  {
    hide Apply;
    var front := ops[..|ops| - 1];
    forall i | 0 <= i < j ensures ops[..j][..i] == ops[..i] && (j < |front| ==> front[..i] == ops[..i]) {
    }
    UnsetBefore(ops[..j]);
    assert j < |front| ==> front[..j] == ops[..j];
  }

  /**
   The largest weight and the gcd are those of the nodes there are at the first pick that finds any, for ever: nodes
   added later do not change them.
   */
  lemma {:induction false} FirstPickFixesWeights(ops: seq<Op>, j: nat)
    requires FirstPickAt(ops, j)
    ensures var ns := Run(ops[..j]).nodes;
      && Run(ops).maxWeight > 0
      && (forall i | 0 <= i < |ns| :: ns[i].weight <= Run(ops).maxWeight)
      && (exists i | 0 <= i < |ns| :: ns[i].weight == Run(ops).maxWeight)
      && Run(ops).gcdWeight == GcdWeight(ns)
  {
    hide Apply, GcdWeight, MaxWeight;
    var n, ns := |ops| - 1, Run(ops[..j]).nodes;
    SomeNodeIsHeaviest(ns);
    LargestIsLargest(ns);
    FirstPickEarlier(ops, j);
    if j == n {
      PickSets(Run(ops[..j]));
    } else {
      FirstPickFixesWeights(ops[..n], j);
      WeightsStay(Run(ops[..n]), ops[n]);
    }
  }

  lemma LargestIsLargest(ns: seq<Node>)
    ensures forall i | 0 <= i < |ns| :: ns[i].weight <= MaxWeight(ns)
  {
  }

  // ----- Three nodes of weights 3, 2 and 1 -----

  /** The nodes with these counters. */
  function Trio(a: Node, b: Node, c: Node, x: int, y: int, z: int): seq<Node> {
    [a.(activeConns := x), b.(activeConns := y), c.(activeConns := z)]
  }

  ghost predicate Weights321(a: Node, b: Node, c: Node) {
    a.healthy && b.healthy && c.healthy && a.weight == 3 && b.weight == 2 && c.weight == 1
  }

  lemma TrioPick(a: Node, b: Node, c: Node, x: int, y: int, z: int)
    requires Weights321(a, b, c)
    ensures var ns := Trio(a, b, c, x, y, z);
      var k := if x + 3 >= y + 2 && x + 3 >= z + 1 then 0 else if y + 2 >= z + 1 then 1 else 2;
      && PickIndex(ns) == k
      && AfterPick(ns) == Trio(a, b, c, x + 3 - (if k == 0 then 6 else 0), y + 2 - (if k == 1 then 6 else 0),
                               z + 1 - (if k == 2 then 6 else 0))
  {
    var ns := Trio(a, b, c, x, y, z);
    PickIsFirstLargest(ns);
    assert HealthyWeights(ns) == [3, 2, 1];
    assert [3, 2, 1][..2] == [3, 2] && [3, 2][..1] == [3] && [3][..0] == [];
    assert ns[0].healthy && ns[1].healthy && ns[2].healthy;
  }

  /** The picks of the first round, ties going to the first node, and every counter back at 0. */
  lemma SixPicks(a: Node, b: Node, c: Node)
    requires Weights321(a, b, c)
    ensures Picks(Trio(a, b, c, 0, 0, 0), 6) == [0, 1, 0, 2, 1, 0]
    ensures PickMany(Trio(a, b, c, 0, 0, 0), 6) == Trio(a, b, c, 0, 0, 0)
  {
    hide PickIndex, AfterPick, Trio;
    var ns := Trio(a, b, c, 0, 0, 0);
    TrioPick(a, b, c, 0, 0, 0);
    TrioPick(a, b, c, -3, 2, 1);
    TrioPick(a, b, c, 0, -2, 2);
    TrioPick(a, b, c, -3, 0, 3);
    TrioPick(a, b, c, 0, 2, -2);
    TrioPick(a, b, c, 3, -2, -1);
    PicksOneMore(ns, 0);
    PicksOneMore(ns, 1);
    PicksOneMore(ns, 2);
    PicksOneMore(ns, 3);
    PicksOneMore(ns, 4);
    PicksOneMore(ns, 5);
    NoPicks(ns);
  }

  lemma PicksOneMore(ns: seq<Node>, k: nat)
    ensures Picks(ns, k + 1) == Picks(ns, k) + [PickIndex(PickMany(ns, k))]
    ensures PickMany(ns, k + 1) == AfterPick(PickMany(ns, k))
  {
    hide PickIndex, AfterPick;
  }

  lemma NoPicks(ns: seq<Node>)
    ensures Picks(ns, 0) == [] && PickMany(ns, 0) == ns
  {
  }
}
