/**
 The weighted round-robin balancer. A pick raises the counter of every healthy node by its weight,
 takes the first node with the largest counter, and lowers that counter by the healthy total.
 */
module Upstream {
  import opened Sums

  const MAX_NODES: nat := 16
  const HOST_SIZE: nat := 64

  datatype Node = Node(host: string, port: int, weight: int, healthy: bool, activeConns: int)

  /** A balancer as a value; maxWeight is 0 until the first pick on a non-empty node list. */
  datatype Balancer = Balancer(nodes: seq<Node>, maxWeight: int, gcdWeight: int)

  datatype Op =
    | AddNode(host: string, port: int, weight: int)
    | Mark(host: string, port: int, healthy: bool)
    | Pick

  const EMPTY: Balancer := Balancer([], 0, 0)

  function Gcd(a: int, b: int): (g: int)
    requires a >= 0 && b >= 0
    ensures g >= 0
    ensures a > 0 || b > 0 ==> g > 0
    decreases b
  {
    if b == 0 then a else Gcd(b, a % b)
  }

  /** What strncpy into the zeroed host field keeps. */
  function StoredHost(host: string): string {
    if |host| < HOST_SIZE then host else host[..HOST_SIZE - 1]
  }

  function Weights(ns: seq<Node>): (w: seq<int>) {
    seq(|ns|, i requires 0 <= i < |ns| => ns[i].weight)
  }

  function HealthyWeights(ns: seq<Node>): (w: seq<int>) {
    seq(|ns|, i requires 0 <= i < |ns| => if ns[i].healthy then ns[i].weight else 0)
  }

  function Counters(ns: seq<Node>): (v: seq<int>) {
    seq(|ns|, i requires 0 <= i < |ns| => ns[i].activeConns)
  }

  function HealthyTotal(ns: seq<Node>): int {
    Sum(HealthyWeights(ns))
  }

  function Raised(n: Node): Node {
    if n.healthy then n.(activeConns := n.activeConns + n.weight) else n
  }

  function RaiseAll(ns: seq<Node>): seq<Node> {
    seq(|ns|, i requires 0 <= i < |ns| => Raised(ns[i]))
  }

  /** The scan for the healthy node with the largest counter; -1 when no node is healthy. */
  function Best(ns: seq<Node>): (b: int)
    ensures -1 <= b < |ns|
  {
    if |ns| == 0 then -1
    else
      var n := |ns| - 1;
      var b := Best(ns[..n]);
      if !ns[n].healthy then b
      else if b == -1 || ns[n].activeConns > ns[b].activeConns then n
      else b
  }

  /** It finds the first of the largest. */
  lemma {:induction false} BestIsFirstLargest(ns: seq<Node>)
    ensures Best(ns) == -1 <==> forall i | 0 <= i < |ns| :: !ns[i].healthy
    ensures Best(ns) >= 0 ==> ns[Best(ns)].healthy
    ensures Best(ns) >= 0 ==>
      forall i | 0 <= i < |ns| && ns[i].healthy :: ns[i].activeConns <= ns[Best(ns)].activeConns
    ensures Best(ns) >= 0 ==>
      forall i | 0 <= i < Best(ns) && ns[i].healthy :: ns[i].activeConns < ns[Best(ns)].activeConns
  {
    if |ns| > 0 {
      BestIsFirstLargest(ns[..|ns| - 1]);
    }
  }

  function PickIndex(ns: seq<Node>): (b: int)
    ensures -1 <= b < |ns|
  {
    if HealthyTotal(ns) == 0 then -1 else Best(RaiseAll(ns))
  }

  function AfterPick(ns: seq<Node>): (r: seq<Node>)
    ensures |r| == |ns|
  {
    var b := PickIndex(ns);
    if b == -1 then ns
    else
      var up := RaiseAll(ns);
      up[b := up[b].(activeConns := up[b].activeConns - HealthyTotal(ns))]
  }

  function MaxWeight(ns: seq<Node>): (m: int)
    ensures m >= 0
    ensures forall i | 0 <= i < |ns| :: ns[i].weight <= m
  {
    if |ns| == 0 then 0
    else
      var m := MaxWeight(ns[..|ns| - 1]);
      if ns[|ns| - 1].weight > m then ns[|ns| - 1].weight else m
  }

  function GcdOf(w: seq<int>): (g: int)
    requires forall i | 0 <= i < |w| :: w[i] >= 0
    ensures g >= 0
    ensures (exists i | 0 <= i < |w| :: w[i] > 0) ==> g > 0
  {
    if |w| == 0 then 0
    else if |w| == 1 then w[0]
    else Gcd(GcdOf(w[..|w| - 1]), w[|w| - 1])
  }

  ghost predicate Weighted(ns: seq<Node>) {
    forall i | 0 <= i < |ns| :: ns[i].weight > 0
  }

  function GcdWeight(ns: seq<Node>): int
    requires Weighted(ns)
  {
    var g := GcdOf(Weights(ns));
    if g > 0 then g else 1
  }

  function Recomputed(b: Balancer): Balancer
    requires Weighted(b.nodes)
  {
    if |b.nodes| > 0 && b.maxWeight == 0
    then b.(maxWeight := MaxWeight(b.nodes), gcdWeight := GcdWeight(b.nodes))
    else b
  }

  function Apply(b: Balancer, op: Op): (r: Balancer)
    requires Weighted(b.nodes)
    ensures Weighted(r.nodes)
  {
    match op
    case AddNode(host, port, weight) =>
      if |b.nodes| >= MAX_NODES then b
      else b.(nodes := b.nodes + [Node(StoredHost(host), port, if weight > 0 then weight else 1, true, 0)])
    case Mark(host, port, healthy) =>
      b.(nodes := seq(|b.nodes|, i requires 0 <= i < |b.nodes| =>
        if b.nodes[i].port == port && b.nodes[i].host == host then b.nodes[i].(healthy := healthy) else b.nodes[i]))
    case Pick =>
      var r := Recomputed(b);
      r.(nodes := AfterPick(r.nodes))
  }

  function Run(ops: seq<Op>): (r: Balancer)
    ensures Weighted(r.nodes)
  {
    if |ops| == 0 then EMPTY else Apply(Run(ops[..|ops| - 1]), ops[|ops| - 1])
  }

  // ----- What a pick chooses -----

  /**
   On the nodes as they come in: no node is chosen exactly when none is healthy, and otherwise the first of the healthy
   nodes for which counter and weight together are largest.
   */
  lemma PickIsFirstLargest(ns: seq<Node>)
    requires Weighted(ns)
    ensures PickIndex(ns) == -1 <==> forall i | 0 <= i < |ns| :: !ns[i].healthy
    ensures var b := PickIndex(ns);
      b >= 0 ==>
        && ns[b].healthy
        && (forall i | 0 <= i < |ns| && ns[i].healthy ::
              ns[i].activeConns + ns[i].weight <= ns[b].activeConns + ns[b].weight)
        && (forall i | 0 <= i < b && ns[i].healthy ::
              ns[i].activeConns + ns[i].weight < ns[b].activeConns + ns[b].weight)
  {
    if HealthyTotal(ns) == 0 {
      NoneHealthy(ns);
    } else {
      SomeHealthy(ns);
      var up := RaiseAll(ns);
      BestIsFirstLargest(up);
      forall i | 0 <= i < |ns| && ns[i].healthy
        ensures up[i].healthy && up[i].activeConns == ns[i].activeConns + ns[i].weight
      {
      }
    }
  }

  // ----- The balancer as the program updates it -----

  class Upstream {
    const nodes: array<Node>
    var nodeCount: nat
    var maxWeight: int
    var gcdWeight: int

    ghost predicate Valid()
      reads this, nodes
    {
      && nodes.Length == MAX_NODES
      && nodeCount <= MAX_NODES
      && (forall i | 0 <= i < nodeCount :: nodes[i].weight > 0)
      && (forall i | nodeCount <= i < MAX_NODES :: nodes[i].activeConns == 0)
    }

    ghost function Value(): (b: Balancer)
      requires Valid()
      reads this, nodes
      ensures Weighted(b.nodes)
    {
      Balancer(nodes[..nodeCount], maxWeight, gcdWeight)
    }

    constructor ()
      ensures Valid() && fresh(nodes)
      ensures Value() == EMPTY
    {
      nodes := new Node[MAX_NODES](_ => Node("", 0, 0, false, 0));
      nodeCount, maxWeight, gcdWeight := 0, 0, 0;
    }

    method Add(host: string, port: int, weight: int) returns (ok: bool)
      requires Valid()
      modifies this`nodeCount, nodes
      ensures Valid()
      ensures ok == (old(nodeCount) < MAX_NODES)
      ensures Value() == Apply(old(Value()), AddNode(host, port, weight))
    {
      if nodeCount >= MAX_NODES {
        return false;
      }
      var n := nodes[nodeCount];
      nodes[nodeCount] := n.(host := StoredHost(host), port := port,
        weight := if weight > 0 then weight else 1, healthy := true);
      nodeCount := nodeCount + 1;
      return true;
    }

    method Recompute()
      requires Valid()
      modifies this`maxWeight, this`gcdWeight
      ensures Valid()
      ensures maxWeight == MaxWeight(nodes[..nodeCount])
      ensures gcdWeight == GcdWeight(nodes[..nodeCount])
    {
      var mw, g := 0, 0;
      ghost var ns := nodes[..nodeCount];
      for i := 0 to nodeCount
        invariant mw == MaxWeight(ns[..i])
        invariant g == GcdOf(Weights(ns)[..i])
      {
        assert ns[..i + 1][..i] == ns[..i] && Weights(ns)[..i + 1][..i] == Weights(ns)[..i];
        if nodes[i].weight > mw {
          mw := nodes[i].weight;
        }
        if i == 0 {
          g := nodes[i].weight;
        } else {
          g := Gcd(g, nodes[i].weight);
        }
      }
      assert ns[..nodeCount] == ns && Weights(ns)[..nodeCount] == Weights(ns);
      maxWeight := mw;
      gcdWeight := if g > 0 then g else 1;
    }

    /** The first loop of a pick. */
    method RaiseHealthy() returns (total: int)
      requires Valid()
      modifies nodes
      ensures Valid()
      ensures nodes[..nodeCount] == RaiseAll(old(nodes[..nodeCount]))
      ensures total == HealthyTotal(old(nodes[..nodeCount]))
    {
      total := 0;
      ghost var hw := HealthyWeights(nodes[..nodeCount]);
      for i := 0 to nodeCount
        invariant total == Sum(hw[..i])
        invariant forall k | 0 <= k < i :: nodes[k] == Raised(old(nodes[k]))
        invariant forall k | i <= k < nodes.Length :: nodes[k] == old(nodes[k])
      {
        assert hw[..i + 1][..i] == hw[..i];
        if !nodes[i].healthy {
          continue;
        }
        nodes[i] := nodes[i].(activeConns := nodes[i].activeConns + nodes[i].weight);
        total := total + nodes[i].weight;
      }
      assert hw[..nodeCount] == hw;
    }

    /** The second loop of a pick. */
    method FindBest() returns (best: int)
      requires Valid()
      ensures best == Best(nodes[..nodeCount])
    {
      best := -1;
      var bestVal := -1;
      for i := 0 to nodeCount
        invariant best == Best(nodes[..i])
        invariant best >= 0 ==> bestVal == nodes[best].activeConns
      {
        assert nodes[..i + 1][..i] == nodes[..i];
        if !nodes[i].healthy {
          continue;
        }
        if best == -1 || nodes[i].activeConns > bestVal {
          best := i;
          bestVal := nodes[i].activeConns;
        }
      }
    }

    /** The last part of a pick on raised counters: choose and pay. */
    method TakeBest(total: int, ghost ns: seq<Node>) returns (best: int)
      requires Valid()
      requires Weighted(ns) && HealthyTotal(ns) != 0
      requires nodes[..nodeCount] == RaiseAll(ns) && total == HealthyTotal(ns)
      modifies nodes
      ensures Valid()
      ensures best == PickIndex(ns)
      ensures nodes[..nodeCount] == AfterPick(ns)
    {
      SomeHealthy(ns);
      best := FindBest();
      nodes[best] := nodes[best].(activeConns := nodes[best].activeConns - total);
    }

    /** Returns the index of the chosen node, -1 for the null pointer. */
    method PickNode() returns (best: int)
      requires Valid()
      modifies this`maxWeight, this`gcdWeight, nodes
      ensures Valid()
      ensures best == PickIndex(old(nodes[..nodeCount]))
      ensures Value() == Apply(old(Value()), Pick)
    {
      ghost var ns := nodes[..nodeCount];
      if nodeCount == 0 {
        assert ns == [];
        return -1;
      }
      if maxWeight == 0 {
        Recompute();
      }
      var total := RaiseHealthy();
      if total == 0 {
        NoneHealthy(ns);
        return -1;
      }
      best := TakeBest(total, ns);
    }

    method SetHealth(host: string, port: int, healthy: bool)
      requires Valid()
      modifies nodes
      ensures Valid()
      ensures Value() == Apply(old(Value()), Mark(host, port, healthy))
    {
      for i := 0 to nodeCount
        invariant forall k | 0 <= k < i ::
          nodes[k] == var n := old(nodes[k]); if n.port == port && n.host == host then n.(healthy := healthy) else n
        invariant forall k | i <= k < nodes.Length :: nodes[k] == old(nodes[k])
      {
        if nodes[i].port == port && nodes[i].host == host {
          nodes[i] := nodes[i].(healthy := healthy);
        }
      }
    }
  }

  lemma NoneHealthy(ns: seq<Node>)
    requires Weighted(ns)
    requires HealthyTotal(ns) == 0
    ensures forall i | 0 <= i < |ns| :: !ns[i].healthy
    ensures RaiseAll(ns) == ns
  {
    var z := seq(|ns|, i => 0);
    SumZeros(z);
    SumLe(z, HealthyWeights(ns));
    forall i | 0 <= i < |ns| ensures !ns[i].healthy {
      assert z[i] == HealthyWeights(ns)[i];
    }
  }

  lemma SomeHealthy(ns: seq<Node>)
    requires Weighted(ns)
    requires HealthyTotal(ns) != 0
    ensures HealthyTotal(ns) > 0
    ensures PickIndex(ns) >= 0 && ns[PickIndex(ns)].healthy
  {
    BestIsFirstLargest(RaiseAll(ns));
    SumOnNonNegative(HealthyWeights(ns), {});
    if forall i | 0 <= i < |ns| :: !ns[i].healthy {
      SumZeros(HealthyWeights(ns));
    } else {
      var i :| 0 <= i < |ns| && ns[i].healthy;
      assert RaiseAll(ns)[i].healthy;
    }
  }
}
