/** What whole runs of the balancer guarantee, whatever is added or marked in between. */
module Fairness {
  import opened Sums
  import opened Upstream

  function TotalWeight(ns: seq<Node>): int {
    Sum(Weights(ns))
  }

  /** The floor under the sum of any k of the n counters. */
  function Floor(W: int, n: int, k: int): int {
    -(W * (k * (n - k)))
  }

  ghost predicate AboveFloor(ns: seq<Node>, S: set<int>) {
    SumOn(Counters(ns), S) >= Floor(TotalWeight(ns), |ns|, |S|)
  }

  ghost predicate Fair(ns: seq<Node>) {
    && Weighted(ns)
    && Sum(Counters(ns)) == 0
    && forall S: set<int> | Within(S, |ns|) :: AboveFloor(ns, S)
  }

  /** Same nodes, same weights, same health: only the counters may differ. */
  ghost predicate SameFleet(a: seq<Node>, b: seq<Node>) {
    |a| == |b| && forall i | 0 <= i < |a| :: b[i] == a[i].(activeConns := b[i].activeConns)
  }

  lemma SameFleetTotals(a: seq<Node>, b: seq<Node>)
    requires SameFleet(a, b)
    ensures Weights(b) == Weights(a) && HealthyWeights(b) == HealthyWeights(a)
  {
  }

  /** The effect of one pick on the sum over any set of nodes. */
  lemma PickOnSet(ns: seq<Node>, S: set<int>)
    requires PickIndex(ns) >= 0
    ensures SumOn(Counters(AfterPick(ns)), S)
         == SumOn(Counters(ns), S) + SumOn(HealthyWeights(ns), S) - if PickIndex(ns) in S then HealthyTotal(ns) else 0
  {
    var b := PickIndex(ns);
    var up := Counters(RaiseAll(ns));
    SumOnAdd(Counters(ns), HealthyWeights(ns), up, S);
    SumOnUpdate(up, b, up[b] - HealthyTotal(ns), S);
    assert Counters(AfterPick(ns)) == up[b := up[b] - HealthyTotal(ns)];
  }

  lemma PickKeepsFleet(ns: seq<Node>)
    requires Weighted(ns)
    ensures SameFleet(ns, AfterPick(ns))
    ensures Sum(Counters(AfterPick(ns))) == Sum(Counters(ns))
  {
    var r := AfterPick(ns);
    if PickIndex(ns) >= 0 {
      var All := Positions(|ns|);
      PickOnSet(ns, All);
      SumOnSupport(Counters(ns), All);
      SumOnSupport(HealthyWeights(ns), All);
      SumOnSupport(Counters(r), All);
    }
  }

  /** The step of the floor argument: two neighbouring floors imply the one in between. */
  lemma FloorStep(W: int, n: int, k: int, s: int, vj: int, vi: int, wj: int, wi: int, T: int)
    requires 0 < wi && 0 < wj && T <= W
    requires vj + wj >= vi + wi
    requires s - vj >= Floor(W, n, k - 1)
    requires s + vi >= Floor(W, n, k + 1)
    ensures s + wj - T >= Floor(W, n, k)
  {
    var q := k * (n - k);
    assert (k - 1) * (n - (k - 1)) == q + 2 * k - n - 1;
    assert (k + 1) * (n - (k + 1)) == q - 2 * k + n - 1;
    assert W * (q + 2 * k - n - 1) + W * (q - 2 * k + n - 1) == 2 * (W * q) - 2 * W;
  }

  lemma HealthyShare(ns: seq<Node>)
    requires Weighted(ns)
    ensures HealthyTotal(ns) <= TotalWeight(ns)
    ensures 0 <= TotalWeight(ns)
  {
    SumLe(HealthyWeights(ns), Weights(ns));
    SumOnNonNegative(Weights(ns), {});
  }

  /** The only falling case: the picked j is in S and some healthy i is not. */
  lemma PickAboveFloorSplit(ns: seq<Node>, S: set<int>, i: int)
    requires Fair(ns) && Within(S, |ns|)
    requires PickIndex(ns) in S && 0 <= i < |ns| && i !in S && ns[i].healthy
    ensures AboveFloor(AfterPick(ns), S)
  {
    hide Floor;
    var j := PickIndex(ns);
    var v := Counters(ns);
    var S0, S1 := S - {j}, S + {i};
    assert S == S0 + {j};
    SumOnInsert(v, S0, j);
    SumOnInsert(v, S, i);
    assert AboveFloor(ns, S0) && AboveFloor(ns, S1);
    var up := RaiseAll(ns);
    BestIsFirstLargest(up);
    assert up[i].healthy && up[i].activeConns <= up[j].activeConns;
    HealthyShare(ns);
    FloorStep(TotalWeight(ns), |ns|, |S|, SumOn(v, S), v[j], v[i], ns[j].weight, ns[i].weight, HealthyTotal(ns));
    SumOnNonNegative(HealthyWeights(ns), S);
    assert HealthyWeights(ns)[j] == ns[j].weight;
    PickOnSet(ns, S);
    SameFleetTotals(ns, AfterPick(ns));
  }

  lemma PickAboveFloor(ns: seq<Node>, S: set<int>)
    requires Fair(ns) && Within(S, |ns|)
    ensures AboveFloor(AfterPick(ns), S)
  {
    var j := PickIndex(ns);
    assert AboveFloor(ns, S);
    PickKeepsFleet(ns);
    SameFleetTotals(ns, AfterPick(ns));
    if j >= 0 {
      if j in S && exists i :: 0 <= i < |ns| && i !in S && ns[i].healthy {
        var i :| 0 <= i < |ns| && i !in S && ns[i].healthy;
        PickAboveFloorSplit(ns, S, i);
      } else {
        PickOnSet(ns, S);
        SumOnNonNegative(HealthyWeights(ns), S);
        if j in S {
          SumOnSupport(HealthyWeights(ns), S);
        }
      }
    }
  }

  lemma PickStaysFair(ns: seq<Node>)
    requires Fair(ns)
    ensures Fair(AfterPick(ns))
  {
    PickKeepsFleet(ns);
    forall S: set<int> | Within(S, |ns|) ensures AboveFloor(AfterPick(ns), S) {
      PickAboveFloor(ns, S);
    }
  }

  lemma FloorFalls(W: int, w: int, n: int, k: int)
    requires 0 <= W && 0 < w && 0 <= k <= n
    ensures Floor(W + w, n + 1, k) <= Floor(W, n, k)
    ensures Floor(W + w, n + 1, k + 1) <= Floor(W, n, k)
  {
    assert k * (n - k) <= k * (n + 1 - k);
    assert (k + 1) * (n + 1 - (k + 1)) == k * (n - k) + (n - k);
    MulLe(W, W + w, k * (n - k), k * (n + 1 - k));
    MulLe(W, W + w, k * (n - k), (k + 1) * (n + 1 - (k + 1)));
  }

  lemma MulLe(a: int, b: int, x: int, y: int)
    requires 0 <= a <= b && 0 <= x <= y
    ensures a * x <= b * y
  {
    assert a * x <= b * x;
    assert b * x <= b * y;
  }

  lemma AddAboveFloor(ns: seq<Node>, m: Node, S: set<int>)
    requires Fair(ns) && m.weight > 0 && m.activeConns == 0 && Within(S, |ns| + 1)
    ensures AboveFloor(ns + [m], S)
  {
    hide Floor;
    var r, n, S0 := ns + [m], |ns|, S - {|ns|};
    assert Counters(r)[..n] == Counters(ns) && Weights(r)[..n] == Weights(ns);
    HealthyShare(ns);
    SumOnFrame(Counters(ns), S, S0);
    WithinSize(S0, n);
    assert AboveFloor(ns, S0);
    FloorFalls(TotalWeight(ns), m.weight, n, |S0|);
    if n in S {
      assert S == S0 + {n};
    } else {
      assert S == S0;
    }
  }

  lemma AddStaysFair(ns: seq<Node>, m: Node)
    requires Fair(ns) && m.weight > 0 && m.activeConns == 0
    ensures Fair(ns + [m])
  {
    hide Floor, AboveFloor;
    var r, n := ns + [m], |ns|;
    assert Counters(r)[..n] == Counters(ns);
    forall S: set<int> | Within(S, n + 1) ensures AboveFloor(r, S) {
      AddAboveFloor(ns, m, S);
    }
  }

  lemma MarkStaysFair(ns: seq<Node>, r: seq<Node>)
    requires Fair(ns) && |r| == |ns|
    requires forall i | 0 <= i < |ns| :: r[i] == ns[i].(healthy := r[i].healthy)
    ensures Fair(r)
  {
    assert Counters(r) == Counters(ns) && Weights(r) == Weights(ns);
    forall S: set<int> | Within(S, |r|) ensures AboveFloor(r, S) {
      assert AboveFloor(ns, S);
    }
  }

  /** Every run, in any order of adding, marking and picking, keeps the counters fair. */
  lemma {:induction false} RunsStayFair(ops: seq<Op>)
    ensures Fair(Run(ops).nodes)
  {
    hide AfterPick;
    if |ops| == 0 {
      forall S: set<int> | Within(S, 0) ensures AboveFloor([], S) {
        WithinSize(S, 0);
      }
    } else {
      var b := Run(ops[..|ops| - 1]);
      RunsStayFair(ops[..|ops| - 1]);
      match ops[|ops| - 1]
      case AddNode(host, port, weight) =>
        AddStaysFair(b.nodes, Node(StoredHost(host), port, if weight > 0 then weight else 1, true, 0));
      case Mark(host, port, healthy) =>
        MarkStaysFair(b.nodes, Run(ops).nodes);
      case Pick =>
        PickStaysFair(b.nodes);
    }
  }

  lemma FloorOfOne(W: int, n: int)
    ensures Floor(W, n, 1) == -((n - 1) * W) == Floor(W, n, n - 1)
  {
    assert (n - 1) * (n - (n - 1)) == n - 1;
  }

  lemma FairCounterBound(ns: seq<Node>, i: nat)
    requires Fair(ns) && i < |ns|
    ensures -((|ns| - 1) * TotalWeight(ns)) <= ns[i].activeConns <= (|ns| - 1) * TotalWeight(ns)
  {
    hide Floor;
    var v := Counters(ns);
    var All := Positions(|ns|);
    var Rest := All - {i};
    assert All == Rest + {i};
    SumOnSupport(v, All);
    SumOnInsert(v, Rest, i);
    SumOnZero(v);
    SumOnInsert(v, {}, i);
    assert {} + {i} == {i};
    assert AboveFloor(ns, {i}) && AboveFloor(ns, Rest);
    FloorOfOne(TotalWeight(ns), |ns|);
  }

  lemma {:induction false} SumOnZero(v: seq<int>)
    ensures SumOn(v, {}) == 0
  {
    if |v| > 0 {
      SumOnZero(v[..|v| - 1]);
    }
  }

  /** However health flaps, no counter ever leaves [-(N-1)W, (N-1)W], and the counters sum to zero. */
  lemma CountersStayBounded(ops: seq<Op>)
    ensures Sum(Counters(Run(ops).nodes)) == 0
    ensures var ns := Run(ops).nodes;
      forall i | 0 <= i < |ns| ::
        -((|ns| - 1) * TotalWeight(ns)) <= ns[i].activeConns <= (|ns| - 1) * TotalWeight(ns)
  {
    var ns := Run(ops).nodes;
    RunsStayFair(ops);
    forall i | 0 <= i < |ns|
      ensures -((|ns| - 1) * TotalWeight(ns)) <= ns[i].activeConns <= (|ns| - 1) * TotalWeight(ns)
    {
      FairCounterBound(ns, i);
    }
  }

  // ----- Consecutive picks on an unchanged fleet -----

  function PickMany(ns: seq<Node>, k: nat): (r: seq<Node>)
    ensures |r| == |ns|
  {
    if k == 0 then ns else AfterPick(PickMany(ns, k - 1))
  }

  /** The nodes chosen by the first k picks, in order; -1 when none was healthy. */
  function Picks(ns: seq<Node>, k: nat): (p: seq<int>)
    ensures |p| == k
  {
    if k == 0 then [] else Picks(ns, k - 1) + [PickIndex(PickMany(ns, k - 1))]
  }

  function Count(p: seq<int>, i: int): nat {
    if |p| == 0 then 0 else Count(p[..|p| - 1], i) + if p[|p| - 1] == i then 1 else 0
  }

  /** How often node i was chosen in the first k picks. */
  function Hits(ns: seq<Node>, k: nat, i: int): nat {
    Count(Picks(ns, k), i)
  }

  lemma HitsStep(ns: seq<Node>, k: nat, i: int)
    requires k > 0
    ensures Hits(ns, k, i) == Hits(ns, k - 1, i) + if PickIndex(PickMany(ns, k - 1)) == i then 1 else 0
  {
    assert Picks(ns, k)[..k - 1] == Picks(ns, k - 1);
  }

  /** The effect of one pick on one node. */
  lemma PickOnNode(ns: seq<Node>, i: nat)
    requires Weighted(ns) && i < |ns|
    ensures PickIndex(ns) == i ==> ns[i].healthy
    ensures AfterPick(ns)[i].activeConns == ns[i].activeConns
      + (if ns[i].healthy then ns[i].weight else 0) - (if PickIndex(ns) == i then HealthyTotal(ns) else 0)
  {
    if PickIndex(ns) == -1 {
      if HealthyTotal(ns) == 0 {
        NoneHealthy(ns);
      } else {
        SomeHealthy(ns);
      }
    } else {
      BestIsFirstLargest(RaiseAll(ns));
      assert RaiseAll(ns)[PickIndex(ns)].healthy;
    }
  }

  lemma {:induction false} PickManyFacts(ns: seq<Node>, k: nat)
    requires Weighted(ns)
    ensures SameFleet(ns, PickMany(ns, k))
    ensures Weighted(PickMany(ns, k))
    ensures HealthyWeights(PickMany(ns, k)) == HealthyWeights(ns)
    ensures Sum(Counters(PickMany(ns, k))) == Sum(Counters(ns))
    ensures Fair(ns) ==> Fair(PickMany(ns, k))
  {
    hide AfterPick;
    if k > 0 {
      PickManyFacts(ns, k - 1);
      PickKeepsFleet(PickMany(ns, k - 1));
      if Fair(ns) {
        PickStaysFair(PickMany(ns, k - 1));
      }
    }
    SameFleetTotals(ns, PickMany(ns, k));
  }

  function Balance(start: int, weight: int, total: int, picks: int, hits: int): int {
    start + picks * weight - hits * total
  }

  lemma BalanceStep(start: int, w: int, T: int, k: int, h: int)
    ensures Balance(start, w, T, k + 1, h) == Balance(start, w, T, k, h) + w
    ensures Balance(start, w, T, k, h + 1) == Balance(start, w, T, k, h) - T
  {
  }

  lemma AccountStep(m: seq<Node>, i: nat, start: int, k: nat, h: nat)
    requires Weighted(m) && i < |m|
    requires m[i].activeConns == Balance(start, HealthyWeights(m)[i], HealthyTotal(m), k, h)
    ensures AfterPick(m)[i].activeConns == Balance(start, HealthyWeights(m)[i], HealthyTotal(m), k + 1,
                                             h + if PickIndex(m) == i then 1 else 0)
  {
    PickOnNode(m, i);
    BalanceStep(start, HealthyWeights(m)[i], HealthyTotal(m), k, h);
    BalanceStep(start, HealthyWeights(m)[i], HealthyTotal(m), k + 1, h);
  }

  /** The account of a node after k picks: k times its weight in, its hits times the healthy total out. */
  lemma {:induction false} Account(ns: seq<Node>, k: nat, i: nat)
    requires Weighted(ns) && i < |ns|
    ensures PickMany(ns, k)[i].activeConns
         == Balance(ns[i].activeConns, HealthyWeights(ns)[i], HealthyTotal(ns), k, Hits(ns, k, i))
    ensures !ns[i].healthy ==> Hits(ns, k, i) == 0
  {
    hide AfterPick, PickIndex;
    if k > 0 {
      Account(ns, k - 1, i);
      var m := PickMany(ns, k - 1);
      PickManyFacts(ns, k - 1);
      HitsStep(ns, k, i);
      AccountStep(m, i, ns[i].activeConns, k - 1, Hits(ns, k - 1, i));
      var w, T, h := HealthyWeights(ns)[i], HealthyTotal(ns), Hits(ns, k, i);
      assert HealthyWeights(m)[i] == w && HealthyTotal(m) == T;
      assert AfterPick(m)[i].activeConns == Balance(ns[i].activeConns, w, T, k, h);
      assert PickMany(ns, k) == AfterPick(m);
      if !ns[i].healthy {
        PickOnNode(m, i);
      }
    }
  }

  function Tally(p: seq<int>, n: nat): (t: seq<int>)
    ensures |t| == n
  {
    seq(n, i => Count(p, i))
  }

  lemma {:induction false} TallySum(p: seq<int>, n: nat)
    requires forall j | 0 <= j < |p| :: 0 <= p[j] < n
    ensures Sum(Tally(p, n)) == |p|
  {
    if |p| == 0 {
      SumZeros(Tally(p, n));
    } else {
      var q, b := p[..|p| - 1], p[|p| - 1];
      TallySum(q, n);
      SumUpdate(Tally(q, n), b, Tally(q, n)[b] + 1);
      assert Tally(p, n) == Tally(q, n)[b := Tally(q, n)[b] + 1];
    }
  }

  lemma {:induction false} PicksInRange(ns: seq<Node>, k: nat)
    requires Weighted(ns) && HealthyTotal(ns) != 0
    ensures forall j | 0 <= j < k :: 0 <= Picks(ns, k)[j] < |ns|
  {
    hide AfterPick;
    if k > 0 {
      PicksInRange(ns, k - 1);
      PickManyFacts(ns, k - 1);
      SomeHealthy(PickMany(ns, k - 1));
    }
  }

  /** From any reachable state, k picks serve a healthy node within 2(N-1)W of its exact share. */
  lemma ShareFromAnyState(ops: seq<Op>, k: nat, i: nat)
    requires i < |Run(ops).nodes| && Run(ops).nodes[i].healthy
    ensures var ns := Run(ops).nodes;
      var slack := 2 * ((|ns| - 1) * TotalWeight(ns));
      -slack <= Hits(ns, k, i) * HealthyTotal(ns) - k * ns[i].weight <= slack
  {
    hide AfterPick, PickIndex;
    var ns := Run(ops).nodes;
    RunsStayFair(ops);
    PickManyFacts(ns, k);
    SameFleetTotals(ns, PickMany(ns, k));
    Account(ns, k, i);
    FairCounterBound(ns, i);
    FairCounterBound(PickMany(ns, k), i);
  }

  /** No starvation: a healthy node is chosen in every window longer than 2(N-1)W / weight picks. */
  lemma NoStarvation(ops: seq<Op>, k: nat, i: nat)
    requires i < |Run(ops).nodes| && Run(ops).nodes[i].healthy
    requires var ns := Run(ops).nodes; k * ns[i].weight > 2 * ((|ns| - 1) * TotalWeight(ns))
    ensures exists j: nat | j < k :: PickIndex(PickMany(Run(ops).nodes, j)) == i
  {
    hide AfterPick, PickIndex;
    var ns := Run(ops).nodes;
    ShareFromAnyState(ops, k, i);
    HitWitness(ns, k, i);
  }

  lemma {:induction false} HitWitness(ns: seq<Node>, k: nat, i: nat)
    requires Hits(ns, k, i) > 0
    ensures exists j: nat | j < k :: PickIndex(PickMany(ns, j)) == i
  {
    if k > 0 {
      HitsStep(ns, k, i);
      if PickIndex(PickMany(ns, k - 1)) != i {
        HitWitness(ns, k - 1, i);
      }
    }
  }
}
