/** The exact cycle of the balancer: which picks return the counters to rest, and what each node got by then. */
module Cycle {
  import opened Division
  import opened Sums
  import opened Upstream
  import opened Fairness

  ghost predicate AtRest(ns: seq<Node>) {
    Weighted(ns) && forall i | 0 <= i < |ns| :: ns[i].activeConns == 0
  }

  // ----- Divisibility -----

  lemma DividesThrough(x: int, y: int, g: int)
    requires y > 0 && g > 0 && x % y == 0 && y % g == 0
    ensures x % g == 0
  {
    var p, q := x / y, y / g;
    assert x == y * p && y == g * q;
    assert x == g * (q * p);
    Multiple(g, q * p);
  }

  lemma MultipleMinus(t: int, x: int, y: int, c: int)
    requires t > 0 && x % t == 0 && y % t == 0
    ensures (x - c * y) % t == 0
  {
    var p, q := x / t, y / t;
    assert x == t * p && y == t * q;
    assert x - c * y == t * (p - c * q);
    Multiple(t, p - c * q);
  }

  lemma {:induction false} GcdDivides(a: int, b: int)
    requires a >= 0 && b >= 0 && (a > 0 || b > 0)
    ensures a % Gcd(a, b) == 0 && b % Gcd(a, b) == 0
    decreases b
  {
    if b == 0 {
      Multiple(a, 1);
      assert a % a == 0;
    } else {
      GcdDivides(b, a % b);
      var g := Gcd(a, b);
      MultipleMinus(g, a % b, b, -(a / b));
      assert a == a % b - (-(a / b)) * b;
    }
  }

  lemma RemainderDivides(a: int, b: int, k: int, t: int)
    requires a >= 0 && b > 0 && t > 0
    requires (k * a) % t == 0 && (k * b) % t == 0
    ensures (k * (a % b)) % t == 0
  {
    var c := a / b;
    MultipleMinus(t, k * a, k * b, c);
    assert a % b == a - c * b;
    assert k * (a - c * b) == k * a - c * (k * b);
  }

  /** A number that divides k times a and k times b divides k times their gcd. */
  lemma {:induction false} GcdIsGreatest(a: int, b: int, k: int, t: int)
    requires a >= 0 && b >= 0 && t > 0
    requires (k * a) % t == 0 && (k * b) % t == 0
    ensures (k * Gcd(a, b)) % t == 0
    decreases b
  {
    if b > 0 {
      RemainderDivides(a, b, k, t);
      GcdIsGreatest(b, a % b, k, t);
    }
  }

  lemma {:induction false} GcdOfDivides(w: seq<int>)
    requires forall i | 0 <= i < |w| :: w[i] >= 0
    requires GcdOf(w) > 0
    ensures forall i | 0 <= i < |w| :: w[i] % GcdOf(w) == 0
  {
    var n := |w| - 1;
    if n == 0 {
      Multiple(w[0], 1);
    } else {
      var g0, g := GcdOf(w[..n]), GcdOf(w);
      GcdDivides(g0, w[n]);
      if g0 > 0 {
        GcdOfDivides(w[..n]);
      }
      forall i | 0 <= i < n ensures w[i] % g == 0 {
        assert w[i] == w[..n][i];
        if g0 > 0 {
          DividesThrough(w[i], g0, g);
        }
      }
    }
  }

  lemma {:induction false} GcdOfIsGreatest(w: seq<int>, k: int, t: int)
    requires forall i | 0 <= i < |w| :: w[i] >= 0
    requires t > 0 && forall i | 0 <= i < |w| :: (k * w[i]) % t == 0
    ensures (k * GcdOf(w)) % t == 0
  {
    if |w| > 1 {
      var n := |w| - 1;
      forall i | 0 <= i < n ensures (k * w[..n][i]) % t == 0 {
        assert w[..n][i] == w[i];
      }
      GcdOfIsGreatest(w[..n], k, t);
      GcdIsGreatest(GcdOf(w[..n]), w[n], k, t);
    }
  }

  // ----- One cycle -----

  /** A node picked while the counters sum to zero had a positive raised counter. */
  lemma BestIsPositive(m: seq<Node>, b: nat)
    requires Weighted(m) && b < |m| && PickIndex(m) == b
    requires Sum(Counters(m)) == 0 && HealthyTotal(m) > 0
    requires forall i | 0 <= i < |m| && !m[i].healthy :: m[i].activeConns == 0
    ensures m[b].healthy && m[b].activeConns + m[b].weight > 0
  {
    var up := RaiseAll(m);
    BestIsFirstLargest(up);
    SumAdd(Counters(m), HealthyWeights(m), Counters(up));
    assert up[b].healthy;
    if m[b].activeConns + m[b].weight <= 0 {
      var z := seq(|m|, i => 0);
      forall i | 0 <= i < |m| ensures Counters(up)[i] <= z[i] {
        if up[i].healthy {
          assert up[i].activeConns <= up[b].activeConns;
        }
      }
      SumZeros(z);
      SumLe(Counters(up), z);
    }
  }

  ghost predicate Shallow(m: seq<Node>) {
    && Weighted(m)
    && Sum(Counters(m)) == 0
    && forall i | 0 <= i < |m| ::
      && (m[i].healthy ==> m[i].activeConns > -HealthyTotal(m))
      && (!m[i].healthy ==> m[i].activeConns == 0)
  }

  lemma PickStaysShallow(m: seq<Node>)
    requires Shallow(m) && HealthyTotal(m) > 0
    ensures Shallow(AfterPick(m))
  {
    hide AfterPick;
    var r := AfterPick(m);
    PickKeepsFleet(m);
    SameFleetTotals(m, r);
    forall i | 0 <= i < |m|
      ensures r[i].healthy ==> r[i].activeConns > -HealthyTotal(r)
      ensures !r[i].healthy ==> r[i].activeConns == 0
    {
      PickOnNode(m, i);
      if PickIndex(m) == i {
        BestIsPositive(m, i);
      }
    }
  }

  /** Started at rest, no counter ever falls to minus the healthy total. */
  lemma {:induction false} NeverDeep(ns: seq<Node>, k: nat)
    requires AtRest(ns) && HealthyTotal(ns) > 0
    ensures Shallow(PickMany(ns, k))
  {
    hide AfterPick;
    if k == 0 {
      SumZeros(Counters(ns));
    } else {
      NeverDeep(ns, k - 1);
      PickManyFacts(ns, k - 1);
      PickStaysShallow(PickMany(ns, k - 1));
    }
  }

  /** The exact shares of one cycle: node i is due w[i] / d picks. */
  function Shares(w: seq<int>, d: int): (q: seq<int>)
    requires d > 0
    ensures |q| == |w|
  {
    seq(|w|, i requires 0 <= i < |w| => w[i] / d)
  }

  lemma {:induction false} SharesSum(w: seq<int>, d: int)
    requires d > 0 && forall i | 0 <= i < |w| :: w[i] % d == 0
    ensures Sum(w) == d * Sum(Shares(w, d))
  {
    if |w| > 0 {
      var n := |w| - 1;
      SharesSum(w[..n], d);
      assert Shares(w, d)[..n] == Shares(w[..n], d);
      assert w[n] == d * (w[n] / d);
      assert d * (Sum(Shares(w[..n], d)) + w[n] / d) == d * Sum(Shares(w[..n], d)) + d * (w[n] / d);
    }
  }

  lemma BalanceOfShare(w: int, T: int, d: int, K: int, h: int)
    requires d > 0 && w % d == 0 && K * d == T
    ensures Balance(0, w, T, K, h) == T * (w / d - h)
  {
    var q := w / d;
    assert w == d * q;
    assert K * w == T * q by { assert K * (d * q) == (K * d) * q; }
    assert T * (q - h) == T * q - h * T;
  }

  /** No node gets more than its share, and one that got its share is back at rest. */
  lemma AtMostShare(ns: seq<Node>, d: int, K: nat, i: nat)
    requires AtRest(ns) && i < |ns| && HealthyTotal(ns) > 0
    requires d > 0 && K * d == HealthyTotal(ns)
    requires HealthyWeights(ns)[i] % d == 0
    ensures Hits(ns, K, i) <= HealthyWeights(ns)[i] / d
    ensures Hits(ns, K, i) == HealthyWeights(ns)[i] / d ==> PickMany(ns, K)[i] == ns[i]
  {
    hide AfterPick;
    Account(ns, K, i);
    NeverDeep(ns, K);
    PickManyFacts(ns, K);
    ShareFromBalance(PickMany(ns, K)[i].activeConns, HealthyWeights(ns)[i], HealthyTotal(ns), d, K, Hits(ns, K, i));
  }

  lemma ShareFromBalance(v: int, w: int, T: int, d: int, K: int, h: int)
    requires d > 0 && w % d == 0 && K * d == T && T > 0
    requires v == Balance(0, w, T, K, h) && v > -T
    ensures h <= w / d
    ensures h == w / d ==> v == 0
  {
    BalanceOfShare(w, T, d, K, h);
    MultipleSize(T, w / d - h);
  }

  lemma PicksAreNodes(ns: seq<Node>, k: nat)
    requires Weighted(ns) && HealthyTotal(ns) != 0
    ensures Sum(Tally(Picks(ns, k), |ns|)) == k
  {
    PicksInRange(ns, k);
    TallySum(Picks(ns, k), |ns|);
  }

  lemma CycleHits(ns: seq<Node>, d: int, K: nat)
    requires AtRest(ns) && HealthyTotal(ns) > 0
    requires d > 0 && K * d == HealthyTotal(ns)
    requires forall i | 0 <= i < |ns| :: HealthyWeights(ns)[i] % d == 0
    ensures Tally(Picks(ns, K), |ns|) == Shares(HealthyWeights(ns), d)
  {
    hide AfterPick;
    var q, t := Shares(HealthyWeights(ns), d), Tally(Picks(ns, K), |ns|);
    forall i | 0 <= i < |ns| ensures t[i] <= q[i] {
      AtMostShare(ns, d, K, i);
    }
    PicksAreNodes(ns, K);
    SharesSum(HealthyWeights(ns), d);
    CancelFactor(d, K, Sum(q));
    SumLe(t, q);
  }

  /**
   Exact cycle: from rest, with d any common divisor of the healthy weights, after total / d picks
   every node was chosen exactly weight / d times and the balancer is back in the state it started in.
   */
  lemma ExactCycle(ns: seq<Node>, d: int, K: nat)
    requires AtRest(ns) && HealthyTotal(ns) > 0
    requires d > 0 && K * d == HealthyTotal(ns)
    requires forall i | 0 <= i < |ns| :: HealthyWeights(ns)[i] % d == 0
    ensures forall i | 0 <= i < |ns| :: Hits(ns, K, i) == HealthyWeights(ns)[i] / d
    ensures PickMany(ns, K) == ns
  {
    hide AfterPick;
    CycleHits(ns, d, K);
    forall i | 0 <= i < |ns|
      ensures Hits(ns, K, i) == HealthyWeights(ns)[i] / d
      ensures PickMany(ns, K)[i] == ns[i]
    {
      assert Tally(Picks(ns, K), |ns|)[i] == Shares(HealthyWeights(ns), d)[i];
      AtMostShare(ns, d, K, i);
    }
  }

  lemma CancelFactor(d: int, x: int, y: int)
    requires d > 0 && x * d == d * y
    ensures x == y
  {
    MultipleSize(d, x - y);
    assert d * (x - y) == 0;
  }

  // ----- Periodicity, and the exact period -----

  lemma {:induction false} PickManyAdd(ns: seq<Node>, a: nat, b: nat)
    ensures PickMany(ns, a + b) == PickMany(PickMany(ns, a), b)
  {
    hide AfterPick;
    if b > 0 {
      PickManyAdd(ns, a, b - 1);
      assert a + b - 1 == a + (b - 1);
    }
  }

  /** Once the state recurs after K picks, states and hence picks repeat with period K for ever. */
  lemma {:induction false} PicksRepeat(ns: seq<Node>, K: nat, n: nat)
    requires K > 0 && PickMany(ns, K) == ns
    ensures PickMany(ns, n) == PickMany(ns, n % K)
  {
    hide AfterPick;
    ModLess(n, K);
    if n >= K {
      PicksRepeat(ns, K, n - K);
      PickManyAdd(ns, K, n - K);
    }
  }

  lemma ModLess(n: nat, K: nat)
    requires K > 0
    ensures n < K ==> n % K == n
    ensures n >= K ==> n % K == (n - K) % K
  {
    if n >= K {
      var q, r := (n - K) / K, (n - K) % K;
      assert n == K * (q + 1) + r;
      Multiple(K, q + 1);
      MultiplePlus(K, q + 1, r);
    }
  }

  lemma MultiplePlus(t: int, q: int, r: int)
    requires 0 <= r < t
    ensures (t * q + r) % t == r
  {
    var p, s := (t * q + r) / t, (t * q + r) % t;
    assert s - r == t * (q - p);
    MultipleSize(t, q - p);
  }

  lemma GcdPositive(ns: seq<Node>)
    requires Weighted(ns) && HealthyTotal(ns) > 0
    ensures GcdOf(HealthyWeights(ns)) > 0
  {
    SomeHealthy(ns);
    assert HealthyWeights(ns)[PickIndex(ns)] > 0;
  }

  lemma TotalIsMultiple(ns: seq<Node>)
    requires Weighted(ns) && HealthyTotal(ns) > 0
    ensures var g := GcdOf(HealthyWeights(ns));
      && g > 0 && HealthyTotal(ns) / g > 0 && (HealthyTotal(ns) / g) * g == HealthyTotal(ns)
      && forall i | 0 <= i < |ns| :: HealthyWeights(ns)[i] % g == 0
  {
    var w := HealthyWeights(ns);
    GcdPositive(ns);
    var g := GcdOf(w);
    GcdOfDivides(w);
    SharesSum(w, g);
    Multiple(g, Sum(Shares(w, g)));
  }

  function Period(ns: seq<Node>): (K: int)
    requires Weighted(ns) && HealthyTotal(ns) > 0
    ensures K > 0 && K * GcdOf(HealthyWeights(ns)) == HealthyTotal(ns)
  {
    TotalIsMultiple(ns);
    HealthyTotal(ns) / GcdOf(HealthyWeights(ns))
  }

  lemma WholePeriodsRest(ns: seq<Node>, k: nat, K: nat)
    requires AtRest(ns) && HealthyTotal(ns) > 0
    requires K == Period(ns) && k % K == 0
    ensures PickMany(ns, k) == ns
  {
    hide AfterPick;
    TotalIsMultiple(ns);
    ExactCycle(ns, GcdOf(HealthyWeights(ns)), K);
    PicksRepeat(ns, K, k);
  }

  lemma RestIsWholePeriods(ns: seq<Node>, k: nat, K: nat)
    requires AtRest(ns) && HealthyTotal(ns) > 0
    requires K == Period(ns) && PickMany(ns, k) == ns
    ensures k % K == 0
  {
    hide AfterPick;
    var w, T := HealthyWeights(ns), HealthyTotal(ns);
    forall i | 0 <= i < |w| ensures (k * w[i]) % T == 0 {
      Account(ns, k, i);
      RestIsMultiple(k, w[i], T, Hits(ns, k, i));
    }
    GcdOfIsGreatest(w, k, T);
    CancelGcd(k, GcdOf(w), K, T);
  }

  lemma RestIsMultiple(k: int, w: int, T: int, h: int)
    requires T > 0 && Balance(0, w, T, k, h) == 0
    ensures (k * w) % T == 0
  {
    assert k * w == T * h;
    Multiple(T, h);
  }

  lemma CancelGcd(k: int, g: int, K: int, T: int)
    requires g > 0 && K > 0 && T > 0 && T == K * g && (k * g) % T == 0
    ensures k % K == 0
  {
    var q := (k * g) / T;
    assert k * g == T * q;
    assert T * q == g * (K * q);
    CancelFactor(g, k, K * q);
    Multiple(K, q);
  }

  /** The counters are back at rest after exactly the multiples of healthy total / gcd picks, never earlier. */
  lemma RestIffWholePeriods(ns: seq<Node>, k: nat)
    requires AtRest(ns) && HealthyTotal(ns) > 0
    ensures PickMany(ns, k) == ns <==> k % Period(ns) == 0
  {
    var K := Period(ns);
    if k % K == 0 {
      WholePeriodsRest(ns, k, K);
    } else if PickMany(ns, k) == ns {
      RestIsWholePeriods(ns, k, K);
    }
  }

  /** With every node healthy this is the gcd_weight the program stores at its first pick. */
  lemma StoredGcdIsThePeriodGcd(b: Balancer)
    requires Weighted(b.nodes) && |b.nodes| > 0 && b.maxWeight == 0
    requires forall i | 0 <= i < |b.nodes| :: b.nodes[i].healthy
    ensures Apply(b, Pick).gcdWeight == GcdOf(HealthyWeights(b.nodes))
    ensures HealthyTotal(b.nodes) > 0
  {
    var ns := b.nodes;
    assert HealthyWeights(ns) == Weights(ns);
    assert Weights(ns)[0] > 0;
    SumOnNonNegative(Weights(ns), Positions(|ns|));
    SumOnSupport(Weights(ns), Positions(|ns|));
  }
}
