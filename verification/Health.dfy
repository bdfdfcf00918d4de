/** The health checker: probe results, consecutive-failure counts and the health flags a pick obeys. */
module Health {
  import opened Upstream

  /** What the checker and the balancer share. */
  datatype Watch = Watch(b: Balancer, fails: seq<int>)

  datatype Event =
    | Probed(node: nat, ok: bool)
    | Added(host: string, port: int, weight: int)
    | Picked

  const START: Watch := Watch(EMPTY, [0, 0, 0, 0, 0, 0, 0, 0, 0, 0, 0, 0, 0, 0, 0, 0])

  ghost predicate WatchValid(w: Watch) {
    Weighted(w.b.nodes) && |w.b.nodes| <= MAX_NODES == |w.fails|
  }

  function AfterProbe(threshold: int, w: Watch, i: nat, ok: bool): (r: Watch)
    requires WatchValid(w) && i < |w.b.nodes|
    ensures WatchValid(r)
  {
    var n := w.b.nodes[i];
    if ok then
      Watch(w.b.(nodes := w.b.nodes[i := n.(healthy := true)]), w.fails[i := 0])
    else
      var f := w.fails[i] + 1;
      Watch(w.b.(nodes := w.b.nodes[i := if f >= threshold then n.(healthy := false) else n]), w.fails[i := f])
  }

  /** One pass over the first n nodes, oks[i] being the outcome of the probe of node i. */
  function AfterRound(threshold: int, w: Watch, oks: seq<bool>, n: nat): (r: Watch)
    requires WatchValid(w) && n <= |w.b.nodes| && n <= |oks|
    ensures WatchValid(r) && |r.b.nodes| == |w.b.nodes|
  {
    if n == 0 then w else AfterProbe(threshold, AfterRound(threshold, w, oks, n - 1), n - 1, oks[n - 1])
  }

  /** A probe of a node that does not exist yet never happens. */
  function After(threshold: int, w: Watch, e: Event): (r: Watch)
    requires WatchValid(w)
    ensures WatchValid(r)
  {
    match e
    case Probed(i, ok) => if i < |w.b.nodes| then AfterProbe(threshold, w, i, ok) else w
    case Added(host, port, weight) => w.(b := Apply(w.b, AddNode(host, port, weight)))
    case Picked => w.(b := Apply(w.b, Pick))
  }

  function WatchRun(threshold: int, es: seq<Event>): (w: Watch)
    ensures WatchValid(w)
  {
    if |es| == 0 then START else After(threshold, WatchRun(threshold, es[..|es| - 1]), es[|es| - 1])
  }

  ghost predicate Possible(threshold: int, es: seq<Event>) {
    forall k | 0 <= k < |es| && es[k].Probed? :: es[k].node < |WatchRun(threshold, es[..k]).b.nodes|
  }

  /** The length of the run of failed probes of node i that ends the history. */
  function TrailingFailures(es: seq<Event>, i: nat): nat {
    if |es| == 0 then 0
    else
      var e, before := es[|es| - 1], TrailingFailures(es[..|es| - 1], i);
      if e.Probed? && e.node == i then (if e.ok then 0 else before + 1) else before
  }

  class Checker {
    const u: Upstream
    const failThreshold: int
    const failCount: array<int>

    ghost predicate Valid()
      reads this, u, u.nodes, failCount
    {
      u.Valid() && failCount.Length == MAX_NODES
    }

    ghost function Value(): (w: Watch)
      requires Valid()
      reads this, u, u.nodes, failCount
      ensures WatchValid(w)
    {
      Watch(u.Value(), failCount[..])
    }

    constructor (u: Upstream, failThreshold: int)
      requires u.Valid()
      ensures Valid() && this.u == u && this.failThreshold == failThreshold && fresh(failCount)
      ensures Value() == Watch(u.Value(), seq(MAX_NODES, i => 0))
    {
      this.u, this.failThreshold := u, failThreshold;
      failCount := new int[MAX_NODES](_ => 0);
    }

    method Record(i: nat, ok: bool)
      requires Valid() && i < u.nodeCount
      modifies failCount, u.nodes
      ensures Valid()
      ensures Value() == AfterProbe(failThreshold, old(Value()), i, ok)
    {
      if ok {
        failCount[i] := 0;
        u.nodes[i] := u.nodes[i].(healthy := true);
      } else {
        failCount[i] := failCount[i] + 1;
        if failCount[i] >= failThreshold {
          u.nodes[i] := u.nodes[i].(healthy := false);
        }
      }
      ghost var was := old(Value());
      assert u.nodes[..u.nodeCount] == was.b.nodes[i := u.nodes[i]];
      assert failCount[..] == was.fails[i := failCount[i]];
    }

    /** One pass of the checker thread; oks are the outcomes of the probes. */
    method Round(oks: seq<bool>)
      requires Valid() && |oks| == u.nodeCount
      modifies failCount, u.nodes
      ensures Valid()
      ensures Value() == AfterRound(failThreshold, old(Value()), oks, |oks|)
    {
      for i := 0 to u.nodeCount
        invariant Valid()
        invariant Value() == AfterRound(failThreshold, old(Value()), oks, i)
      {
        Record(i, oks[i]);
      }
    }
  }

  /** The count each node has reached, and what it says about the node's health. */
  ghost predicate Truthful(threshold: int, w: Watch, es: seq<Event>)
    requires WatchValid(w)
  {
    && (forall i: nat | i < |w.b.nodes| ::
          && w.fails[i] == TrailingFailures(es, i)
          && (w.b.nodes[i].healthy <==> w.fails[i] < if threshold > 1 then threshold else 1))
    && (forall i: nat | |w.b.nodes| <= i < MAX_NODES :: w.fails[i] == 0 == TrailingFailures(es, i))
  }

  lemma PickKeepsHealth(ns: seq<Node>, i: nat)
    requires i < |ns|
    ensures AfterPick(ns)[i].healthy == ns[i].healthy
  {
  }

  lemma OneMoreEvent(past: seq<Event>, e: Event, i: nat)
    ensures TrailingFailures(past + [e], i)
         == if e.Probed? && e.node == i then (if e.ok then 0 else TrailingFailures(past, i) + 1)
            else TrailingFailures(past, i)
  {
    assert (past + [e])[..|past|] == past;
  }

  lemma StepStaysTruthful(threshold: int, w: Watch, past: seq<Event>, e: Event)
    requires WatchValid(w) && Truthful(threshold, w, past)
    requires e.Probed? ==> e.node < |w.b.nodes|
    ensures Truthful(threshold, After(threshold, w, e), past + [e])
  {
    hide AfterPick, GcdWeight, MaxWeight, TrailingFailures;
    var r := After(threshold, w, e);
    forall i: nat | i < MAX_NODES
      ensures r.fails[i] == TrailingFailures(past + [e], i)
      ensures i >= |r.b.nodes| ==> r.fails[i] == 0
      ensures i < |r.b.nodes| ==> (r.b.nodes[i].healthy <==> r.fails[i] < if threshold > 1 then threshold else 1)
    {
      OneMoreEvent(past, e, i);
      if e.Picked? && i < |w.b.nodes| {
        PickKeepsHealth(w.b.nodes, i);
      }
    }
  }

  /**
   In every history of probes, additions and picks a node's count is its trailing run of failed probes,
   and it is healthy exactly while that run is shorter than the threshold (a threshold below 1 acts as 1).
   */
  lemma {:induction false} HealthIsHysteresis(threshold: int, es: seq<Event>)
    requires Possible(threshold, es)
    ensures Truthful(threshold, WatchRun(threshold, es), es)
  {
    if |es| > 0 {
      var past, e := es[..|es| - 1], es[|es| - 1];
      forall k | 0 <= k < |past| && past[k].Probed?
        ensures past[k].node < |WatchRun(threshold, past[..k]).b.nodes|
      {
        assert past[..k] == es[..k];
      }
      HealthIsHysteresis(threshold, past);
      assert es == past + [e];
      StepStaysTruthful(threshold, WatchRun(threshold, past), past, e);
    }
  }

  // ----- A whole pass -----

  /** The probes of one pass as events, in node order. */
  function Probes(oks: seq<bool>): (es: seq<Event>) {
    seq(|oks|, i requires 0 <= i < |oks| => Probed(i, oks[i]))
  }

  lemma {:induction false} PassSoFar(threshold: int, es: seq<Event>, oks: seq<bool>, n: nat)
    requires n <= |WatchRun(threshold, es).b.nodes| && n <= |oks|
    ensures AfterRound(threshold, WatchRun(threshold, es), oks, n) == WatchRun(threshold, es + Probes(oks)[..n])
  {
    hide AfterProbe;
    if n == 0 {
      assert es + Probes(oks)[..0] == es;
    } else {
      PassSoFar(threshold, es, oks, n - 1);
      var past := es + Probes(oks)[..n - 1];
      assert es + Probes(oks)[..n] == past + [Probed(n - 1, oks[n - 1])];
      assert (past + [Probed(n - 1, oks[n - 1])])[..|past|] == past;
    }
  }

  /** After any history, one pass of the checker is the history that goes on with one probe of each node. */
  lemma RoundIsProbes(threshold: int, es: seq<Event>, oks: seq<bool>)
    requires |oks| == |WatchRun(threshold, es).b.nodes|
    ensures AfterRound(threshold, WatchRun(threshold, es), oks, |oks|) == WatchRun(threshold, es + Probes(oks))
  {
    PassSoFar(threshold, es, oks, |oks|);
    assert Probes(oks)[..|oks|] == Probes(oks);
  }

  /**
   Node by node, from any state: a node that answered is healthy with no failures, one that did not has one failure
   more and becomes unhealthy from the threshold on; nodes that were not reached, and all else, stay as they are.
   */
  lemma {:induction false} RoundNodeByNode(threshold: int, w: Watch, oks: seq<bool>, n: nat, i: nat)
    requires WatchValid(w) && n <= |w.b.nodes| && n <= |oks| && i < MAX_NODES
    ensures var r := AfterRound(threshold, w, oks, n);
      && r.b.maxWeight == w.b.maxWeight && r.b.gcdWeight == w.b.gcdWeight
      && (i < n && oks[i] ==> r.fails[i] == 0 && r.b.nodes[i] == w.b.nodes[i].(healthy := true))
      && (i < n && !oks[i] ==>
            && r.fails[i] == w.fails[i] + 1
            && r.b.nodes[i] == w.b.nodes[i].(healthy := w.b.nodes[i].healthy && w.fails[i] + 1 < threshold))
      && (i >= n ==> r.fails[i] == w.fails[i] && (i < |w.b.nodes| ==> r.b.nodes[i] == w.b.nodes[i]))
  {
    if n > 0 {
      RoundNodeByNode(threshold, w, oks, n - 1, i);
    }
  }

  /** A pick returns a node whose failure run is below the threshold, and null exactly when there is none. */
  lemma PickObeysProbes(threshold: int, es: seq<Event>)
    requires Possible(threshold, es)
    ensures var ns := WatchRun(threshold, es).b.nodes;
      var limit := if threshold > 1 then threshold else 1;
      && (PickIndex(ns) >= 0 ==> TrailingFailures(es, PickIndex(ns)) < limit)
      && (PickIndex(ns) == -1 <==> forall i: nat | i < |ns| :: TrailingFailures(es, i) >= limit)
      && (PickIndex(ns) == -1 ==> AfterPick(ns) == ns)
  {
    var ns := WatchRun(threshold, es).b.nodes;
    HealthIsHysteresis(threshold, es);
    if HealthyTotal(ns) == 0 {
      NoneHealthy(ns);
    } else {
      SomeHealthy(ns);
    }
  }
}
