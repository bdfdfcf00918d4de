/** Histories of probes, additions and picks: which nodes there are, and that the counters stay fair. */
module Probing {
  import opened Upstream
  import opened Fairness
  import opened Health

  function Additions(es: seq<Event>): nat {
    if |es| == 0 then 0 else Additions(es[..|es| - 1]) + if es[|es| - 1].Added? then 1 else 0
  }

  lemma {:induction false} NodesAdded(threshold: int, es: seq<Event>)
    ensures |WatchRun(threshold, es).b.nodes| == if Additions(es) < 16 then Additions(es) else 16
  {
    hide AfterPick, GcdWeight, MaxWeight;
    if |es| > 0 {
      NodesAdded(threshold, es[..|es| - 1]);
    }
  }

  ghost predicate IsAt(ns: seq<Node>, k: nat, host: string, port: int, weight: int) {
    k < |ns| && ns[k].host == host && ns[k].port == port && ns[k].weight == weight
  }

  lemma StaysAt(threshold: int, w: Watch, e: Event, k: nat, host: string, port: int, weight: int)
    requires WatchValid(w) && IsAt(w.b.nodes, k, host, port, weight)
    ensures IsAt(After(threshold, w, e).b.nodes, k, host, port, weight)
  {
    hide GcdWeight, MaxWeight;
    if e.Picked? {
      PickKeepsFleet(w.b.nodes);
    }
  }

  lemma ComesIn(threshold: int, w: Watch, e: Event)
    requires WatchValid(w) && e.Added? && |w.b.nodes| < 16
    ensures IsAt(After(threshold, w, e).b.nodes, |w.b.nodes|, if |e.host| < 64 then e.host else e.host[..63], e.port,
                 if e.weight > 0 then e.weight else 1)
  {
  }

  /** In every history each of the first sixteen additions makes the next node, which keeps host, port and weight. */
  lemma {:induction false} NodeAdded(threshold: int, es: seq<Event>, j: nat)
    requires j < |es| && es[j].Added? && Additions(es[..j]) < 16
    ensures IsAt(WatchRun(threshold, es).b.nodes, Additions(es[..j]),
                 if |es[j].host| < 64 then es[j].host else es[j].host[..63], es[j].port,
                 if es[j].weight > 0 then es[j].weight else 1)
  {
    hide IsAt, After;
    var n, e := |es| - 1, es[j];
    if j == n {
      NodesAdded(threshold, es[..j]);
      ComesIn(threshold, WatchRun(threshold, es[..j]), e);
    } else {
      assert es[..n][..j] == es[..j];
      NodeAdded(threshold, es[..n], j);
      StaysAt(threshold, WatchRun(threshold, es[..n]), es[n], Additions(es[..j]),
              if |e.host| < 64 then e.host else e.host[..63], e.port, if e.weight > 0 then e.weight else 1);
    }
  }

  /** A pick in a history is a pick on the nodes as the probes have left them, and counts no failures. */
  lemma PickInHistory(threshold: int, es: seq<Event>)
    ensures var w, r := WatchRun(threshold, es), WatchRun(threshold, es + [Picked]);
      r.b.nodes == AfterPick(w.b.nodes) && r.fails == w.fails
  {
    hide AfterPick, GcdWeight, MaxWeight;
    assert (es + [Picked])[..|es|] == es;
  }

  /** Whatever the probes say, in any order with additions and picks, the counters stay fair. */
  lemma {:induction false} HistoryStaysFair(threshold: int, es: seq<Event>)
    ensures Fair(WatchRun(threshold, es).b.nodes)
  {
    hide After, Fair;
    if |es| == 0 {
      RunsStayFair([]);
    } else {
      HistoryStaysFair(threshold, es[..|es| - 1]);
      StepStaysFair(threshold, WatchRun(threshold, es[..|es| - 1]), es[|es| - 1]);
    }
  }

  lemma StepStaysFair(threshold: int, w: Watch, e: Event)
    requires WatchValid(w) && Fair(w.b.nodes)
    ensures Fair(After(threshold, w, e).b.nodes)
  {
    hide AfterPick, GcdWeight, MaxWeight, Fair;
    match e
    case Probed(i, ok) => MarkStaysFair(w.b.nodes, After(threshold, w, e).b.nodes);
    case Added(host, port, weight) =>
      AddStaysFair(w.b.nodes, Node(StoredHost(host), port, if weight > 0 then weight else 1, true, 0));
    case Picked => PickStaysFair(w.b.nodes);
  }

  /** So the counters are bounded, and they add up to 0, however the nodes come and go. */
  lemma CountersBoundedUnderProbes(threshold: int, es: seq<Event>, i: nat)
    requires i < |WatchRun(threshold, es).b.nodes|
    ensures var ns := WatchRun(threshold, es).b.nodes;
      -((|ns| - 1) * TotalWeight(ns)) <= ns[i].activeConns <= (|ns| - 1) * TotalWeight(ns)
  {
    hide Fair, WatchRun;
    HistoryStaysFair(threshold, es);
    FairCounterBound(WatchRun(threshold, es).b.nodes, i);
  }
}
