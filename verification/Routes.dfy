/** Which requests end how, and how many of them the balancer is asked for. */
module Routes {
  import opened Bytes
  import P = HttpParser
  import opened HttpSerialize
  import RL = RateLimit
  import U = Upstream
  import F = Fairness
  import Relay
  import W = Worker
  import opened Dispatch

  /** The path starts with "/static/". */
  predicate IsStatic(path: Bytes) {
    |path| >= 8 && path[..8] == [0x2f, 0x73, 0x74, 0x61, 0x74, 0x69, 0x63, 0x2f]
  }

  /** A complete request that is not blacklisted, with a token for it, and not for a static file. */
  ghost predicate WantsNode(w: Gate, a: Arrival) {
    && a.bytes != [] && P.Feed(P.INIT, a.bytes).0.state == P.DONE && !a.blocked
    && RL.Check(w.limiter, a.call).1 && !IsStatic(P.Feed(P.INIT, a.bytes).0.path)
  }

  lemma StaticIs(path: Bytes)
    ensures STATIC <= CStr(path) <==> IsStatic(path)
  {
    hide CStr;
    var c := CStr(path);
    assert |STATIC| == 8;
    if STATIC <= c {
      assert c[..8] == STATIC && path[..8] == c[..8];
    }
    if IsStatic(path) {
      StaticIsKept(path);
    }
  }

  lemma StaticIsKept(path: Bytes)
    requires |path| >= 8 && path[..8] == STATIC
    ensures STATIC <= CStr(path)
  {
    forall k | 0 <= k < 8 ensures path[k] != NUL {
      assert path[k] == path[..8][k] == STATIC[k];
    }
  }

  /** Each way a request may end, and exactly when it ends so. */
  lemma OutcomeIff(w: Gate, a: Arrival)
    requires U.Weighted(w.balancer.nodes)
    ensures var r, state := Route(w, a).1, P.Feed(P.INIT, a.bytes).0.state;
      var goesOn := WantsNode(w, a) && U.PickIndex(w.balancer.nodes) >= 0;
      var text := Print(Relay.Forwarded(P.Feed(P.INIT, a.bytes).0, a.gateway));
      && (r == W.ReadFailed <==> a.bytes == [])
      && (r == W.NotDone <==> a.bytes != [] && state != P.DONE)
      && (r == W.Blocked <==> a.bytes != [] && state == P.DONE && a.blocked)
      && (r == W.OverRate <==>
            a.bytes != [] && state == P.DONE && !a.blocked && !RL.Check(w.limiter, a.call).1)
      && (r == W.StaticFile <==>
            && a.bytes != [] && state == P.DONE && !a.blocked && RL.Check(w.limiter, a.call).1
            && IsStatic(P.Feed(P.INIT, a.bytes).0.path))
      && (r == W.NoNode <==> WantsNode(w, a) && U.PickIndex(w.balancer.nodes) == -1)
      && (r == W.TooLong <==> goesOn && |text| >= 4096)
      && (r == W.NoConnection <==> goesOn && |text| < 4096 && a.ufd < 0)
      && (r.Connected? <==> goesOn && |text| < 4096 && a.ufd >= 0)
      && (r.Connected? ==> r.ufd == a.ufd)
  {
    hide P.Feed, Print, RL.Check, U.Apply, U.PickIndex, CStr, Relay.Forwarded, IsStatic;
    StaticIs(P.Feed(P.INIT, a.bytes).0.path);
  }

  /** What a request changes besides its own connection: a token if it gets as far, and a pick if it wants a node. */
  lemma ChangesIff(w: Gate, a: Arrival)
    requires U.Weighted(w.balancer.nodes)
    ensures var g := Route(w, a).0;
      && g.balancer == (if WantsNode(w, a) then U.Apply(w.balancer, U.Pick) else w.balancer)
      && g.limiter ==
        if a.bytes != [] && P.Feed(P.INIT, a.bytes).0.state == P.DONE && !a.blocked then RL.Check(w.limiter, a.call).0
        else w.limiter
  {
    hide P.Feed, Print, RL.Check, U.Apply, U.PickIndex, CStr, Relay.Forwarded, IsStatic;
    StaticIs(P.Feed(P.INIT, a.bytes).0.path);
  }

  /** How many of these requests want a node. */
  ghost function Wanting(w: Gate, arrivals: seq<Arrival>): nat
    requires U.Weighted(w.balancer.nodes)
  {
    if |arrivals| == 0 then 0
    else
      var n := |arrivals| - 1;
      Wanting(w, arrivals[..n]) + if WantsNode(Gates(w, arrivals[..n]), arrivals[n]) then 1 else 0
  }

  lemma OnePickMore(ns: seq<U.Node>, k: nat, b: U.Balancer)
    requires U.Weighted(b.nodes) && b.nodes == F.PickMany(ns, k)
    ensures U.Apply(b, U.Pick).nodes == F.PickMany(ns, k + 1)
  {
    hide U.AfterPick, U.GcdWeight, U.MaxWeight;
  }

  /** Over any arrivals the balancer is picked from once for each request that wants a node, and not otherwise. */
  lemma {:induction false} BalancerSeesPicks(w: Gate, arrivals: seq<Arrival>)
    requires U.Weighted(w.balancer.nodes)
    ensures Gates(w, arrivals).balancer.nodes == F.PickMany(w.balancer.nodes, Wanting(w, arrivals))
  {
    hide Route, WantsNode, U.AfterPick, U.Apply, U.Weighted, F.PickMany;
    if |arrivals| == 0 {
      NoPicks(w.balancer.nodes);
    } else {
      var n := |arrivals| - 1;
      BalancerSeesPicks(w, arrivals[..n]);
      ChangesIff(Gates(w, arrivals[..n]), arrivals[n]);
      OnePickMore(w.balancer.nodes, Wanting(w, arrivals[..n]), Gates(w, arrivals[..n]).balancer);
    }
  }

  lemma NoPicks(ns: seq<U.Node>)
    ensures F.PickMany(ns, 0) == ns
  {
  }
}
