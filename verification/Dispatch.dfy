/** What the worker does with the first bytes a client sends: parse, check, route, rewrite, print. */
module Dispatch {
  import opened Bytes
  import opened HeaderTable
  import P = HttpParser
  import opened HttpRequest
  import opened HttpSerialize
  import RL = RateLimit
  import U = Upstream
  import RT = RoundTrip
  import AP = AsPrinted
  import opened Rewrite
  import opened HeaderSets
  import Relay
  import W = Worker

  const BUFFER_SIZE: nat := 4096

  // "/static/"
  const STATIC: Bytes := [0x2f, 0x73, 0x74, 0x61, 0x74, 0x69, 0x63, 0x2f]

  /** What a request may change besides its own connection. */
  datatype Gate = Gate(limiter: RL.Limiter, balancer: U.Balancer)

  /**
   The bytes of one read (none if it failed), the verdict of the blacklist, the limiter's call, what the rewrite
   brings along, and the upstream socket, negative if it could not be made.
   */
  datatype Arrival = Arrival(bytes: Bytes, blocked: bool, call: RL.Call, gateway: Gateway, ufd: int)

  function Parsed(a: Arrival): P.Request {
    P.Feed(P.INIT, a.bytes).0
  }

  function Outgoing(a: Arrival): Bytes {
    Print(Relay.Forwarded(Parsed(a), a.gateway))
  }

  function Route(w: Gate, a: Arrival): (r: (Gate, W.Routing))
    requires U.Weighted(w.balancer.nodes)
    ensures U.Weighted(r.0.balancer.nodes)
  {
    if a.bytes == [] then (w, W.ReadFailed)
    else if Parsed(a).state != P.DONE then (w, W.NotDone)
    else if a.blocked then (w, W.Blocked)
    else
      var (limiter, ok) := RL.Check(w.limiter, a.call);
      var w1 := w.(limiter := limiter);
      if !ok then (w1, W.OverRate)
      else if STATIC <= CStr(Parsed(a).path) then (w1, W.StaticFile)
      else
        var w2 := w1.(balancer := U.Apply(w.balancer, U.Pick));
        if U.PickIndex(w.balancer.nodes) == -1 then (w2, W.NoNode)
        else if |Outgoing(a)| >= BUFFER_SIZE then (w2, W.TooLong)
        else if a.ufd < 0 then (w2, W.NoConnection)
        else (w2, W.Connected(a.ufd))
  }

  /** The program's version: the request is parsed, rewritten and printed in place; `out` is the connection's buffer. */
  method HandleRequest(limiter: RL.RateLimiter, upstream: U.Upstream, a: Arrival, now: nat, random: nat,
                       out: array<Byte>)
    returns (routing: W.Routing, len: nat)
    requires limiter.Valid() && upstream.Valid() && out.Length == BUFFER_SIZE && random < 0x1_0000_0000
    requires a.gateway.reqId == IdString(now, random)
    modifies limiter, limiter.entries, upstream, upstream.nodes, out
    ensures limiter.Valid() && upstream.Valid()
    ensures (Gate(limiter.Value(), upstream.Value()), routing) == Route(old(Gate(limiter.Value(), upstream.Value())), a)
    ensures routing.Connected? ==> len < out.Length && out[..len] == Outgoing(a)
  {
    hide RL.Check, U.Apply, P.Feed, Rewritten, Print, CStr, U.Weighted, Tagged, IdString;
    len := 0;
    if a.bytes == [] {
      return W.ReadFailed, 0;
    }
    var req := new HttpReq();
    var used := req.Feed(a.bytes);
    if req.state != P.DONE {
      return W.NotDone, 0;
    }
    if a.blocked {
      return W.Blocked, 0;
    }
    var ok := limiter.CheckIp(a.call.ip, a.call.created, a.call.now);
    if !ok {
      return W.OverRate, 0;
    }
    if STATIC <= CStr(req.path) {
      return W.StaticFile, 0;
    }
    var node := upstream.PickNode();
    if node == -1 {
      return W.NoNode, 0;
    }
    RewriteRequest(req, a.gateway.clientIp, a.gateway.version, a.gateway.custom, now, random);
    var n := Serialize(req, out);
    if n < 0 {
      return W.TooLong, 0;
    }
    if a.ufd < 0 {
      return W.NoConnection, 0;
    }
    return W.Connected(a.ufd), n;
  }

  // ----- What reaches the upstream -----

  /**
   A forwarded request fits the buffer, and the upstream reads it back as it is shown if and only if that is well
   formed and its lines fit the line buffer. Then it is complete for the upstream exactly when its headers announce no
   body: the gateway has seen the announced bytes, but does not print them, and the upstream waits for just as many.
   */
  lemma ForwardedIsReadable(w: Gate, a: Arrival)
    requires U.Weighted(w.balancer.nodes) && Route(w, a).1.Connected?
    ensures |Outgoing(a)| < 4096
    ensures P.Feed(P.INIT, Outgoing(a)) == (RT.Received(Relay.Arriving(a.bytes, a.gateway)), |Outgoing(a)|) <==>
      Relay.Readable(a.bytes, a.gateway)
    ensures Relay.Readable(a.bytes, a.gateway) ==>
      var q, (u, used) := Parsed(a), P.Feed(P.INIT, Outgoing(a));
      && used == |Outgoing(a)|
      && u.verb == q.verb && u.path == q.path && u.version == q.version
      && u.headers == AP.Seen(Rewritten(q.headers, a.gateway))
      && (u.state == P.DONE <==> Relay.Announced(u.headers) <= 0)
      && (u.state == P.BODY <==> Relay.Announced(u.headers) > 0)
      && u.bodyRemaining == Relay.Announced(u.headers)
  {
    hide RL.Check, U.Apply, P.Feed, Rewritten, Print, U.Weighted, Relay.Readable, RT.Received;
    hide Relay.Announced, Relay.Arriving, AP.Seen, OtherHash, Relay.Forwarded;
    ConnectedIsAccepted(w, a);
    OutgoingIs(a);
    Relay.ReadBackIff(a.bytes, a.gateway);
    if Relay.Readable(a.bytes, a.gateway) {
      Relay.ClientToUpstream(a.bytes, a.gateway);
    }
  }

  lemma ConnectedIsAccepted(w: Gate, a: Arrival)
    requires U.Weighted(w.balancer.nodes) && Route(w, a).1.Connected?
    ensures RT.Accepts(a.bytes) && |Outgoing(a)| < 4096
  {
    hide RL.Check, U.Apply, P.Feed, Rewritten, Print, U.Weighted;
  }

  lemma OutgoingIs(a: Arrival)
    ensures Outgoing(a) == Print(Relay.Forwarded(P.Feed(P.INIT, a.bytes).0, a.gateway))
    ensures Parsed(a) == P.Feed(P.INIT, a.bytes).0
  {
    hide P.Feed, Print, Rewritten;
  }

  // ----- Any number of requests -----

  function Gates(w: Gate, arrivals: seq<Arrival>): (r: Gate)
    requires U.Weighted(w.balancer.nodes)
    ensures U.Weighted(r.balancer.nodes)
  {
    if |arrivals| == 0 then w else Route(Gates(w, arrivals[..|arrivals| - 1]), arrivals[|arrivals| - 1]).0
  }

  /** The request gets as far as the limiter. */
  predicate Reaches(a: Arrival) {
    a.bytes != [] && Parsed(a).state == P.DONE && !a.blocked
  }

  function CallsOf(arrivals: seq<Arrival>): (calls: seq<RL.Call>)
    ensures |calls| <= |arrivals|
  {
    if |arrivals| == 0 then []
    else
      var n := |arrivals| - 1;
      CallsOf(arrivals[..n]) + if Reaches(arrivals[n]) then [arrivals[n].call] else []
  }

  /** How many of the requests from j on came from ip and were passed to an upstream. */
  function PassedOn(w: Gate, arrivals: seq<Arrival>, ip: string, j: nat): nat
    requires U.Weighted(w.balancer.nodes) && j <= |arrivals|
  {
    var n := |arrivals| - 1;
    if j == |arrivals| then 0
    else
      PassedOn(w, arrivals[..n], ip, j)
      + if arrivals[n].call.ip == ip && Route(Gates(w, arrivals[..n]), arrivals[n]).1.Connected? then 1 else 0
  }

  lemma RouteSpends(w: Gate, a: Arrival)
    requires U.Weighted(w.balancer.nodes)
    ensures Route(w, a).0.limiter == if Reaches(a) then RL.Check(w.limiter, a.call).0 else w.limiter
    ensures Route(w, a).1.Connected? ==> Reaches(a) && RL.Check(w.limiter, a.call).1
  {
    hide RL.Check, U.Apply, P.Feed, Print, CStr, U.Weighted, U.PickIndex, Rewritten;
  }

  lemma StateAfter(rate: int, calls: seq<RL.Call>, c: RL.Call)
    ensures RL.State(rate, calls + [c]) == RL.Check(RL.State(rate, calls), c).0
    ensures RL.Verdicts(rate, calls + [c]) == RL.Verdicts(rate, calls) + [RL.Check(RL.State(rate, calls), c).1]
  {
    hide RL.Check;
    assert (calls + [c])[..|calls|] == calls;
  }

  /** The limiter sees exactly the calls that get as far as it. */
  lemma {:induction false} LimiterSeesCalls(w: Gate, arrivals: seq<Arrival>)
    requires U.Weighted(w.balancer.nodes) && w.limiter.entries == []
    ensures Gates(w, arrivals).limiter == RL.State(w.limiter.rate, CallsOf(arrivals))
  {
    hide RL.Check, U.Weighted, Reaches, Route;
    if |arrivals| > 0 {
      var n := |arrivals| - 1;
      LimiterSeesCalls(w, arrivals[..n]);
      RouteSpends(Gates(w, arrivals[..n]), arrivals[n]);
      StateAfter(w.limiter.rate, CallsOf(arrivals[..n]), arrivals[n].call);
      assert CallsOf(arrivals[..n]) + [] == CallsOf(arrivals[..n]);
    }
  }

  lemma {:induction false} AdmittedPrefix(calls: seq<RL.Call>, c: RL.Call, v: seq<bool>, x: bool, ip: string,
                                          j: nat, m: nat)
    requires j <= m <= |calls| == |v|
    ensures RL.Admitted(calls + [c], v + [x], ip, j, m) == RL.Admitted(calls, v, ip, j, m)
  {
    if j < m {
      AdmittedPrefix(calls, c, v, x, ip, j, m - 1);
    }
  }

  lemma {:induction false} PassedOnIsAdmitted(w: Gate, arrivals: seq<Arrival>, ip: string, j: nat)
    requires U.Weighted(w.balancer.nodes) && w.limiter.entries == [] && j <= |arrivals|
    ensures var calls, v := CallsOf(arrivals), RL.Verdicts(w.limiter.rate, CallsOf(arrivals));
      && |CallsOf(arrivals[..j])| <= |calls|
      && PassedOn(w, arrivals, ip, j) <= RL.Admitted(calls, v, ip, |CallsOf(arrivals[..j])|, |calls|)
  {
    hide RL.Check, U.Weighted, Reaches, Route, Gates, RL.State, RL.Verdicts;
    if j == |arrivals| {
      assert arrivals[..j] == arrivals;
    } else {
      var n, rate := |arrivals| - 1, w.limiter.rate;
      var a, calls := arrivals[n], CallsOf(arrivals[..n]);
      var v := RL.Verdicts(rate, calls);
      PassedOnIsAdmitted(w, arrivals[..n], ip, j);
      assert arrivals[..n][..j] == arrivals[..j];
      RouteSpends(Gates(w, arrivals[..n]), a);
      LimiterSeesCalls(w, arrivals[..n]);
      var x := RL.Check(RL.State(rate, calls), a.call).1;
      StateAfter(rate, calls, a.call);
      AdmittedPrefix(calls, a.call, v, x, ip, |CallsOf(arrivals[..j])|, |calls|);
      assert calls + [] == calls;
    }
  }

  lemma {:induction false} CallAt(arrivals: seq<Arrival>, j: nat)
    requires j < |arrivals| && Reaches(arrivals[j])
    ensures var c := |CallsOf(arrivals[..j])|; c < |CallsOf(arrivals)| && CallsOf(arrivals)[c] == arrivals[j].call
  {
    hide Reaches;
    var n := |arrivals| - 1;
    if j < n {
      CallAt(arrivals[..n], j);
      assert arrivals[..n][..j] == arrivals[..j];
    }
  }

  ghost predicate Watched(w: Gate, arrivals: seq<Arrival>, ip: string) {
    && U.Weighted(w.balancer.nodes) && w.limiter.entries == [] && w.limiter.rate >= 0
    && RL.Clock(CallsOf(arrivals)) && RL.Own(CallsOf(arrivals), ip)
    && forall k: nat | k < |CallsOf(arrivals)| && CallsOf(arrivals)[k].ip == ip ::
      RL.Held(w.limiter.rate, CallsOf(arrivals), k)
  }

  /**
   One worker, and an address its table holds: from any request of the address on until time t, the worker passes on
   no more of them than a full bucket and the refill since.
   */
  lemma OneWorkerWithinAllowance(w: Gate, arrivals: seq<Arrival>, ip: string, j: nat, t: int)
    requires Watched(w, arrivals, ip)
    requires j < |arrivals| && Reaches(arrivals[j]) && arrivals[j].call.ip == ip
    requires forall k | 0 <= k < |CallsOf(arrivals)| :: CallsOf(arrivals)[k].now <= t
    ensures 1000 * PassedOn(w, arrivals, ip, j)
         <= 1000 * w.limiter.rate + w.limiter.rate * (t - arrivals[j].call.now)
  {
    hide U.Weighted, Reaches, Gates, PassedOn, CallsOf;
    hide RL.State, RL.Verdicts, RL.Admitted, RL.Held, RL.Own, RL.Clock, RL.Conforms;
    var rate, calls := w.limiter.rate, CallsOf(arrivals);
    var c := |CallsOf(arrivals[..j])|;
    CallAt(arrivals, j);
    PassedOnIsAdmitted(w, arrivals, ip, j);
    RL.LimiterIsBest(rate, calls, ip);
    RL.WindowBound(rate, calls, RL.Verdicts(rate, calls), ip, c, |calls|, t);
  }

  // ----- Several workers -----

  /** A request of this address that gets as far as the limiter. */
  predicate Counts(a: Arrival, ip: string) {
    Reaches(a) && a.call.ip == ip
  }

  lemma {:induction false} NothingPassedOn(w: Gate, arrivals: seq<Arrival>, ip: string, j: nat)
    requires U.Weighted(w.balancer.nodes) && j <= |arrivals|
    requires forall k | j <= k < |arrivals| :: !Counts(arrivals[k], ip)
    ensures PassedOn(w, arrivals, ip, j) == 0
  {
    hide U.Weighted, Reaches, Gates, Route, RL.Check;
    if j < |arrivals| {
      var n := |arrivals| - 1;
      NothingPassedOn(w, arrivals[..n], ip, j);
      RouteSpends(Gates(w, arrivals[..n]), arrivals[n]);
    }
  }

  lemma {:induction false} PassedOnLater(w: Gate, arrivals: seq<Arrival>, ip: string, i: nat, j: nat)
    requires U.Weighted(w.balancer.nodes) && i <= j <= |arrivals|
    requires forall k | i <= k < j :: !Counts(arrivals[k], ip)
    ensures PassedOn(w, arrivals, ip, i) == PassedOn(w, arrivals, ip, j)
  {
    hide U.Weighted, Counts, Gates, Route;
    if j == |arrivals| {
      NothingPassedOn(w, arrivals, ip, i);
    } else {
      PassedOnLater(w, arrivals[..|arrivals| - 1], ip, i, j);
    }
  }

  lemma FirstCounting(arrivals: seq<Arrival>, ip: string, i: nat) returns (j: nat)
    requires i <= |arrivals|
    ensures i <= j <= |arrivals| && forall k | i <= k < j :: !Counts(arrivals[k], ip)
    ensures j < |arrivals| ==> Counts(arrivals[j], ip)
  {
    hide Counts;
    j := i;
    while j < |arrivals| && !Counts(arrivals[j], ip)
      invariant i <= j <= |arrivals| && forall k | i <= k < j :: !Counts(arrivals[k], ip)
    {
      j := j + 1;
    }
  }

  /** One worker's part: its fresh state when it was forked, what it got since, and the first of that in the window. */
  datatype Share = Share(gate: Gate, arrivals: seq<Arrival>, from: nat)

  /** The worker watches the address at this rate, and its requests from `from` on lie between start and t. */
  ghost predicate ShareIn(x: Share, ip: string, rate: int, start: int, t: int) {
    && Watched(x.gate, x.arrivals, ip) && x.gate.limiter.rate == rate && x.from <= |x.arrivals|
    && (forall k | x.from <= k < |x.arrivals| && Counts(x.arrivals[k], ip) :: start <= x.arrivals[k].call.now)
    && (forall k | 0 <= k < |CallsOf(x.arrivals)| :: CallsOf(x.arrivals)[k].now <= t)
  }

  lemma ShareWithinAllowance(x: Share, ip: string, rate: int, start: int, t: int)
    requires ShareIn(x, ip, rate, start, t) && start <= t && rate >= 0
    ensures 1000 * PassedOn(x.gate, x.arrivals, ip, x.from) <= 1000 * rate + rate * (t - start)
  {
    hide U.Weighted, Reaches, Gates, PassedOn, CallsOf, Route;
    hide RL.Held, RL.Own, RL.Clock;
    var j := FirstCounting(x.arrivals, ip, x.from);
    PassedOnLater(x.gate, x.arrivals, ip, x.from, j);
    RL.MoreTime(rate, start, start, t);
    if j < |x.arrivals| {
      OneWorkerWithinAllowance(x.gate, x.arrivals, ip, j, t);
      CallAt(x.arrivals, j);
      RL.LessTime(rate, start, x.arrivals[j].call.now, t);
    } else {
      NothingPassedOn(x.gate, x.arrivals, ip, j);
    }
  }

  ghost predicate SharesIn(shares: seq<Share>, ip: string, rate: int, start: int, t: int) {
    forall i | 0 <= i < |shares| :: ShareIn(shares[i], ip, rate, start, t)
  }

  ghost function AllPassedOn(shares: seq<Share>, ip: string, rate: int, start: int, t: int): nat
    requires SharesIn(shares, ip, rate, start, t)
  {
    if |shares| == 0 then 0
    else
      var n := |shares| - 1;
      AllPassedOn(shares[..n], ip, rate, start, t)
      + PassedOn(shares[n].gate, shares[n].arrivals, ip, shares[n].from)
  }

  /**
   All workers together: each has a limiter of its own, and one that was forked in the window starts with full buckets.
   If n of them serve an address between start and t, and their tables hold it, the upstreams get from it at most n
   times what one worker lets through: n full buckets and n times the refill.
   */
  lemma {:induction false} ForwardedWithinAllowance(shares: seq<Share>, ip: string, rate: int, start: int, t: int)
    requires SharesIn(shares, ip, rate, start, t) && start <= t && rate >= 0
    ensures 1000 * AllPassedOn(shares, ip, rate, start, t) <= |shares| * (1000 * rate + rate * (t - start))
  {
    hide ShareIn, PassedOn;
    if |shares| > 0 {
      var n := |shares| - 1;
      ForwardedWithinAllowance(shares[..n], ip, rate, start, t);
      ShareWithinAllowance(shares[n], ip, rate, start, t);
      OneMore(n, 1000 * rate + rate * (t - start));
    }
  }

  lemma OneMore(n: nat, x: int)
    ensures (n + 1) * x == n * x + x
  {
  }
}
