/** What holds of a worker after any events whatsoever. */
module Pool {
  import opened Worker

  predicate Occupied(c: Slot) {
    c.fd != 0
  }

  function Count(pool: seq<Slot>): nat {
    if |pool| == 0 then 0
    else Count(pool[..|pool| - 1]) + if Occupied(pool[|pool| - 1]) then 1 else 0
  }

  /** The kernel hands out only descriptors that are not open. */
  ghost predicate Fresh(w: World, fd: int) {
    fd >= 0 && fd !in w.open
  }

  /** What may happen next. Every event comes with a possible outcome; stale events are among them. */
  ghost predicate Possible(w: World, e: Event) {
    match e
    case Accept(_, _, cfd) => cfd == -1 || Fresh(w, cfd)
    case Ready(fd, _, _, routing, _, _) => fd > 0 && (routing.Connected? ==> Fresh(w, routing.ufd))
  }

  ghost predicate PossibleRun(w: World, es: seq<Event>) {
    |es| == 0 || (PossibleRun(w, es[..|es| - 1]) && Possible(Run(w, es[..|es| - 1]), es[|es| - 1]))
  }

  ghost predicate PossibleRounds(w: World, rounds: seq<Round>)
    decreases |rounds|
  {
    |rounds| == 0 || (PossibleRun(w, rounds[0].events) && PossibleRounds(Run(w, rounds[0].events), rounds[1..]))
  }

  // ----- The invariant -----

  ghost predicate SlotValid(c: Slot) {
    && c.fd >= 0
    && (c.fd == 0 ==> c.upstreamFd <= 0)
    && (c.fd > 0 ==> c.state != IDLE)
    && (c.fd > 0 && c.state == READING_REQ ==> c.upstreamFd == -1)
    && (c.fd > 0 && c.state != READING_REQ ==> c.upstreamFd > 0 && c.upstreamFd != c.fd)
  }

  /** No descriptor is in two slots. */
  ghost predicate Exclusive(pool: seq<Slot>) {
    forall i, j, fd | 0 <= i < |pool| && 0 <= j < |pool| && fd > 0 && Has(pool[i], fd) && Has(pool[j], fd) :: i == j
  }

  ghost predicate Owned(pool: seq<Slot>, fd: int) {
    exists i | 0 <= i < |pool| :: Has(pool[i], fd)
  }

  /** Every open descriptor is accounted for once: open from the start, lost, or in a slot. */
  ghost predicate Accounted(w: World) {
    && w.base !! w.lost
    && forall fd | fd > 0 ::
      && (fd in w.open <==> fd in w.base || fd in w.lost || Owned(w.pool, fd))
      && (Owned(w.pool, fd) ==> fd !in w.base && fd !in w.lost)
  }

  ghost predicate Inv(w: World) {
    && (forall i | 0 <= i < |w.pool| :: SlotValid(w.pool[i]))
    && Exclusive(w.pool)
    && Accounted(w)
    && 0 in w.open && 0 in w.base
    && w.active == Count(w.pool) + w.hardErrors
  }

  lemma {:induction false} CountUpdate(pool: seq<Slot>, i: nat, c: Slot)
    requires i < |pool|
    ensures Count(pool[i := c]) == Count(pool) - (if Occupied(pool[i]) then 1 else 0) + (if Occupied(c) then 1 else 0)
  {
    var n := |pool| - 1;
    if i == n {
      assert pool[i := c][..n] == pool[..n];
    } else {
      assert pool[i := c][..n] == pool[..n][i := c];
      CountUpdate(pool[..n], i, c);
    }
  }

  lemma {:induction false} CountNone(pool: seq<Slot>)
    ensures Count(pool) == 0 <==> forall i | 0 <= i < |pool| :: !Occupied(pool[i])
  {
    if |pool| > 0 {
      CountNone(pool[..|pool| - 1]);
    }
  }

  lemma StartIsValid(mine: int, base: set<int>)
    requires 0 in base
    ensures Inv(Start(mine, base))
  {
    CountNone(Start(mine, base).pool);
  }

  /** Slot i gives up its descriptors, and they are closed. */
  lemma Release(w: World, i: nat, gone: set<int>, w': World)
    requires Inv(w) && i < |w.pool| && Occupied(w.pool[i])
    requires gone == Descriptors(w.pool[i])
    requires w'.pool == w.pool[i := Freed(w.pool[i])] && w'.open == w.open - gone
    requires w'.base == w.base && w'.lost == w.lost
    requires w'.active - w'.hardErrors == w.active - w.hardErrors - 1
    ensures Inv(w') && Count(w'.pool) == Count(w.pool) - 1
  {
    hide Count;
    CountUpdate(w.pool, i, Freed(w.pool[i]));
    assert Has(w.pool[i], w.pool[i].fd);
    forall fd | fd > 0
      ensures Owned(w'.pool, fd) <==> Owned(w.pool, fd) && fd !in gone
    {
      if Owned(w.pool, fd) && fd !in gone {
        var k :| 0 <= k < |w.pool| && Has(w.pool[k], fd);
        assert Has(w'.pool[k], fd);
      }
      if Owned(w'.pool, fd) {
        var k :| 0 <= k < |w'.pool| && Has(w'.pool[k], fd);
        assert k != i && Has(w.pool[k], fd);
      }
    }
  }

  /** Slot i takes one fresh descriptor more. */
  lemma Take(w: World, i: nat, c: Slot, fd: int, w': World)
    requires Inv(w) && i < |w.pool| && fd > 0 && fd !in w.open
    requires SlotValid(c) && forall f | f > 0 :: Has(c, f) <==> Has(w.pool[i], f) || f == fd
    requires w'.pool == w.pool[i := c] && w'.open == w.open + {fd}
    requires w'.base == w.base && w'.lost == w.lost
    requires w'.active - w'.hardErrors == w.active - w.hardErrors
      + (if Occupied(c) then 1 else 0) - (if Occupied(w.pool[i]) then 1 else 0)
    ensures Inv(w')
  {
    hide Count;
    CountUpdate(w.pool, i, c);
    forall f | f > 0
      ensures Owned(w'.pool, f) <==> Owned(w.pool, f) || f == fd
    {
      if Owned(w.pool, f) {
        var k :| 0 <= k < |w.pool| && Has(w.pool[k], f);
        assert Has(w'.pool[k], f);
      }
      if f == fd {
        assert Has(w'.pool[i], f);
      }
      if Owned(w'.pool, f) && f != fd {
        var k :| 0 <= k < |w'.pool| && Has(w'.pool[k], f);
        assert Has(w.pool[k], f);
      }
    }
    assert !Owned(w.pool, fd);
    TakeStaysExclusive(w.pool, i, c, fd);
  }

  lemma TakeStaysExclusive(pool: seq<Slot>, i: nat, c: Slot, fd: int)
    requires i < |pool| && Exclusive(pool) && !Owned(pool, fd)
    requires forall f | f > 0 :: Has(c, f) <==> Has(pool[i], f) || f == fd
    ensures Exclusive(pool[i := c])
  {
    var q := pool[i := c];
    forall j, k, f | 0 <= j < |q| && 0 <= k < |q| && f > 0 && Has(q[j], f) && Has(q[k], f) ensures j == k {
      if f != fd {
        assert Has(pool[j], f) && Has(pool[k], f);
      }
    }
  }

  lemma Relabel(w: World, i: nat, state: ConnState)
    requires Inv(w) && i < |w.pool| && Occupied(w.pool[i]) && w.pool[i].state != READING_REQ
    requires state != READING_REQ && state != IDLE
    ensures Inv(w.(pool := w.pool[i := w.pool[i].(state := state)]))
    ensures Count(w.pool[i := w.pool[i].(state := state)]) == Count(w.pool)
  {
    hide Count;
    var q := w.pool[i := w.pool[i].(state := state)];
    CountUpdate(w.pool, i, q[i]);
    forall f | f > 0 ensures Owned(q, f) <==> Owned(w.pool, f) {
      if Owned(w.pool, f) {
        var k :| 0 <= k < |q| && Has(w.pool[k], f);
        assert Has(q[k], f);
      }
      if Owned(q, f) {
        var k :| 0 <= k < |q| && Has(q[k], f);
        assert Has(w.pool[k], f);
      }
    }
  }

  lemma CloseKeepsInv(w: World, i: nat)
    requires Inv(w) && i < |w.pool| && Occupied(w.pool[i])
    ensures Inv(CloseConn(w, i)) && Count(CloseConn(w, i).pool) == Count(w.pool) - 1
  {
    Release(w, i, Descriptors(w.pool[i]), CloseConn(w, i));
  }

  /** Closing the upstream descriptor first, and then again with the connection, is closing it once. */
  lemma CloseTwice(w: World, i: nat)
    requires i < |w.pool| && w.pool[i].upstreamFd > 0
    ensures CloseConn(w.(open := w.open - {w.pool[i].upstreamFd}), i) == CloseConn(w, i)
  {
    assert w.open - {w.pool[i].upstreamFd} - Descriptors(w.pool[i]) == w.open - Descriptors(w.pool[i]);
  }

  lemma DropKeepsInv(w: World, i: nat)
    requires Inv(w) && i < |w.pool| && Occupied(w.pool[i]) && w.pool[i].state != READING_REQ
    ensures Inv(DropConn(w, i)) && Count(DropConn(w, i).pool) == Count(w.pool) - 1
  {
    assert {w.pool[i].upstreamFd, w.pool[i].fd} == Descriptors(w.pool[i]);
    Release(w, i, Descriptors(w.pool[i]), DropConn(w, i));
  }

  lemma AcceptKeepsInv(w: World, cfd: int)
    requires Inv(w) && Fresh(w, cfd)
    ensures Inv(AcceptConn(w, cfd))
  {
    var i, w' := FreeSlot(w.pool), AcceptConn(w, cfd);
    if i >= 0 {
      Take(w, i, Slot(cfd, READING_REQ, -1), cfd, w');
    }
  }

  lemma ReadKeepsInv(w: World, i: nat, routing: Routing)
    requires Inv(w) && i < |w.pool| && Occupied(w.pool[i]) && w.pool[i].state == READING_REQ
    requires routing.Connected? ==> Fresh(w, routing.ufd)
    ensures Inv(ClientRead(w, i, routing)) && Count(ClientRead(w, i, routing).pool) <= Count(w.pool)
  {
    hide Inv, Count;
    if routing.Connected? {
      ConnectKeepsInv(w, i, routing.ufd);
    } else {
      CloseKeepsInv(w, i);
    }
  }

  lemma ConnectKeepsInv(w: World, i: nat, ufd: int)
    requires Inv(w) && i < |w.pool| && Occupied(w.pool[i]) && w.pool[i].state == READING_REQ
    requires Fresh(w, ufd)
    ensures Inv(ClientRead(w, i, Connected(ufd))) && Count(ClientRead(w, i, Connected(ufd)).pool) == Count(w.pool)
  {
    var c := w.pool[i].(upstreamFd := ufd, state := CONNECTING_UPSTREAM);
    OpenIfOwned(w, i, w.pool[i].fd);
    CountUpdate(w.pool, i, c);
    Take(w, i, c, ufd, ClientRead(w, i, Connected(ufd)));
  }

  lemma OpenIfOwned(w: World, i: nat, fd: int)
    requires Inv(w) && i < |w.pool| && fd > 0 && Has(w.pool[i], fd)
    ensures fd in w.open && fd !in w.base && fd !in w.lost && Occupied(w.pool[i])
  {
    assert Owned(w.pool, fd);
  }

  /** Every step keeps the invariant, and only an accept outside draining can fill another slot. */
  lemma StepKeepsInv(w: World, e: Event)
    requires Inv(w) && Possible(w, e)
    ensures Inv(Step(w, e))
    ensures e.Ready? || ShouldDrain(e.shutting, e.generation, w.mine) ==> Count(Step(w, e).pool) <= Count(w.pool)
    ensures Step(w, e).base == w.base && Step(w, e).mine == w.mine && |Step(w, e).pool| == |w.pool|
    ensures Step(w, e).hardErrors >= w.hardErrors
  {
    hide Count, Accounted, Exclusive;
    match e
    case Accept(shutting, generation, cfd) =>
      if !ShouldDrain(shutting, generation, w.mine) && cfd >= 0 {
        AcceptKeepsInv(w, cfd);
      }
    case Ready(fd, readable, writable, routing, writing, reply) =>
      var i := Owner(w.pool, fd);
      if i >= 0 {
        OpenIfOwned(w, i, fd);
        var c := w.pool[i];
        if c.state == READING_REQ && readable {
          ReadKeepsInv(w, i, routing);
        } else if c.state == CONNECTING_UPSTREAM && (writable || readable) {
          Relabel(w, i, READING_UPSTREAM);
          CloseTwice(w, i);
          CloseKeepsInv(w, i);
        } else if c.state == READING_UPSTREAM && readable {
          CloseTwice(w, i);
          CloseKeepsInv(w, i);
          DropKeepsInv(w, i);
        }
      }
  }

  lemma {:induction false} RunKeepsInv(w: World, es: seq<Event>)
    requires Inv(w) && PossibleRun(w, es)
    ensures Inv(Run(w, es)) && Run(w, es).base == w.base && Run(w, es).mine == w.mine
    ensures |Run(w, es).pool| == |w.pool| && Run(w, es).hardErrors >= w.hardErrors
  {
    hide Inv, Step, Possible;
    if |es| > 0 {
      RunKeepsInv(w, es[..|es| - 1]);
      StepKeepsInv(Run(w, es[..|es| - 1]), es[|es| - 1]);
    }
  }

  // ----- Theorems about every run -----

  /** The counter is the number of connections held, plus every hard read error there ever was. */
  lemma ActiveIsHeldPlusHardErrors(mine: int, base: set<int>, es: seq<Event>)
    requires 0 in base && PossibleRun(Start(mine, base), es)
    ensures var w := Run(Start(mine, base), es); w.active == Count(w.pool) + w.hardErrors
    ensures var w := Run(Start(mine, base), es);
      w.active == 0 <==> w.hardErrors == 0 && forall i | 0 <= i < |w.pool| :: w.pool[i].fd == 0
  {
    hide Run, Count, PossibleRun, Start, Accounted, Exclusive;
    StartIsValid(mine, base);
    RunKeepsInv(Start(mine, base), es);
    CountNone(Run(Start(mine, base), es).pool);
  }

  /** The slot a lookup returns is the only one with that descriptor, so events reach the connection they are for. */
  lemma OwnerIsUnique(mine: int, base: set<int>, es: seq<Event>, fd: int, i: nat)
    requires 0 in base && PossibleRun(Start(mine, base), es) && fd > 0
    ensures var w := Run(Start(mine, base), es);
      i < |w.pool| ==> (Has(w.pool[i], fd) <==> Owner(w.pool, fd) == i)
    ensures var w := Run(Start(mine, base), es);
      i < |w.pool| && Occupied(w.pool[i]) ==>
        var c := w.pool[i];
        && c.fd in w.open && c.fd !in base
        && (c.state == READING_REQ ==> c.upstreamFd == -1)
        && (c.state != READING_REQ ==> c.upstreamFd in w.open && c.upstreamFd !in base && c.upstreamFd != c.fd)
  {
    hide Run, Count, PossibleRun, Start;
    StartIsValid(mine, base);
    RunKeepsInv(Start(mine, base), es);
    StartBase(mine, base);
    var w := Run(Start(mine, base), es);
    if i < |w.pool| && Occupied(w.pool[i]) {
      OpenIfOwned(w, i, w.pool[i].fd);
      if w.pool[i].state != READING_REQ {
        OpenIfOwned(w, i, w.pool[i].upstreamFd);
      }
    }
  }

  lemma StartBase(mine: int, base: set<int>)
    ensures Start(mine, base).base == base && Start(mine, base).mine == mine && Start(mine, base).hardErrors == 0
  {
  }

  /** A step closes only descriptors of the connection the event was for, and opens at most the one it was given. */
  lemma ClosesOnlyItsOwn(w: World, e: Event, fd: int)
    requires Inv(w) && Possible(w, e) && fd > 0
    ensures fd in w.open && fd !in Step(w, e).open ==>
      e.Ready? && Owner(w.pool, e.fd) >= 0 && Has(w.pool[Owner(w.pool, e.fd)], fd)
    ensures fd !in w.open && fd in Step(w, e).open ==>
      match e case Accept(_, _, cfd) => fd == cfd case Ready(_, _, _, routing, _, _) => routing == Connected(fd)
  {
    hide Count, Accounted, Exclusive;
  }

  /** An accepted descriptor is lost exactly when every slot is taken. */
  lemma LostOnlyWhenFull(w: World, e: Event)
    requires Inv(w) && Possible(w, e)
    ensures Step(w, e).lost != w.lost <==>
      && e.Accept? && !ShouldDrain(e.shutting, e.generation, w.mine) && e.cfd >= 0
      && forall i | 0 <= i < |w.pool| :: Occupied(w.pool[i])
    ensures w.lost <= Step(w, e).lost
  {
    hide Count, Exclusive;
    if e.Accept? && e.cfd >= 0 && FreeSlot(w.pool) == -1 {
      assert e.cfd !in w.lost;
    }
  }

  ghost predicate AllDraining(w: World, es: seq<Event>) {
    forall k | 0 <= k < |es| && es[k].Accept? :: ShouldDrain(es[k].shutting, es[k].generation, w.mine)
  }

  /** While draining no slot is ever filled. */
  lemma {:induction false} DrainingNeverGrows(w: World, es: seq<Event>)
    requires Inv(w) && PossibleRun(w, es) && AllDraining(w, es)
    ensures Count(Run(w, es).pool) <= Count(w.pool)
  {
    hide Inv, Step, Count, Possible;
    if |es| > 0 {
      var n := |es| - 1;
      DrainingNeverGrows(w, es[..n]);
      RunKeepsInv(w, es[..n]);
      StepKeepsInv(Run(w, es[..n]), es[n]);
    }
  }

  // ----- Leaving the loop -----

  /** The state after the first k rounds, had the loop not been left before. */
  function After(w: World, rounds: seq<Round>, k: nat): World
    requires k <= |rounds|
    decreases k
  {
    if k == 0 then w else Run(After(w, rounds, k - 1), rounds[k - 1].events)
  }

  lemma {:induction false} AfterFirst(w: World, rounds: seq<Round>, k: nat)
    requires 0 < k <= |rounds|
    ensures After(w, rounds, k) == After(Run(w, rounds[0].events), rounds[1..], k - 1)
  {
    hide Run;
    if k > 1 {
      AfterFirst(w, rounds, k - 1);
    }
  }

  ghost predicate Drained(w: World) {
    w.hardErrors == 0 && forall i | 0 <= i < |w.pool| :: !Occupied(w.pool[i])
  }

  lemma ActiveIffDrained(w: World)
    requires Inv(w)
    ensures w.active == 0 <==> Drained(w)
  {
    CountNone(w.pool);
  }

  ghost predicate LeavesAt(w: World, rounds: seq<Round>, k: nat)
    requires k < |rounds|
  {
    ShouldDrain(rounds[k].shutting, rounds[k].generation, w.mine) && Drained(After(w, rounds, k + 1))
  }

  /**
   The worker leaves its loop as drained exactly when, at the end of some round, a newer restart is under way, no slot
   holds a connection, and no read from an upstream ever failed hard.
   */
  lemma {:induction false} LeavesIff(w: World, rounds: seq<Round>)
    requires Inv(w) && PossibleRounds(w, rounds)
    ensures Serve(w, rounds).1 <==> exists k: nat | k < |rounds| :: LeavesAt(w, rounds, k)
    ensures Inv(Serve(w, rounds).0) && (Serve(w, rounds).1 ==> Drained(Serve(w, rounds).0))
    decreases |rounds|
  {
    hide Inv, Run, Drained, PossibleRun;
    if |rounds| > 0 {
      var w1 := Run(w, rounds[0].events);
      RunKeepsInv(w, rounds[0].events);
      ActiveIffDrained(w1);
      assert After(w, rounds, 1) == w1 by {
        assert After(w, rounds, 0) == w;
      }
      if ShouldDrain(rounds[0].shutting, rounds[0].generation, w.mine) && w1.active == 0 {
        assert LeavesAt(w, rounds, 0);
      } else {
        LeavesIff(w1, rounds[1..]);
        LeavesLater(w, rounds);
      }
    }
  }

  lemma LeavesLater(w: World, rounds: seq<Round>)
    requires |rounds| > 0 && Run(w, rounds[0].events).mine == w.mine && !LeavesAt(w, rounds, 0)
    ensures (exists k: nat | k < |rounds| :: LeavesAt(w, rounds, k)) <==>
      exists k: nat | k < |rounds| - 1 :: LeavesAt(Run(w, rounds[0].events), rounds[1..], k)
  {
    hide Run, Drained, After;
    var w1 := Run(w, rounds[0].events);
    forall k: nat | 0 < k < |rounds| ensures LeavesAt(w, rounds, k) <==> LeavesAt(w1, rounds[1..], k - 1) {
      AfterFirst(w, rounds, k + 1);
    }
    if exists k: nat | k < |rounds| :: LeavesAt(w, rounds, k) {
      var k: nat :| k < |rounds| && LeavesAt(w, rounds, k);
      assert LeavesAt(w1, rounds[1..], k - 1);
    }
    if exists k: nat | k < |rounds| - 1 :: LeavesAt(w1, rounds[1..], k) {
      var k: nat :| k < |rounds| - 1 && LeavesAt(w1, rounds[1..], k);
      assert LeavesAt(w, rounds, k + 1);
    }
  }

  /** A drained worker has closed everything it opened, except the descriptors it lost while the pool was full. */
  lemma DrainedHasClosedEverything(mine: int, base: set<int>, rounds: seq<Round>)
    requires 0 in base && PossibleRounds(Start(mine, base), rounds) && Serve(Start(mine, base), rounds).1
    ensures var w := Serve(Start(mine, base), rounds).0;
      forall fd | fd > 0 :: fd in w.open <==> fd in w.base || fd in w.lost
  {
    hide Serve, Start, PossibleRounds, Count, Exclusive;
    StartIsValid(mine, base);
    LeavesIff(Start(mine, base), rounds);
    var w := Serve(Start(mine, base), rounds).0;
    forall fd | fd > 0 ensures !Owned(w.pool, fd) {
      forall i | 0 <= i < |w.pool| ensures !Has(w.pool[i], fd) {
        assert SlotValid(w.pool[i]);
      }
    }
  }

  /** After one hard read error the worker never drains by itself again, whatever happens. */
  lemma {:induction false} HardErrorMeansNoDrain(w: World, rounds: seq<Round>)
    requires Inv(w) && PossibleRounds(w, rounds) && w.hardErrors > 0
    ensures !Serve(w, rounds).1
    decreases |rounds|
  {
    hide Inv, Run, PossibleRun;
    if |rounds| > 0 {
      var w1 := Run(w, rounds[0].events);
      RunKeepsInv(w, rounds[0].events);
      ActiveIffDrained(w1);
      HardErrorMeansNoDrain(w1, rounds[1..]);
    }
  }

  lemma RunOne(w: World, es: seq<Event>, e: Event)
    ensures Run(w, es + [e]) == Step(Run(w, es), e)
    ensures PossibleRun(w, es + [e]) <==> PossibleRun(w, es) && Possible(Run(w, es), e)
  {
    hide Step, Possible;
    assert (es + [e])[..|es|] == es;
  }

  ghost predicate Stuck(w: World) {
    w.active == 1 && w.hardErrors == 1 && forall i | 0 <= i < |w.pool| :: w.pool[i].fd == 0
  }

  /** That state is reachable: four events leave every slot free and the counter at one. */
  lemma CounterCanBeStuck(mine: int)
    ensures exists es :: PossibleRun(Start(mine, {0}), es) && Stuck(Run(Start(mine, {0}), es))
  {
    hide Run, PossibleRun;
    var w0 := Start(mine, {0});
    var a := Accept(false, 0, 5);
    var b := Ready(5, true, false, Connected(6), NothingWritten, Again);
    var c := Ready(6, false, true, NotDone, Written, Again);
    var d := Ready(6, true, false, NotDone, NothingWritten, Hard);
    StuckSteps(mine, a, b, c, d);
    RunNone(w0);
    RunOne(w0, [], a);
    RunOne(w0, [] + [a], b);
    RunOne(w0, [] + [a] + [b], c);
    RunOne(w0, [] + [a] + [b] + [c], d);
    assert PossibleRun(w0, [] + [a] + [b] + [c] + [d]);
  }

  lemma RunNone(w: World)
    ensures Run(w, []) == w && PossibleRun(w, [])
  {
  }

  lemma StuckSteps(mine: int, a: Event, b: Event, c: Event, d: Event)
    requires a == Accept(false, 0, 5) && b == Ready(5, true, false, Connected(6), NothingWritten, Again)
    requires c == Ready(6, false, true, NotDone, Written, Again)
    requires d == Ready(6, true, false, NotDone, NothingWritten, Hard)
    ensures var w0 := Start(mine, {0});
      var w1 := Step(w0, a); var w2 := Step(w1, b); var w3 := Step(w2, c); var w4 := Step(w3, d);
      && Possible(w0, a) && Possible(w1, b) && Possible(w2, c) && Possible(w3, d)
      && Stuck(w4)
  {
    var w0 := Start(mine, {0});
    var w1 := Step(w0, a);
    assert w0.pool[0].fd == 0;
    assert w1.pool == w0.pool[0 := Slot(5, READING_REQ, -1)] && w1.open == {0, 5};
    var w2 := Step(w1, b);
    assert Has(w1.pool[0], 5);
    assert w2.pool == w0.pool[0 := Slot(5, CONNECTING_UPSTREAM, 6)];
    var w3 := Step(w2, c);
    assert Has(w2.pool[0], 6);
    assert w3.pool == w0.pool[0 := Slot(5, READING_UPSTREAM, 6)];
    assert Has(w3.pool[0], 6);
  }

  // ----- A pool can overflow -----

  /** n accepts in a row, of the descriptors 1 to n. */
  function Arrivals(n: nat): seq<Event> {
    if n == 0 then [] else Arrivals(n - 1) + [Accept(false, 0, n)]
  }

  ghost predicate Filled(w: World, n: nat) {
    && |w.pool| == 1024 && n <= 1024 && w.lost == {}
    && (forall k | 0 <= k < 1024 :: w.pool[k].fd == if k < n then k + 1 else 0)
    && (forall fd | fd in w.open :: 0 <= fd <= n)
  }

  lemma FillOneMore(w: World, n: nat)
    requires Filled(w, n) && n < 1024
    ensures Possible(w, Accept(false, 0, n + 1)) && Filled(Step(w, Accept(false, 0, n + 1)), n + 1)
  {
    assert w.pool[n].fd == 0;
  }

  lemma {:induction false} ArrivalsFill(mine: int, n: nat)
    requires n <= 1024
    ensures PossibleRun(Start(mine, {0}), Arrivals(n)) && Filled(Run(Start(mine, {0}), Arrivals(n)), n)
  {
    hide Step, Possible, Filled;
    if n == 0 {
      RunNone(Start(mine, {0}));
      NoneFilled(mine);
    } else {
      ArrivalsFill(mine, n - 1);
      FillOneMore(Run(Start(mine, {0}), Arrivals(n - 1)), n - 1);
      RunOne(Start(mine, {0}), Arrivals(n - 1), Accept(false, 0, n));
    }
  }

  lemma NoneFilled(mine: int)
    ensures Filled(Start(mine, {0}), 0)
  {
  }

  lemma FullLoses(w: World)
    requires Filled(w, 1024)
    ensures var e := Accept(false, 0, 1025);
      && Possible(w, e) && 1025 in Step(w, e).open
      && Step(w, e).lost == {1025} && Step(w, e).pool == w.pool
  {
  }

  /** 1025 clients at once: the last one's descriptor is open, in no slot, and stays so. */
  lemma PoolCanOverflow(mine: int)
    ensures PossibleRun(Start(mine, {0}), Arrivals(1025))
    ensures var w := Run(Start(mine, {0}), Arrivals(1025));
      1025 in w.open && w.lost == {1025} && !Owned(w.pool, 1025)
  {
    hide Step, Possible, Filled, Run, PossibleRun, Accounted, Exclusive, Count;
    var w0 := Start(mine, {0});
    var w1 := Run(w0, Arrivals(1024));
    ArrivalsFill(mine, 1024);
    FullLoses(w1);
    RunOne(w0, Arrivals(1024), Accept(false, 0, 1025));
    StartIsValid(mine, {0});
    RunKeepsInv(w0, Arrivals(1025));
    LostIsNotOwned(Run(w0, Arrivals(1025)), 1025);
  }

  lemma LostIsNotOwned(w: World, fd: int)
    requires Inv(w) && fd > 0 && fd in w.lost
    ensures !Owned(w.pool, fd)
  {
  }
}
