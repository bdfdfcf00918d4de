/**
 The worker is not alone in its process: the health thread opens and closes descriptors too, at any time, also between
 the two closes of an upstream descriptor that some of the handlers make.
 */
module Threads {
  import opened Worker
  import opened Pool

  /**
   The worker with what the health thread takes to be its descriptors; closing is the slot whose upstream descriptor has
   been closed once and will be closed once more, -1 if none.
   */
  datatype Shared = Shared(w: World, held: set<int>, closing: int)

  datatype Move =
    | Handle(e: Event)
    | SecondClose
    | ProbeOpens(fd: int)
    | ProbeCloses(fd: int)

  /** The event makes its handler close the upstream descriptor of this slot before it closes the connection. */
  function ClosesTwice(w: World, e: Event): (i: int)
    ensures i == -1 || 0 <= i < |w.pool|
  {
    match e
    case Accept(_, _, _) => -1
    case Ready(fd, readable, writable, _, writing, reply) =>
      var i := Owner(w.pool, fd);
      if i == -1 || w.pool[i].upstreamFd < 0 then -1
      else if w.pool[i].state == CONNECTING_UPSTREAM && (writable || readable) && writing == SocketError then i
      else if w.pool[i].state == READING_UPSTREAM && readable && (reply == Data || reply == Closed) then i
      else -1
  }

  ghost predicate MayMove(x: Shared, m: Move) {
    match m
    case Handle(e) => x.closing == -1 && Possible(x.w, e)
    case SecondClose => 0 <= x.closing < |x.w.pool|
    case ProbeOpens(fd) => fd > 0 && fd !in x.w.open && fd !in x.held
    case ProbeCloses(fd) => fd in x.held
  }

  /** A close takes the number out of the table of open descriptors, whoever has it. */
  function Move1(x: Shared, m: Move): Shared {
    match m
    case Handle(e) =>
      var i := ClosesTwice(x.w, e);
      if i == -1 then x.(w := Step(x.w, e))
      else x.(w := x.w.(open := x.w.open - {x.w.pool[i].upstreamFd}), closing := i)
    case SecondClose =>
      if 0 <= x.closing < |x.w.pool| then x.(w := CloseConn(x.w, x.closing), closing := -1) else x
    case ProbeOpens(fd) => x.(w := x.w.(open := x.w.open + {fd}), held := x.held + {fd})
    case ProbeCloses(fd) => x.(w := x.w.(open := x.w.open - {fd}), held := x.held - {fd})
  }

  function Moves(x: Shared, ms: seq<Move>): Shared {
    if |ms| == 0 then x else Move1(Moves(x, ms[..|ms| - 1]), ms[|ms| - 1])
  }

  ghost predicate MayMoves(x: Shared, ms: seq<Move>) {
    |ms| == 0 || (MayMoves(x, ms[..|ms| - 1]) && MayMove(Moves(x, ms[..|ms| - 1]), ms[|ms| - 1]))
  }

  /** Which events make a handler close twice: a failed connect, and the end of an answer. */
  lemma ClosesTwiceIff(w: World, e: Event, i: nat)
    requires Inv(w) && Possible(w, e) && e.Ready? && i < |w.pool| && Has(w.pool[i], e.fd)
    ensures ClosesTwice(w, e) == i <==>
      || (w.pool[i].state == CONNECTING_UPSTREAM && (e.readable || e.writable) && e.writing == SocketError)
      || (w.pool[i].state == READING_UPSTREAM && e.readable && (e.reply == Data || e.reply == Closed))
  {
    hide Count, Accounted;
    OpenIfOwned(w, i, e.fd);
  }

  /** Undisturbed, the two closes are what the handler does in one step. */
  lemma TwoClosesAreOneStep(x: Shared, e: Event)
    requires x.closing == -1 && ClosesTwice(x.w, e) >= 0 && Inv(x.w)
    ensures Move1(Move1(x, Handle(e)), SecondClose) == x.(w := Step(x.w, e))
  {
    hide Count, Accounted, Exclusive;
  }

  // ----- Ownership -----

  /** The world with the health thread's descriptors set aside as somebody else's. */
  ghost function View(x: Shared): World {
    x.w.(base := x.w.base + x.held)
  }

  /**
   Between handlers: every open descriptor belongs to one slot, or to the health thread, or was open from the start, or
   is lost; and what each of them takes for its own is open.
   */
  ghost predicate Owns(x: Shared) {
    x.closing == -1 && Inv(View(x)) && x.held !! x.w.base && (forall fd | fd in x.held :: fd > 0)
  }

  function Doubtful(x: Shared): int
    requires 0 <= x.closing < |x.w.pool|
  {
    x.w.pool[x.closing].upstreamFd
  }

  /** The world as if the first close had not happened yet, and the number not been handed out. */
  ghost function Before(x: Shared): World
    requires 0 <= x.closing < |x.w.pool|
  {
    x.w.(open := x.w.open + {Doubtful(x)}, base := x.w.base + (x.held - {Doubtful(x)}))
  }

  /** Between the two closes. */
  ghost predicate HalfWay(x: Shared) {
    && 0 <= x.closing < |x.w.pool|
    && Occupied(x.w.pool[x.closing]) && x.w.pool[x.closing].state != READING_REQ
    && Inv(Before(x)) && x.held !! x.w.base && (forall fd | fd in x.held :: fd > 0)
    && (Doubtful(x) in x.w.open <==> Doubtful(x) in x.held)
  }

  ghost predicate Sane(x: Shared) {
    if x.closing == -1 then Owns(x) else HalfWay(x)
  }

  /** The number was handed out to the health thread, and is about to be closed under it. */
  ghost predicate Taken(x: Shared) {
    0 <= x.closing < |x.w.pool| && Doubtful(x) in x.held
  }

  lemma StepUnderView(x: Shared, e: Event)
    ensures Step(View(x), e) == View(x.(w := Step(x.w, e)))
  {
  }

  lemma HandleStaysSane(x: Shared, e: Event)
    requires Owns(x) && MayMove(x, Handle(e))
    ensures Sane(Move1(x, Handle(e)))
  {
    hide Count, Accounted, Exclusive;
    var i := ClosesTwice(x.w, e);
    if i == -1 {
      StepUnderView(x, e);
      StepKeepsInv(View(x), e);
      assert x.w.(base := x.w.base) == x.w;
    } else {
      FirstClose(x, e, i);
    }
  }

  lemma FirstClose(x: Shared, e: Event, i: nat)
    requires Owns(x) && MayMove(x, Handle(e)) && i == ClosesTwice(x.w, e)
    ensures HalfWay(Move1(x, Handle(e)))
  {
    hide Count;
    var y := Move1(x, Handle(e));
    var ufd := x.w.pool[i].upstreamFd;
    OpenIfOwned(View(x), i, e.fd);
    OpenIfOwned(View(x), i, ufd);
    assert y.w.open + {ufd} == x.w.open;
    assert x.held - {ufd} == x.held;
    assert Before(y) == View(x);
  }

  lemma ProbeStaysSane(x: Shared, m: Move)
    requires Sane(x) && MayMove(x, m) && (m.ProbeOpens? || m.ProbeCloses?)
    ensures Sane(Move1(x, m))
  {
    hide Count, Exclusive;
    if x.closing == -1 {
      OthersOpenOrClose(View(x), View(Move1(x, m)), m.fd, m.ProbeOpens?);
    } else if m.fd == Doubtful(x) {
      assert Before(Move1(x, m)) == Before(x) by {
        assert (x.held + {m.fd}) - {m.fd} == x.held - {m.fd};
        assert (x.held - {m.fd}) - {m.fd} == x.held - {m.fd};
        assert x.w.open + {m.fd} + {m.fd} == x.w.open + {m.fd};
        assert x.w.open - {m.fd} + {m.fd} == x.w.open + {m.fd};
      }
    } else {
      OthersOpenOrClose(Before(x), Before(Move1(x, m)), m.fd, m.ProbeOpens?);
    }
  }

  /** Somebody else opens a fresh descriptor, or closes one of their own. */
  lemma OthersOpenOrClose(w: World, v: World, fd: int, opens: bool)
    requires Inv(w) && fd > 0
    requires if opens then fd !in w.open else fd in w.base
    requires v == w.(open := if opens then w.open + {fd} else w.open - {fd},
                     base := if opens then w.base + {fd} else w.base - {fd})
    ensures Inv(v)
  {
    hide Count;
  }

  /** The second close leaves everything in order exactly when the number was not handed out since the first. */
  lemma SecondCloseIff(x: Shared)
    requires HalfWay(x)
    ensures Owns(Move1(x, SecondClose)) <==> !Taken(x)
  {
    hide Count, Exclusive;
    var y, ufd := Move1(x, SecondClose), Doubtful(x);
    var c := CloseConn(Before(x), x.closing);
    CloseKeepsInv(Before(x), x.closing);
    OpenIfOwned(Before(x), x.closing, ufd);
    if Taken(x) {
      assert ufd in View(y).base && ufd !in View(y).open;
      assert !Accounted(View(y));
    } else {
      assert x.held - {ufd} == x.held;
      assert c.open == y.w.open;
      assert c == View(y);
    }
  }

  // ----- Every run of both threads -----

  ghost predicate NeverTaken(x: Shared, ms: seq<Move>) {
    forall k | 0 <= k < |ms| && ms[k].SecondClose? :: !Taken(Moves(x, ms[..k]))
  }

  ghost predicate AlwaysOwns(x: Shared, ms: seq<Move>) {
    forall k | 0 <= k <= |ms| && Moves(x, ms[..k]).closing == -1 :: Owns(Moves(x, ms[..k]))
  }

  lemma {:induction false} StaysSane(x: Shared, ms: seq<Move>)
    requires Owns(x) && MayMoves(x, ms) && NeverTaken(x, ms)
    ensures Sane(Moves(x, ms))
  {
    hide Owns, HalfWay, Move1, MayMove, Taken;
    if |ms| > 0 {
      var n := |ms| - 1;
      var y := Moves(x, ms[..n]);
      assert forall k | 0 <= k < n :: ms[..n][..k] == ms[..k] && ms[..n][k] == ms[k];
      StaysSane(x, ms[..n]);
      MoveStaysSane(y, ms[n]);
    } else {
      OwnsIsSane(x);
    }
  }

  lemma OwnsIsSane(x: Shared)
    requires Owns(x)
    ensures Sane(x)
  {
  }

  lemma MoveStaysSane(x: Shared, m: Move)
    requires Sane(x) && MayMove(x, m) && (m.SecondClose? ==> !Taken(x))
    ensures Sane(Move1(x, m))
  {
    hide Inv;
    match m
    case Handle(e) => HandleStaysSane(x, e);
    case SecondClose => SecondCloseIff(x);
    case ProbeOpens(_) => ProbeStaysSane(x, m);
    case ProbeCloses(_) => ProbeStaysSane(x, m);
  }

  lemma {:induction false} MovesPrefix(x: Shared, ms: seq<Move>, k: nat)
    requires MayMoves(x, ms) && k <= |ms|
    ensures MayMoves(x, ms[..k])
  {
    hide Move1, MayMove;
    if k == |ms| {
      assert ms[..k] == ms;
    } else {
      MovesPrefix(x, ms[..|ms| - 1], k);
      assert ms[..|ms| - 1][..k] == ms[..k];
    }
  }

  lemma NeverTakenPrefix(x: Shared, ms: seq<Move>, k: nat)
    requires k <= |ms| && forall i | 0 <= i < k && ms[i].SecondClose? :: !Taken(Moves(x, ms[..i]))
    ensures NeverTaken(x, ms[..k])
  {
    hide Move1, Taken;
    assert forall i | 0 <= i < k :: ms[..k][..i] == ms[..i] && ms[..k][i] == ms[i];
  }

  /** The first second close that hits a number handed out meanwhile, if there is one. */
  lemma FirstTaken(x: Shared, ms: seq<Move>) returns (k: nat)
    requires !NeverTaken(x, ms)
    ensures k < |ms| && ms[k].SecondClose? && Taken(Moves(x, ms[..k])) && NeverTaken(x, ms[..k])
  {
    hide Move1, Taken;
    k := 0;
    while !(ms[k].SecondClose? && Taken(Moves(x, ms[..k])))
      invariant k < |ms|
      invariant forall i | 0 <= i < k && ms[i].SecondClose? :: !Taken(Moves(x, ms[..i]))
      decreases |ms| - k
    {
      if k + 1 == |ms| {
        assert false;
      }
      k := k + 1;
    }
    NeverTakenPrefix(x, ms, k);
  }

  /**
   For every run of the worker's events and the health thread's probes, in any interleaving: after each handler every
   open descriptor has its one owner, if and only if never a descriptor closed once is handed out to the health thread
   and still held there when it is closed the second time.
   */
  lemma OwnershipIff(x: Shared, ms: seq<Move>)
    requires Owns(x) && MayMoves(x, ms)
    ensures AlwaysOwns(x, ms) <==> NeverTaken(x, ms)
  {
    hide Owns, HalfWay, Move1, MayMove, Taken;
    if NeverTaken(x, ms) {
      forall k | 0 <= k <= |ms| && Moves(x, ms[..k]).closing == -1 ensures Owns(Moves(x, ms[..k])) {
        NeverTakenPrefix(x, ms, k);
        MovesPrefix(x, ms, k);
        StaysSane(x, ms[..k]);
      }
    } else {
      var k := FirstTaken(x, ms);
      MovesPrefix(x, ms, k);
      StaysSane(x, ms[..k]);
      TakenIsHalfWay(Moves(x, ms[..k]));
      SecondCloseIff(Moves(x, ms[..k]));
      assert ms[..k + 1][..k] == ms[..k];
      ClosedAfterwards(Moves(x, ms[..k]));
      assert !Owns(Moves(x, ms[..k + 1]));
    }
  }

  lemma TakenIsHalfWay(x: Shared)
    requires Sane(x) && Taken(x)
    ensures HalfWay(x)
  {
  }

  lemma ClosedAfterwards(x: Shared)
    requires Taken(x)
    ensures Move1(x, SecondClose).closing == -1
  {
  }

  // ----- A run that goes wrong -----

  lemma MovesOne(x: Shared, ms: seq<Move>, m: Move)
    ensures Moves(x, ms + [m]) == Move1(Moves(x, ms), m)
    ensures MayMoves(x, ms + [m]) <==> MayMoves(x, ms) && MayMove(Moves(x, ms), m)
  {
    hide Move1, MayMove;
    assert (ms + [m])[..|ms|] == ms;
  }

  /** The first slot with these contents, the others as at the start. */
  function OneSlot(c: Slot): seq<Slot> {
    Start(0, {0}).pool[0 := c]
  }

  ghost predicate Looks(x: Shared, c: Slot, open: set<int>, held: set<int>, closing: int) {
    x.w.pool == OneSlot(c) && x.w.open == open && x.held == held && x.closing == closing && x.w.mine == 0
  }

  function Beginning(): Shared {
    Shared(Start(0, {0}), {}, -1)
  }

  function Connects(fd: int, ufd: int): Event {
    Ready(fd, true, false, Connected(ufd), NothingWritten, Again)
  }

  function Fails(ufd: int): Event {
    Ready(ufd, false, true, NotDone, SocketError, Again)
  }

  lemma AcceptLooks(x: Shared, c: Slot, open: set<int>, held: set<int>, fd: int)
    requires Looks(x, c, open, held, -1) && c.fd == 0 && fd > 0 && fd !in open
    ensures MayMove(x, Handle(Accept(false, 0, fd)))
    ensures Looks(Move1(x, Handle(Accept(false, 0, fd))), Slot(fd, READING_REQ, -1), open + {fd}, held, -1)
  {
    assert x.w.pool[0].fd == 0;
  }

  lemma ConnectLooks(x: Shared, open: set<int>, fd: int, ufd: int)
    requires Looks(x, Slot(fd, READING_REQ, -1), open, {}, -1) && fd > 0 && ufd > 0 && ufd !in open
    ensures MayMove(x, Handle(Connects(fd, ufd)))
    ensures Looks(Move1(x, Handle(Connects(fd, ufd))), Slot(fd, CONNECTING_UPSTREAM, ufd), open + {ufd}, {}, -1)
  {
    assert Has(x.w.pool[0], fd);
  }

  lemma FailLooks(x: Shared, open: set<int>, fd: int, ufd: int)
    requires Looks(x, Slot(fd, CONNECTING_UPSTREAM, ufd), open, {}, -1) && fd > 0 && ufd > 0
    ensures MayMove(x, Handle(Fails(ufd)))
    ensures Looks(Move1(x, Handle(Fails(ufd))), Slot(fd, CONNECTING_UPSTREAM, ufd), open - {ufd}, {}, 0)
  {
    assert Has(x.w.pool[0], ufd);
  }

  lemma BeginningLooks()
    ensures Looks(Beginning(), Slot(0, IDLE, 0), {0}, {}, -1)
  {
  }

  /** A client's connection whose descriptor is closed. */
  ghost predicate ClientClosed(w: World) {
    |w.pool| > 0 && Occupied(w.pool[0]) && w.pool[0].fd > 0 && w.pool[0].fd !in w.open
  }

  /**
   The health thread is given number 6 between the two closes of it, loses its socket to the second close, and when it
   closes 6 itself, closes the client connection that has got the number by then.
   */
  lemma ProbeClosesAClient()
    ensures exists ms :: MayMoves(Beginning(), ms) && ClientClosed(Moves(Beginning(), ms).w)
  {
    hide Move1, MayMove, Looks, OneSlot, Moves, MayMoves;
    var b := Beginning();
    var m1, m2, m3 := Handle(Accept(false, 0, 5)), Handle(Connects(5, 6)), Handle(Fails(6));
    var m4, m5, m6, m7 := ProbeOpens(6), SecondClose, Handle(Accept(false, 0, 6)), ProbeCloses(6);
    BeginningLooks();
    AcceptLooks(b, Slot(0, IDLE, 0), {0}, {}, 5);
    var x1 := Move1(b, m1);
    ConnectLooks(x1, {0} + {5}, 5, 6);
    var x2 := Move1(x1, m2);
    FailLooks(x2, {0} + {5} + {6}, 5, 6);
    TheRest(Move1(x2, m3));
    NoMoves(b);
    MovesOne(b, [], m1);
    MovesOne(b, [] + [m1], m2);
    MovesOne(b, [] + [m1] + [m2], m3);
    MovesOne(b, [] + [m1] + [m2] + [m3], m4);
    MovesOne(b, [] + [m1] + [m2] + [m3] + [m4], m5);
    MovesOne(b, [] + [m1] + [m2] + [m3] + [m4] + [m5], m6);
    MovesOne(b, [] + [m1] + [m2] + [m3] + [m4] + [m5] + [m6], m7);
    assert MayMoves(b, [] + [m1] + [m2] + [m3] + [m4] + [m5] + [m6] + [m7]);
  }

  lemma NoMoves(x: Shared)
    ensures Moves(x, []) == x && MayMoves(x, [])
  {
  }

  lemma TheRest(x: Shared)
    requires Looks(x, Slot(5, CONNECTING_UPSTREAM, 6), {0} + {5} + {6} - {6}, {}, 0)
    ensures var y := Move1(x, ProbeOpens(6));
      var z := Move1(y, SecondClose);
      var u := Move1(z, Handle(Accept(false, 0, 6)));
      var v := Move1(u, ProbeCloses(6));
      && MayMove(x, ProbeOpens(6)) && MayMove(y, SecondClose) && MayMove(z, Handle(Accept(false, 0, 6)))
      && MayMove(u, ProbeCloses(6))
      && ClientClosed(v.w)
  {
    var y := Move1(x, ProbeOpens(6));
    var z := Move1(y, SecondClose);
    assert z.w.pool == OneSlot(Slot(0, CONNECTING_UPSTREAM, -1));
    assert z.w.open == {0};
    AcceptLooks(z, Slot(0, CONNECTING_UPSTREAM, -1), {0}, {6}, 6);
  }
}
