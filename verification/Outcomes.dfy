/** What every event does to the slot it is for, outcome by outcome; and that connections taken are held or ended. */
module Outcomes {
  import opened Worker
  import opened Pool

  /** Apart from slot i, the descriptors and the counters, nothing changed. */
  ghost predicate OnlySlot(w: World, r: World, i: nat) {
    && r.base == w.base && r.mine == w.mine && r.lost == w.lost && |r.pool| == |w.pool|
    && forall k | 0 <= k < |w.pool| && k != i :: r.pool[k] == w.pool[k]
  }

  /** Slot i is free, its descriptors are closed, and nothing else happened to any descriptor. */
  ghost predicate Ended(w: World, r: World, i: nat)
    requires i < |w.pool|
  {
    && OnlySlot(w, r, i) && r.pool[i].fd == 0 && r.pool[i].upstreamFd == -1
    && w.pool[i].fd in w.open
    && r.open == w.open - {w.pool[i].fd} - (if w.pool[i].upstreamFd == -1 then {} else {w.pool[i].upstreamFd})
  }

  lemma OwnerIs(w: World, i: nat, fd: int)
    requires Inv(w) && i < |w.pool| && fd > 0 && Has(w.pool[i], fd)
    ensures Owner(w.pool, fd) == i && Occupied(w.pool[i]) && w.pool[i].fd in w.open
  {
    OpenIfOwned(w, i, fd);
    OpenIfOwned(w, i, w.pool[i].fd);
  }

  /** A readable event on a connection whose request is awaited: it goes on to an upstream, or it is over. */
  lemma RequestOutcome(w: World, e: Event, i: nat)
    requires Inv(w) && Possible(w, e) && e.Ready? && i < |w.pool| && Has(w.pool[i], e.fd)
    requires w.pool[i].state == READING_REQ && e.readable
    ensures var r := Step(w, e);
      && r.hardErrors == w.hardErrors
      && match e.routing {
        case Connected(ufd) =>
          && OnlySlot(w, r, i) && r.pool[i] == Slot(e.fd, CONNECTING_UPSTREAM, ufd)
          && r.open == w.open + {ufd} && r.active == w.active
        case _ => Ended(w, r, i) && e.fd !in r.open && r.active == w.active - 1
      }
  {
    hide Exclusive, Accounted, Count;
    OwnerIs(w, i, e.fd);
  }

  /** An event on a connection that is waiting for its upstream. */
  lemma ConnectOutcome(w: World, e: Event, i: nat)
    requires Inv(w) && Possible(w, e) && e.Ready? && i < |w.pool| && Has(w.pool[i], e.fd)
    requires w.pool[i].state == CONNECTING_UPSTREAM && (e.readable || e.writable)
    ensures var r := Step(w, e);
      && r.hardErrors == w.hardErrors
      && match e.writing {
        case SocketError =>
          && Ended(w, r, i) && w.pool[i].upstreamFd in w.open && w.pool[i].upstreamFd > 0
          && r.active == w.active - 1
        case Written =>
          && OnlySlot(w, r, i) && r.pool[i] == Slot(w.pool[i].fd, READING_UPSTREAM, w.pool[i].upstreamFd)
          && r.open == w.open && r.active == w.active
        case NothingWritten => r == w
      }
  {
    hide Exclusive, Accounted, Count;
    OwnerIs(w, i, e.fd);
    OpenIfOwned(w, i, w.pool[i].upstreamFd);
  }

  /** A readable event on a connection that is waiting for the answer. */
  lemma AnswerOutcome(w: World, e: Event, i: nat)
    requires Inv(w) && Possible(w, e) && e.Ready? && i < |w.pool| && Has(w.pool[i], e.fd)
    requires w.pool[i].state == READING_UPSTREAM && e.readable
    ensures var r, c := Step(w, e), w.pool[i];
      match e.reply {
        case Again => r == w
        case Hard =>
          && Ended(w, r, i) && c.upstreamFd in w.open && c.upstreamFd > 0
          && r.active == w.active && r.hardErrors == w.hardErrors + 1
        case _ =>
          && Ended(w, r, i) && c.upstreamFd in w.open && c.upstreamFd > 0
          && r.active == w.active - 1 && r.hardErrors == w.hardErrors
      }
  {
    hide Exclusive, Accounted, Count;
    OwnerIs(w, i, e.fd);
    OpenIfOwned(w, i, w.pool[i].upstreamFd);
  }

  /** An event that says nothing the connection waits for, or that is for no connection. */
  lemma NothingHappens(w: World, e: Event)
    requires Inv(w) && Possible(w, e) && e.Ready?
    requires forall i | 0 <= i < |w.pool| && Has(w.pool[i], e.fd) ::
      match w.pool[i].state
      case READING_REQ => !e.readable
      case CONNECTING_UPSTREAM => !e.readable && !e.writable
      case READING_UPSTREAM => !e.readable
      case IDLE => false
    ensures Step(w, e) == w
  {
    hide Exclusive, Accounted, Count;
  }

  /** An accept takes the first free slot; without one its descriptor stays open for nobody. */
  lemma AcceptOutcome(w: World, e: Event)
    requires Inv(w) && Possible(w, e) && e.Accept?
    ensures var r := Step(w, e);
      && r.hardErrors == w.hardErrors
      && (((e.shutting && e.generation > w.mine) || e.cfd == -1) ==> r == w)
      && (!(e.shutting && e.generation > w.mine) && e.cfd >= 0 ==>
            && r.open == w.open + {e.cfd}
            && ((forall k | 0 <= k < |w.pool| :: w.pool[k].fd != 0) ==>
                  r == w.(open := w.open + {e.cfd}, lost := w.lost + {e.cfd}))
            && (forall i: nat | i < |w.pool| && w.pool[i].fd == 0 && (forall k | 0 <= k < i :: w.pool[k].fd != 0) ::
                  OnlySlot(w, r, i) && r.pool[i] == Slot(e.cfd, READING_REQ, -1) && r.active == w.active + 1))
  {
    hide Exclusive, Accounted, Count;
  }

  // ----- Taken and ended -----

  /** The accept finds a slot. */
  ghost predicate Takes(w: World, e: Event) {
    && e.Accept? && !(e.shutting && e.generation > w.mine) && e.cfd >= 0
    && exists i | 0 <= i < |w.pool| :: w.pool[i].fd == 0
  }

  /** The event brings the end of slot i's connection. */
  ghost predicate EndsSlot(w: World, e: Event, i: nat) {
    && e.Ready? && i < |w.pool| && Has(w.pool[i], e.fd)
    && match w.pool[i].state
      case READING_REQ => e.readable && !e.routing.Connected?
      case CONNECTING_UPSTREAM => (e.readable || e.writable) && e.writing == SocketError
      case READING_UPSTREAM => e.readable && e.reply != Again
      case IDLE => false
  }

  ghost predicate Finishes(w: World, e: Event) {
    exists i: nat :: EndsSlot(w, e, i)
  }

  lemma SlotChange(w: World, r: World, i: nat)
    requires OnlySlot(w, r, i) && i < |w.pool|
    ensures Count(r.pool) == Count(w.pool) - (if Occupied(w.pool[i]) then 1 else 0)
                             + (if Occupied(r.pool[i]) then 1 else 0)
  {
    hide Count;
    CountUpdate(w.pool, i, r.pool[i]);
    assert r.pool == w.pool[i := r.pool[i]];
  }

  lemma TakenSlot(w: World, e: Event) returns (i: nat)
    requires Inv(w) && Possible(w, e) && Takes(w, e)
    ensures i < |w.pool| && OnlySlot(w, Step(w, e), i)
    ensures !Occupied(w.pool[i]) && Occupied(Step(w, e).pool[i])
  {
    hide Count, Exclusive, Accounted;
    i := FreeSlot(w.pool);
  }

  lemma NotTaken(w: World, e: Event)
    requires Possible(w, e) && e.Accept? && !Takes(w, e)
    ensures Step(w, e).pool == w.pool
  {
  }

  lemma SlotsFilled(w: World, e: Event)
    requires Inv(w) && Possible(w, e) && e.Accept?
    ensures Count(Step(w, e).pool) == Count(w.pool) + if Takes(w, e) then 1 else 0
  {
    hide Inv, Count, Step, Possible, Takes;
    if Takes(w, e) {
      var i := TakenSlot(w, e);
      SlotChange(w, Step(w, e), i);
    } else {
      NotTaken(w, e);
    }
  }

  lemma SlotsEmptied(w: World, e: Event)
    requires Inv(w) && Possible(w, e) && e.Ready?
    ensures Count(Step(w, e).pool) == Count(w.pool) - if Finishes(w, e) then 1 else 0
  {
    hide Count, Step, Exclusive, Accounted;
    var i := Owner(w.pool, e.fd);
    if i == -1 {
      NothingHappens(w, e);
    } else {
      OwnerIs(w, i, e.fd);
      OnlyOwnerEnds(w, e, i);
      var c := w.pool[i];
      if c.state == READING_REQ && e.readable {
        RequestOutcome(w, e, i);
        SlotChange(w, Step(w, e), i);
      } else if c.state == CONNECTING_UPSTREAM && (e.readable || e.writable) {
        ConnectOutcome(w, e, i);
        SlotChange(w, Step(w, e), i);
      } else if c.state == READING_UPSTREAM && e.readable {
        AnswerOutcome(w, e, i);
        SlotChange(w, Step(w, e), i);
      } else {
        AllButOwner(w, e, i);
        NothingHappens(w, e);
      }
    }
  }

  lemma OnlyOwnerEnds(w: World, e: Event, i: nat)
    requires Inv(w) && e.Ready? && e.fd > 0 && i < |w.pool| && Has(w.pool[i], e.fd)
    ensures Finishes(w, e) <==> EndsSlot(w, e, i)
  {
    hide Count, Accounted;
  }

  lemma AllButOwner(w: World, e: Event, i: nat)
    requires Inv(w) && e.Ready? && e.fd > 0 && i < |w.pool| && Has(w.pool[i], e.fd)
    ensures forall k | 0 <= k < |w.pool| && Has(w.pool[k], e.fd) :: k == i
  {
    hide Count, Accounted;
  }

  ghost function TakenCount(w: World, es: seq<Event>): nat {
    if |es| == 0 then 0
    else TakenCount(w, es[..|es| - 1]) + if Takes(Run(w, es[..|es| - 1]), es[|es| - 1]) then 1 else 0
  }

  ghost function FinishedCount(w: World, es: seq<Event>): nat {
    if |es| == 0 then 0
    else FinishedCount(w, es[..|es| - 1]) + if Finishes(Run(w, es[..|es| - 1]), es[|es| - 1]) then 1 else 0
  }

  lemma NoneOfTheOther(w: World, e: Event)
    ensures e.Accept? ==> !Finishes(w, e)
    ensures e.Ready? ==> !Takes(w, e)
  {
  }

  /** Over any run every connection that was taken on is still held, or an outcome that ends it has come in. */
  lemma {:induction false} TakenAreHeldOrEnded(w: World, es: seq<Event>)
    requires Inv(w) && PossibleRun(w, es)
    ensures Count(Run(w, es).pool) + FinishedCount(w, es) == Count(w.pool) + TakenCount(w, es)
  {
    hide Inv, Step, Count, Possible, Takes, Finishes;
    if |es| > 0 {
      var past, e := es[..|es| - 1], es[|es| - 1];
      TakenAreHeldOrEnded(w, past);
      RunKeepsInv(w, past);
      NoneOfTheOther(Run(w, past), e);
      if e.Accept? {
        SlotsFilled(Run(w, past), e);
      } else {
        SlotsEmptied(Run(w, past), e);
      }
    }
  }
}
