/** A worker's connection pool: which slot holds which descriptors, and what each event does to it. */
module Worker {

  const POOL_SIZE: nat := 1024

  datatype ConnState = IDLE | READING_REQ | CONNECTING_UPSTREAM | READING_UPSTREAM

  /** A slot is free when its fd is 0; an upstream descriptor of -1 (or 0, at the start) means there is none. */
  datatype Slot = Slot(fd: int, state: ConnState, upstreamFd: int)

  /**
   The worker and what the kernel knows of it: the descriptors that were open before the loop, all that are open now,
   the accepted ones no slot was free for, and how often reading from an upstream failed hard.
   */
  datatype World = World(pool: seq<Slot>, active: int, mine: int,
                         base: set<int>, open: set<int>, lost: set<int>, hardErrors: nat)

  // How reading and routing a request may end, connecting to the upstream, and reading its answer.
  datatype Routing =
    | ReadFailed | NotDone | Blocked | OverRate | StaticFile | NoNode | TooLong | NoConnection
    | Connected(ufd: int)
  datatype Writing = SocketError | Written | NothingWritten
  datatype Reply = Data | Closed | Again | Hard

  datatype Event =
    | Accept(shutting: bool, generation: int, cfd: int)
    | Ready(fd: int, readable: bool, writable: bool, routing: Routing, writing: Writing, reply: Reply)

  /** One turn of the worker's loop: a batch of events, then the two shared values it reads. */
  datatype Round = Round(events: seq<Event>, shutting: bool, generation: int)

  /** A restart only concerns workers that loaded an earlier generation. */
  predicate ShouldDrain(shutting: bool, generation: int, mine: int) {
    shutting && generation > mine
  }

  predicate Has(c: Slot, fd: int) {
    c.fd == fd || c.upstreamFd == fd
  }

  /** The first free slot, -1 if there is none. */
  function FreeSlot(pool: seq<Slot>): (i: int)
    ensures i == -1 || (0 <= i < |pool| && pool[i].fd == 0)
    ensures i == -1 ==> forall k | 0 <= k < |pool| :: pool[k].fd != 0
    ensures i >= 0 ==> forall k | 0 <= k < i :: pool[k].fd != 0
  {
    if |pool| == 0 then -1
    else
      var i := FreeSlot(pool[..|pool| - 1]);
      if i >= 0 then i else if pool[|pool| - 1].fd == 0 then |pool| - 1 else -1
  }

  /** The first slot that has the descriptor, -1 if there is none. */
  function Owner(pool: seq<Slot>, fd: int): (i: int)
    ensures i == -1 || (0 <= i < |pool| && Has(pool[i], fd))
    ensures i == -1 ==> forall k | 0 <= k < |pool| :: !Has(pool[k], fd)
    ensures i >= 0 ==> forall k | 0 <= k < i :: !Has(pool[k], fd)
  {
    if |pool| == 0 then -1
    else
      var i := Owner(pool[..|pool| - 1], fd);
      if i >= 0 then i else if Has(pool[|pool| - 1], fd) then |pool| - 1 else -1
  }

  function Freed(c: Slot): Slot {
    c.(fd := 0, upstreamFd := -1)
  }

  /** The descriptors that closing a connection closes. */
  function Descriptors(c: Slot): set<int> {
    (if c.fd > 0 then {c.fd} else {}) + (if c.upstreamFd > 0 then {c.upstreamFd} else {})
  }

  function CloseConn(w: World, i: nat): World
    requires i < |w.pool|
  {
    var c := w.pool[i];
    w.(pool := w.pool[i := Freed(c)],
       active := if c.fd > 0 then w.active - 1 else w.active,
       open := w.open - Descriptors(c))
  }

  /** A read from the upstream that failed hard: everything is closed, but the connection is not counted off. */
  function DropConn(w: World, i: nat): World
    requires i < |w.pool|
  {
    var c := w.pool[i];
    w.(pool := w.pool[i := Freed(c)], open := w.open - {c.upstreamFd, c.fd}, hardErrors := w.hardErrors + 1)
  }

  function ClientRead(w: World, i: nat, routing: Routing): World
    requires i < |w.pool|
  {
    match routing
    case Connected(ufd) =>
      w.(pool := w.pool[i := w.pool[i].(upstreamFd := ufd, state := CONNECTING_UPSTREAM)], open := w.open + {ufd})
    case _ => CloseConn(w, i)
  }

  function UpstreamWritable(w: World, i: nat, writing: Writing): World
    requires i < |w.pool|
  {
    if w.pool[i].upstreamFd < 0 then w else
    match writing
    case SocketError => CloseConn(w.(open := w.open - {w.pool[i].upstreamFd}), i)
    case Written => w.(pool := w.pool[i := w.pool[i].(state := READING_UPSTREAM)])
    case NothingWritten => w
  }

  function UpstreamReadable(w: World, i: nat, reply: Reply): World
    requires i < |w.pool|
  {
    if w.pool[i].upstreamFd < 0 then w else
    match reply
    case Data => CloseConn(w.(open := w.open - {w.pool[i].upstreamFd}), i)
    case Closed => CloseConn(w.(open := w.open - {w.pool[i].upstreamFd}), i)
    case Again => w
    case Hard => DropConn(w, i)
  }

  function AcceptConn(w: World, cfd: int): World {
    var w1, i := w.(open := w.open + {cfd}), FreeSlot(w.pool);
    if i == -1 then w1.(lost := w.lost + {cfd})
    else w1.(pool := w.pool[i := Slot(cfd, READING_REQ, -1)], active := w.active + 1)
  }

  function Step(w: World, e: Event): World {
    match e
    case Accept(shutting, generation, cfd) =>
      if ShouldDrain(shutting, generation, w.mine) || cfd < 0 then w else AcceptConn(w, cfd)
    case Ready(fd, readable, writable, routing, writing, reply) =>
      var i := Owner(w.pool, fd);
      if i == -1 then w
      else if w.pool[i].state == READING_REQ && readable then ClientRead(w, i, routing)
      else if w.pool[i].state == CONNECTING_UPSTREAM && (writable || readable) then UpstreamWritable(w, i, writing)
      else if w.pool[i].state == READING_UPSTREAM && readable then UpstreamReadable(w, i, reply)
      else w
  }

  function Run(w: World, es: seq<Event>): World {
    if |es| == 0 then w else Step(Run(w, es[..|es| - 1]), es[|es| - 1])
  }

  /** The loop: true when it was left because the worker had drained. */
  function Serve(w: World, rounds: seq<Round>): (World, bool)
    decreases |rounds|
  {
    if |rounds| == 0 then (w, false)
    else
      var w1 := Run(w, rounds[0].events);
      if ShouldDrain(rounds[0].shutting, rounds[0].generation, w.mine) && w1.active == 0 then (w1, true)
      else Serve(w1, rounds[1..])
  }

  function Start(mine: int, base: set<int>): World {
    World(seq(POOL_SIZE, _ => Slot(0, IDLE, 0)), 0, mine, base, base, {}, 0)
  }

  // ----- The worker as the program runs it -----

  class WorkerProcess {
    const pool: array<Slot>
    const mine: int
    var active: int
    ghost const base: set<int>
    ghost var open: set<int>
    ghost var lost: set<int>
    ghost var hardErrors: nat

    ghost function Value(): World
      reads this, pool
    {
      World(pool[..], active, mine, base, open, lost, hardErrors)
    }

    constructor (generation: int, ghost descriptors: set<int>)
      ensures fresh(pool)
      ensures Value() == Start(generation, descriptors)
    {
      pool := new Slot[POOL_SIZE](_ => Slot(0, IDLE, 0));
      mine, active := generation, 0;
      base, open, lost, hardErrors := descriptors, descriptors, {}, 0;
      new;
      assert pool[..] == Start(generation, descriptors).pool;
    }

    method ProxyAlloc(fd: int) returns (i: int)
      modifies pool
      ensures i == FreeSlot(old(pool[..]))
      ensures pool[..] == if i == -1 then old(pool[..]) else old(pool[..])[i := Slot(fd, IDLE, -1)]
    {
      for k := 0 to pool.Length
        invariant forall j | 0 <= j < k :: pool[j].fd != 0
      {
        if pool[k].fd == 0 {
          pool[k] := Slot(fd, IDLE, -1);
          return k;
        }
      }
      return -1;
    }

    method ProxyGet(fd: int) returns (i: int)
      ensures i == Owner(pool[..], fd)
    {
      for k := 0 to pool.Length
        invariant forall j | 0 <= j < k :: !Has(pool[j], fd)
      {
        if pool[k].fd == fd || pool[k].upstreamFd == fd {
          return k;
        }
      }
      return -1;
    }

    method ProxyFree(i: nat)
      requires i < pool.Length
      modifies pool
      ensures pool[..] == old(pool[..])[i := Freed(old(pool[i]))]
    {
      pool[i] := pool[i].(fd := 0, upstreamFd := -1);
    }

    method CloseClientConn(i: nat)
      requires i < pool.Length
      modifies this`active, this`open, pool
      ensures Value() == CloseConn(old(Value()), i)
    {
      var cfd, ufd := pool[i].fd, pool[i].upstreamFd;
      if cfd > 0 {
        active := active - 1;
        open := open - {cfd};
      }
      if ufd > 0 {
        open := open - {ufd};
      }
      ProxyFree(i);
    }

    method HandleClientRead(i: nat, routing: Routing)
      requires i < pool.Length
      modifies this`active, this`open, pool
      ensures Value() == ClientRead(old(Value()), i, routing)
    {
      if routing.Connected? {
        open := open + {routing.ufd};
        pool[i] := pool[i].(upstreamFd := routing.ufd);
        pool[i] := pool[i].(state := CONNECTING_UPSTREAM);
      } else {
        CloseClientConn(i);
      }
    }

    method HandleUpstreamWritable(i: nat, writing: Writing)
      requires i < pool.Length
      modifies this`active, this`open, pool
      ensures Value() == UpstreamWritable(old(Value()), i, writing)
    {
      var ufd := pool[i].upstreamFd;
      if ufd < 0 {
        return;
      }
      if writing == SocketError {
        open := open - {ufd};
        CloseClientConn(i);
        return;
      }
      if writing == Written {
        pool[i] := pool[i].(state := READING_UPSTREAM);
      } else {
        assert pool[..] == old(pool[..]);
      }
    }

    method HandleUpstreamReadable(i: nat, reply: Reply)
      requires i < pool.Length
      modifies this`active, this`open, this`hardErrors, pool
      ensures Value() == UpstreamReadable(old(Value()), i, reply)
    {
      var ufd := pool[i].upstreamFd;
      if ufd < 0 {
        return;
      }
      if reply == Data || reply == Closed {
        open := open - {ufd};
        CloseClientConn(i);
      } else if reply == Hard {
        open := open - {ufd};
        open := open - {pool[i].fd};
        hardErrors := hardErrors + 1;
        ProxyFree(i);
      }
    }

    method OnEvent(e: Event)
      modifies this`active, this`open, this`lost, this`hardErrors, pool
      ensures Value() == Step(old(Value()), e)
    {
      match e
      case Accept(shutting, generation, cfd) =>
        if ShouldDrain(shutting, generation, mine) {
          return;
        }
        if cfd >= 0 {
          open := open + {cfd};
          var i := ProxyAlloc(cfd);
          if i >= 0 {
            active := active + 1;
            pool[i] := pool[i].(state := READING_REQ);
          } else {
            lost := lost + {cfd};
          }
        }
      case Ready(fd, readable, writable, routing, writing, reply) =>
        var i := ProxyGet(fd);
        if i < 0 {
          return;
        }
        if pool[i].state == READING_REQ && readable {
          HandleClientRead(i, routing);
        } else if pool[i].state == CONNECTING_UPSTREAM && (writable || readable) {
          HandleUpstreamWritable(i, writing);
        } else if pool[i].state == READING_UPSTREAM && readable {
          HandleUpstreamReadable(i, reply);
        }
    }

    method WorkerRun(rounds: seq<Round>) returns (drained: bool)
      modifies this`active, this`open, this`lost, this`hardErrors, pool
      ensures (Value(), drained) == Serve(old(Value()), rounds)
    {
      for r := 0 to |rounds|
        invariant Serve(old(Value()), rounds) == Serve(Value(), rounds[r..])
      {
        ghost var w := Value();
        var events := rounds[r].events;
        for k := 0 to |events|
          invariant Value() == Run(w, events[..k])
        {
          assert events[..k + 1][..k] == events[..k];
          OnEvent(events[k]);
        }
        assert events[..|events|] == events && rounds[r..][1..] == rounds[r + 1..];
        if ShouldDrain(rounds[r].shutting, rounds[r].generation, mine) && active == 0 {
          return true;
        }
      }
      return false;
    }
  }
}
