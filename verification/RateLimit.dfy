/**
 The per-address token bucket. Tokens are counted in thousandths, which makes the arithmetic exact:
 one millisecond refills `rate` of them, a request costs COST, the bucket holds COST * rate.
 */
module RateLimit {
  import opened Options

  const RL_MAX: nat := 1024
  const IP_SIZE: nat := 64
  const COST: int := 1000
  const WRAP: int := 0x1_0000_0000_0000_0000

  datatype Entry = Entry(ip: string, tokens: int, lastRefillMs: int)

  datatype Limiter = Limiter(entries: seq<Entry>, rate: int)

  /** One check: the address and the two clock readings, at creation of an entry and at the refill. */
  datatype Call = Call(ip: string, created: int, now: int)

  /** What strncpy into the zeroed ip field keeps. */
  function Stored(ip: string): string {
    if |ip| < IP_SIZE then ip else ip[..IP_SIZE - 1]
  }

  function Find(es: seq<Entry>, ip: string): (i: int)
    ensures -1 <= i < |es|
    ensures i >= 0 ==> es[i].ip == ip
  {
    if |es| == 0 then -1
    else
      var i := Find(es[..|es| - 1], ip);
      if i >= 0 then i else if es[|es| - 1].ip == ip then |es| - 1 else -1
  }

  /** The search finds the first entry of ip, and -1 means there is none. */
  lemma {:induction false} FindIsFirst(es: seq<Entry>, ip: string)
    ensures Find(es, ip) >= 0 ==> forall k | 0 <= k < Find(es, ip) :: es[k].ip != ip
    ensures Find(es, ip) == -1 <==> forall k | 0 <= k < |es| :: es[k].ip != ip
  {
    if |es| > 0 {
      FindIsFirst(es[..|es| - 1], ip);
    }
  }

  /** The result depends on the addresses only. */
  lemma {:induction false} FindSame(es: seq<Entry>, fs: seq<Entry>, ip: string)
    requires |es| == |fs| && forall k | 0 <= k < |es| :: es[k].ip == fs[k].ip
    ensures Find(es, ip) == Find(fs, ip)
  {
    if |es| > 0 {
      FindSame(es[..|es| - 1], fs[..|fs| - 1], ip);
    }
  }

  /** The difference of two unsigned 64-bit clock readings. */
  function Elapsed(now: int, last: int): int {
    (now - last) % WRAP
  }

  function Refilled(e: Entry, rate: int, now: int): Entry {
    var t := e.tokens + Elapsed(now, e.lastRefillMs) * rate;
    e.(tokens := if t > COST * rate then COST * rate else t, lastRefillMs := now)
  }

  function Spend(e: Entry, rate: int, now: int): (r: (Entry, bool)) {
    var f := Refilled(e, rate, now);
    if f.tokens >= COST then (f.(tokens := f.tokens - COST), true) else (f, false)
  }

  function Check(l: Limiter, c: Call): (r: (Limiter, bool)) {
    var i := Find(l.entries, c.ip);
    if i >= 0 then
      var (e, ok) := Spend(l.entries[i], l.rate, c.now);
      (l.(entries := l.entries[i := e]), ok)
    else if |l.entries| >= RL_MAX then (l, true)
    else
      var (e, ok) := Spend(Entry(Stored(c.ip), COST * l.rate, c.created), l.rate, c.now);
      (l.(entries := l.entries + [e]), ok)
  }

  class RateLimiter {
    const entries: array<Entry>
    var count: nat
    const rate: int

    ghost predicate Valid()
      reads this, entries
    {
      entries.Length == RL_MAX && count <= RL_MAX
    }

    ghost function Value(): Limiter
      requires Valid()
      reads this, entries
    {
      Limiter(entries[..count], rate)
    }

    constructor (rate: int)
      ensures Valid() && fresh(entries)
      ensures Value() == Limiter([], rate)
    {
      entries := new Entry[RL_MAX](_ => Entry("", 0, 0));
      count := 0;
      this.rate := rate;
    }

    /** The index of the entry of ip, made on the spot if there is room; -1 for the null pointer. */
    method FindOrCreate(ip: string, created: int) returns (i: int)
      requires Valid()
      modifies this`count, entries
      ensures Valid()
      ensures old(Find(entries[..count], ip)) >= 0 ==> i == old(Find(entries[..count], ip)) && Value() == old(Value())
      ensures old(Find(entries[..count], ip)) == -1 && old(count) == RL_MAX ==> i == -1 && Value() == old(Value())
      ensures old(Find(entries[..count], ip)) == -1 && old(count) < RL_MAX ==>
        i == old(count) && entries[..count] == old(entries[..count]) + [Entry(Stored(ip), COST * rate, created)]
    {
      i := 0;
      while i < count
        invariant 0 <= i <= count
        invariant Find(entries[..i], ip) == -1
      {
        assert entries[..i + 1][..i] == entries[..i];
        if entries[i].ip == ip {
          PrefixFind(entries[..i + 1], entries[..count], ip);
          return i;
        }
        i := i + 1;
      }
      if count >= RL_MAX {
        return -1;
      }
      entries[count] := Entry(Stored(ip), COST * rate, created);
      count := count + 1;
      return count - 1;
    }

    method CheckIp(ip: string, created: int, now: int) returns (ok: bool)
      requires Valid()
      modifies this`count, entries
      ensures Valid()
      ensures Value() == Check(old(Value()), Call(ip, created, now)).0
      ensures ok == Check(old(Value()), Call(ip, created, now)).1
    {
      ghost var was := Value();
      var i := FindOrCreate(ip, created);
      if i < 0 {
        return true;
      }
      var e := entries[i];
      var t := e.tokens + Elapsed(now, e.lastRefillMs) * rate;
      if t > COST * rate {
        t := COST * rate;
      }
      ok := t >= COST;
      if ok {
        t := t - COST;
      }
      entries[i] := e.(tokens := t, lastRefillMs := now);
      assert Value().entries == if Find(was.entries, ip) >= 0
        then was.entries[i := entries[i]] else was.entries + [entries[i]];
    }
  }

  lemma {:induction false} PrefixFind(es: seq<Entry>, fs: seq<Entry>, ip: string)
    requires es <= fs && Find(es, ip) >= 0
    ensures Find(fs, ip) == Find(es, ip)
  {
    if |es| < |fs| {
      PrefixFind(es, fs[..|fs| - 1], ip);
    } else {
      assert es == fs;
    }
  }

  // ----- Runs -----

  function State(rate: int, calls: seq<Call>): (l: Limiter)
    ensures l.rate == rate
  {
    if |calls| == 0 then Limiter([], rate) else Check(State(rate, calls[..|calls| - 1]), calls[|calls| - 1]).0
  }

  lemma StateOneMore(rate: int, calls: seq<Call>, c: Call)
    ensures State(rate, calls + [c]) == Check(State(rate, calls), c).0
  {
    hide Check;
    assert (calls + [c])[..|calls|] == calls;
  }

  /** The answers a run of checks gets. */
  function Verdicts(rate: int, calls: seq<Call>): (v: seq<bool>)
    ensures |v| == |calls|
  {
    if |calls| == 0 then []
    else
      var past := calls[..|calls| - 1];
      Verdicts(rate, past) + [Check(State(rate, past), calls[|calls| - 1]).1]
  }

  lemma {:induction false} VerdictAt(rate: int, calls: seq<Call>, m: nat)
    requires m < |calls|
    ensures Verdicts(rate, calls)[m] == Check(State(rate, calls[..m]), calls[m]).1
  {
    var n := |calls| - 1;
    if m < n {
      VerdictAt(rate, calls[..n], m);
      assert calls[..n][..m] == calls[..m];
    }
  }

  /** The address of call m has an entry, or there is room to make one. */
  ghost predicate Held(rate: int, calls: seq<Call>, m: nat)
    requires m < |calls|
  {
    !ShutOut(State(rate, calls[..m]), calls[m].ip)
  }

  /** A 64-bit clock that does not run backwards. */
  ghost predicate Clock(calls: seq<Call>) {
    && (forall k | 0 <= k < |calls| :: 0 <= calls[k].created <= calls[k].now < 0x1_0000_0000_0000_0000)
    && (forall j, k | 0 <= j < k < |calls| :: calls[j].now <= calls[k].created)
  }

  /** The address fits its field, and no over-long address is cut down to it. */
  ghost predicate Own(calls: seq<Call>, ip: string) {
    |ip| < 64 && forall k | 0 <= k < |calls| && calls[k].ip != ip :: Stored(calls[k].ip) != ip
  }

  function Before(rate: int, b: Option<Entry>, c: Call): (e: Entry)
  {
    match b
    case None => Entry(Stored(c.ip), 1000 * rate, c.created)
    case Some(e) => e
  }

  /** What call c does to the bucket of ip: nothing if it comes from someone else. */
  function Fed(rate: int, b: Option<Entry>, c: Call, ip: string): (r: Option<Entry>)
  {
    if c.ip != ip then b else Some(Spend(Before(rate, b, c), rate, c.now).0)
  }

  /** The bucket of one address, fed by its own calls alone. */
  function Bucket(rate: int, calls: seq<Call>, ip: string): Option<Entry> {
    if |calls| == 0 then None
    else Fed(rate, Bucket(rate, calls[..|calls| - 1], ip), calls[|calls| - 1], ip)
  }

  lemma {:induction false} BucketKeepsAddress(rate: int, calls: seq<Call>, ip: string)
    ensures Bucket(rate, calls, ip).Some? ==> Bucket(rate, calls, ip).value.ip == Stored(ip)
  {
    if |calls| > 0 {
      BucketKeepsAddress(rate, calls[..|calls| - 1], ip);
    }
  }

  ghost predicate HoldsBucket(l: Limiter, ip: string, b: Option<Entry>) {
    var i := Find(l.entries, ip);
    if i >= 0 then b == Some(l.entries[i]) else b == None || |l.entries| >= 1024
  }

  lemma CheckHoldsBucket(l: Limiter, ip: string, b: Option<Entry>, c: Call)
    requires HoldsBucket(l, ip, b) && |ip| < 64
    requires c.ip != ip ==> Stored(c.ip) != ip
    requires b.Some? ==> b.value.ip == ip
    ensures HoldsBucket(Check(l, c).0, ip, Fed(l.rate, b, c, ip))
  {
    var es, fs := l.entries, Check(l, c).0.entries;
    if Find(es, c.ip) >= 0 || |es| >= 1024 {
      FindSame(es, fs, ip);
    } else if Find(es, ip) >= 0 {
      PrefixFind(es, fs, ip);
    } else {
      assert fs[..|es|] == es;
    }
  }

  /** The table refines independent buckets: the entry of an address is the bucket of its own calls. */
  lemma {:induction false} TableIsBuckets(rate: int, calls: seq<Call>, ip: string)
    requires Own(calls, ip)
    ensures HoldsBucket(State(rate, calls), ip, Bucket(rate, calls, ip))
  {
    if |calls| > 0 {
      var past := calls[..|calls| - 1];
      TableIsBuckets(rate, past, ip);
      BucketKeepsAddress(rate, past, ip);
      CheckHoldsBucket(State(rate, past), ip, Bucket(rate, past, ip), calls[|calls| - 1]);
    }
  }

  /** The answer the bucket of call m's address alone would give. */
  function BucketVerdict(rate: int, calls: seq<Call>, m: nat): bool
    requires m < |calls|
  {
    Spend(Before(rate, Bucket(rate, calls[..m], calls[m].ip), calls[m]), rate, calls[m].now).1
  }

  /** A held address gets the answer of its own bucket; when the table is full, anyone else passes. */
  lemma VerdictIsOwn(rate: int, calls: seq<Call>, m: nat)
    requires m < |calls| && Own(calls, calls[m].ip)
    ensures Verdicts(rate, calls)[m] == (Held(rate, calls, m) ==> BucketVerdict(rate, calls, m))
  {
    VerdictAt(rate, calls, m);
    TableIsBuckets(rate, calls[..m], calls[m].ip);
  }

  ghost predicate ShutOut(l: Limiter, ip: string) {
    Find(l.entries, ip) == -1 && |l.entries| >= 1024
  }

  lemma ShutOutStays(l: Limiter, c: Call, ip: string)
    requires ShutOut(l, ip)
    ensures ShutOut(Check(l, c).0, ip)
  {
    FindSame(l.entries, Check(l, c).0.entries, ip);
  }

  lemma {:induction false} NotHeldStays(rate: int, past: seq<Call>, later: seq<Call>, ip: string)
    requires ShutOut(State(rate, past), ip)
    ensures ShutOut(State(rate, past + later), ip)
  {
    hide Check, Find, ShutOut, State;
    if later == [] {
      assert past + later == past;
    } else {
      var n := |later| - 1;
      NotHeldStays(rate, past, later[..n], ip);
      assert past + later == (past + later[..n]) + [later[n]];
      StateOneMore(rate, past + later[..n], later[n]);
      ShutOutStays(State(rate, past + later[..n]), later[n], ip);
    }
  }

  lemma HeldBefore(rate: int, calls: seq<Call>, k: nat, m: nat)
    requires k <= m < |calls| && calls[k].ip == calls[m].ip && Held(rate, calls, m)
    ensures Held(rate, calls, k)
  {
    assert calls[..k] + calls[k..m] == calls[..m];
    if !Held(rate, calls, k) {
      NotHeldStays(rate, calls[..k], calls[k..m], calls[k].ip);
    }
  }

  // ----- Which calls are admitted -----

  /** How many of the calls j .. m - 1 from ip the verdicts v admit. */
  function Admitted(calls: seq<Call>, v: seq<bool>, ip: string, j: nat, m: nat): nat
    requires j <= m <= |calls| == |v|
  {
    if m == j then 0 else Admitted(calls, v, ip, j, m - 1) + if calls[m - 1].ip == ip && v[m - 1] then 1 else 0
  }

  /**
   The window from call j to call m still has room for call m, in thousandths of a token: a call costs 1000, a
   millisecond brings `rate`, and the bucket holds 1000 for each of `rate`.
   */
  ghost predicate Room(rate: int, calls: seq<Call>, v: seq<bool>, j: nat, m: nat)
    requires j <= m < |calls| == |v|
  {
    1000 * (Admitted(calls, v, calls[m].ip, j, m) + 1) <= 1000 * rate + rate * (calls[m].now - calls[j].now)
  }

  /** What a window of the given age, with that many admissions in it, still allows. */
  function Left(rate: int, age: int, admitted: int): int {
    1000 * rate + rate * age - 1000 * admitted
  }

  lemma LeftAges(rate: int, age: int, more: int, admitted: int, hit: int)
    ensures Left(rate, age + more, admitted + hit) == Left(rate, age, admitted) + more * rate - 1000 * hit
  {
  }

  function LeftAt(rate: int, calls: seq<Call>, v: seq<bool>, ip: string, j: nat, m: nat, t: int): int
    requires j < m <= |calls| == |v|
  {
    Left(rate, t - calls[j].now, Admitted(calls, v, ip, j, m))
  }

  /** The entry holds the least of what the windows of its calls leave, as of its last refill. */
  ghost predicate Tightest(rate: int, calls: seq<Call>, v: seq<bool>, ip: string, e: Entry, m: nat)
    requires m <= |calls| == |v|
  {
    && (exists j: nat | j < m :: calls[j].ip == ip && e.lastRefillMs == calls[j].now)
    && (forall j: nat | j < m && calls[j].ip == ip :: e.tokens <= LeftAt(rate, calls, v, ip, j, m, e.lastRefillMs))
    && (exists j: nat | j < m :: calls[j].ip == ip && e.tokens == LeftAt(rate, calls, v, ip, j, m, e.lastRefillMs))
  }

  lemma ElapsedIs(now: int, last: int)
    requires 0 <= last <= now < 0x1_0000_0000_0000_0000
    ensures Elapsed(now, last) == now - last
  {
  }

  /** If the clock ran backwards, the difference would wrap. */
  lemma ElapsedWraps(now: int, last: int)
    requires 0 <= now < last < 0x1_0000_0000_0000_0000
    ensures Elapsed(now, last) == now - last + 0x1_0000_0000_0000_0000
  {
  }

  lemma LeftLater(rate: int, calls: seq<Call>, v: seq<bool>, ip: string, j: nat, m: nat, last: int)
    requires j < m < |calls| == |v| && calls[m].ip == ip
    ensures LeftAt(rate, calls, v, ip, j, m + 1, calls[m].now)
         == LeftAt(rate, calls, v, ip, j, m, last) + (calls[m].now - last) * rate - 1000 * if v[m] then 1 else 0
  {
    LeftAges(rate, last - calls[j].now, calls[m].now - last, Admitted(calls, v, ip, j, m), if v[m] then 1 else 0);
  }

  lemma TightestSkips(rate: int, calls: seq<Call>, v: seq<bool>, ip: string, e: Entry, m: nat)
    requires m < |calls| == |v| && calls[m].ip != ip && Tightest(rate, calls, v, ip, e, m)
    ensures Tightest(rate, calls, v, ip, e, m + 1)
  {
    forall j: nat | j < m
      ensures LeftAt(rate, calls, v, ip, j, m + 1, e.lastRefillMs) == LeftAt(rate, calls, v, ip, j, m, e.lastRefillMs)
    {
    }
  }

  lemma TightestStarts(rate: int, calls: seq<Call>, v: seq<bool>, ip: string, m: nat, e: Entry)
    requires rate > 0 && Clock(calls) && m < |calls| == |v| && calls[m].ip == ip
    requires forall j: nat | j < m :: calls[j].ip != ip
    requires (e, v[m]) == Spend(Entry(ip, 1000 * rate, calls[m].created), rate, calls[m].now)
    ensures Tightest(rate, calls, v, ip, e, m + 1)
  {
    var c := calls[m];
    ElapsedIs(c.now, c.created);
    assert Elapsed(c.now, c.created) * rate >= 0;
    assert Admitted(calls, v, ip, m, m) == 0;
    assert e.tokens == LeftAt(rate, calls, v, ip, m, m + 1, c.now);
  }

  lemma TightestSpends(rate: int, calls: seq<Call>, v: seq<bool>, ip: string, m: nat, b: Entry, e: Entry)
    requires Clock(calls) && m < |calls| == |v| && calls[m].ip == ip
    requires Tightest(rate, calls, v, ip, b, m)
    requires (e, v[m]) == Spend(b, rate, calls[m].now)
    ensures Tightest(rate, calls, v, ip, e, m + 1)
  {
    var now, last := calls[m].now, b.lastRefillMs;
    ElapsedIs(now, last);
    forall j: nat | j < m + 1 && calls[j].ip == ip ensures e.tokens <= LeftAt(rate, calls, v, ip, j, m + 1, now) {
      if j < m {
        LeftLater(rate, calls, v, ip, j, m, last);
      } else {
        assert Admitted(calls, v, ip, m, m) == 0;
      }
    }
    var j: nat :| j < m && calls[j].ip == ip && b.tokens == LeftAt(rate, calls, v, ip, j, m, last);
    LeftLater(rate, calls, v, ip, j, m, last);
    assert Admitted(calls, v, ip, m, m) == 0;
    assert e.tokens == LeftAt(rate, calls, v, ip, j, m + 1, now)
        || e.tokens == LeftAt(rate, calls, v, ip, m, m + 1, now);
  }

  ghost predicate FollowsAt(rate: int, calls: seq<Call>, v: seq<bool>, k: nat)
    requires k < |calls| == |v|
  {
    v[k] == BucketVerdict(rate, calls, k)
  }

  /** The verdicts on ip are those of its bucket, up to call m. */
  ghost predicate Follows(rate: int, calls: seq<Call>, v: seq<bool>, ip: string, m: nat)
    requires m <= |calls| == |v|
  {
    forall k: nat {:trigger FollowsAt(rate, calls, v, k)} | k < m && calls[k].ip == ip :: FollowsAt(rate, calls, v, k)
  }

  ghost predicate BucketIs(rate: int, calls: seq<Call>, v: seq<bool>, ip: string, m: nat, b: Option<Entry>)
    requires m <= |calls| == |v|
  {
    if b.Some? then Tightest(rate, calls, v, ip, b.value, m) else forall k: nat | k < m :: calls[k].ip != ip
  }

  lemma BucketStep(rate: int, calls: seq<Call>, v: seq<bool>, ip: string, m: nat, b: Option<Entry>)
    requires rate > 0 && Clock(calls) && |ip| < 64 && m < |calls| == |v|
    requires BucketIs(rate, calls, v, ip, m, b)
    requires b.Some? ==> b.value.ip == ip
    requires calls[m].ip == ip ==> v[m] == Spend(Before(rate, b, calls[m]), rate, calls[m].now).1
    ensures BucketIs(rate, calls, v, ip, m + 1, Fed(rate, b, calls[m], ip))
  {
    var e := if calls[m].ip == ip then Spend(Before(rate, b, calls[m]), rate, calls[m].now).0 else Entry(ip, 0, 0);
    if calls[m].ip == ip {
      if b.Some? {
        TightestSpends(rate, calls, v, ip, m, b.value, e);
      } else {
        TightestStarts(rate, calls, v, ip, m, e);
      }
    } else if b.Some? {
      TightestSkips(rate, calls, v, ip, b.value, m);
    }
  }

  /** The bucket of an address always holds the least of what its windows leave. */
  lemma {:induction false} BucketIsTightest(rate: int, calls: seq<Call>, v: seq<bool>, ip: string, m: nat)
    requires rate > 0 && Clock(calls) && |ip| < 64 && m <= |calls| == |v|
    requires Follows(rate, calls, v, ip, m)
    ensures BucketIs(rate, calls, v, ip, m, Bucket(rate, calls[..m], ip))
  {
    if m > 0 {
      BucketIsTightest(rate, calls, v, ip, m - 1);
      assert calls[..m][..m - 1] == calls[..m - 1];
      assert calls[m - 1].ip == ip ==> FollowsAt(rate, calls, v, m - 1);
      BucketKeepsAddress(rate, calls[..m - 1], ip);
      BucketStep(rate, calls, v, ip, m - 1, Bucket(rate, calls[..m - 1], ip));
      assert Bucket(rate, calls[..m], ip) == Fed(rate, Bucket(rate, calls[..m - 1], ip), calls[m - 1], ip);
    }
  }

  lemma FreshAdmits(ip: string, rate: int, created: int, now: int)
    requires rate > 0 && 0 <= created <= now < 0x1_0000_0000_0000_0000
    ensures Spend(Entry(ip, 1000 * rate, created), rate, now).1
  {
    ElapsedIs(now, created);
    assert Elapsed(now, created) * rate >= 0;
  }

  lemma TightestAdmits(rate: int, calls: seq<Call>, v: seq<bool>, m: nat, b: Entry)
    requires Clock(calls) && m < |calls| == |v|
    requires Tightest(rate, calls, v, calls[m].ip, b, m)
    ensures Spend(b, rate, calls[m].now).1 <==>
      forall j: nat | j <= m && calls[j].ip == calls[m].ip :: Room(rate, calls, v, j, m)
  {
    var ip, now, last := calls[m].ip, calls[m].now, b.lastRefillMs;
    ElapsedIs(now, last);
    var t := b.tokens + (now - last) * rate;
    forall j: nat | j < m && calls[j].ip == ip
      ensures Room(rate, calls, v, j, m) <==> LeftAt(rate, calls, v, ip, j, m, last) + (now - last) * rate >= 1000
    {
      LeftAges(rate, last - calls[j].now, now - last, Admitted(calls, v, ip, j, m), 0);
    }
    assert Room(rate, calls, v, m, m) <==> 1000 * rate >= 1000;
    var j: nat :| j < m && calls[j].ip == ip && b.tokens == LeftAt(rate, calls, v, ip, j, m, last);
    assert Room(rate, calls, v, j, m) <==> t >= 1000;
  }

  lemma WindowOfOne(rate: int, calls: seq<Call>, v: seq<bool>, m: nat)
    requires rate > 0 && m < |calls| == |v|
    ensures Room(rate, calls, v, m, m)
  {
    assert Admitted(calls, v, calls[m].ip, m, m) == 0;
  }

  lemma AdmitsIffRoom(rate: int, calls: seq<Call>, m: nat)
    requires m < |calls| && Clock(calls) && Own(calls, calls[m].ip) && Held(rate, calls, m)
    ensures Verdicts(rate, calls)[m] <==>
      forall j: nat | j <= m && calls[j].ip == calls[m].ip :: Room(rate, calls, Verdicts(rate, calls), j, m)
  {
    var c, v := calls[m], Verdicts(rate, calls);
    VerdictIsOwn(rate, calls, m);
    if rate <= 0 {
      assert !Room(rate, calls, v, m, m);
    } else {
      forall k: nat | k < m && calls[k].ip == c.ip ensures FollowsAt(rate, calls, v, k) {
        HeldBefore(rate, calls, k, m);
        VerdictIsOwn(rate, calls, k);
      }
      BucketIsTightest(rate, calls, v, c.ip, m);
      var b := Bucket(rate, calls[..m], c.ip);
      if b.Some? {
        TightestAdmits(rate, calls, v, m, b.value);
      } else {
        FreshAdmits(c.ip, rate, c.created, c.now);
        WindowOfOne(rate, calls, v, m);
      }
    }
  }

  /**
   A held address is admitted exactly when every window that opened at one of its calls, this one included,
   has had no more than its allowance. Any rate, any run, any interleaving with other addresses.
   */
  lemma AdmitsExactly(rate: int, calls: seq<Call>, m: nat)
    requires m < |calls| && Clock(calls) && Own(calls, calls[m].ip) && Held(rate, calls, m)
    ensures var c, v := calls[m], Verdicts(rate, calls);
      v[m] <==> forall j: nat | j <= m && calls[j].ip == c.ip ::
        1000 * (Admitted(calls, v, c.ip, j, m) + 1) <= 1000 * rate + rate * (c.now - calls[j].now)
  {
    hide Verdicts, Admitted, Clock, Own, Held;
    var c, v := calls[m], Verdicts(rate, calls);
    AdmitsIffRoom(rate, calls, m);
    assert forall j: nat | j <= m && calls[j].ip == c.ip ::
      Room(rate, calls, v, j, m) <==>
        1000 * (Admitted(calls, v, c.ip, j, m) + 1) <= 1000 * rate + rate * (c.now - calls[j].now);
  }

  // ----- No conforming policy admits more -----

  /** The verdicts keep every window of ip within its allowance. */
  ghost predicate Conforms(rate: int, calls: seq<Call>, v: seq<bool>, ip: string)
    requires |v| == |calls|
  {
    forall j: nat, m: nat | j <= m < |calls| && calls[j].ip == ip && calls[m].ip == ip && v[m] ::
      Room(rate, calls, v, j, m)
  }

  lemma {:induction false} AdmittedSplits(calls: seq<Call>, v: seq<bool>, ip: string, j: nat, m: nat)
    requires j <= m <= |calls| == |v|
    ensures Admitted(calls, v, ip, 0, m) == Admitted(calls, v, ip, 0, j) + Admitted(calls, v, ip, j, m)
  {
    if j < m {
      AdmittedSplits(calls, v, ip, j, m - 1);
    }
  }

  /** Where the greedy verdicts v turn a call away and p admits it, v has admitted more before. */
  lemma GreedyIsAhead(rate: int, calls: seq<Call>, v: seq<bool>, p: seq<bool>, ip: string, j: nat, n: nat)
    requires j <= n < |calls| == |p| == |v| && calls[n].ip == ip
    requires Room(rate, calls, p, j, n) && !Room(rate, calls, v, j, n)
    requires Admitted(calls, p, ip, 0, j) <= Admitted(calls, v, ip, 0, j)
    ensures Admitted(calls, p, ip, 0, n) < Admitted(calls, v, ip, 0, n)
  {
    hide Admitted;
    AdmittedSplits(calls, p, ip, j, n);
    AdmittedSplits(calls, v, ip, j, n);
  }

  /** A policy that turns no caller away while it has room cannot be beaten by a conforming one. */
  lemma {:induction false} GreedyIsBest(rate: int, calls: seq<Call>, v: seq<bool>, p: seq<bool>, ip: string, m: nat)
    requires m <= |calls| == |p| == |v|
    requires forall k: nat | k < m && calls[k].ip == ip && !v[k] ::
      exists j: nat | j <= k :: calls[j].ip == ip && !Room(rate, calls, v, j, k)
    requires Conforms(rate, calls, p, ip)
    ensures forall n: nat | n <= m :: Admitted(calls, p, ip, 0, n) <= Admitted(calls, v, ip, 0, n)
  {
    hide Room;
    if m > 0 {
      var n := m - 1;
      GreedyIsBest(rate, calls, v, p, ip, n);
      if calls[n].ip == ip && p[n] && !v[n] {
        var j: nat :| j <= n && calls[j].ip == ip && !Room(rate, calls, v, j, n);
        GreedyIsAhead(rate, calls, v, p, ip, j, n);
      }
    }
  }

  /** The limiter conforms, and it is the best: after any number of calls no conforming policy has admitted more. */
  lemma LimiterIsBest(rate: int, calls: seq<Call>, ip: string)
    requires Clock(calls) && Own(calls, ip)
    requires forall k: nat | k < |calls| && calls[k].ip == ip :: Held(rate, calls, k)
    ensures Conforms(rate, calls, Verdicts(rate, calls), ip)
    ensures forall p: seq<bool>, n: nat | |p| == |calls| && n <= |calls| && Conforms(rate, calls, p, ip) ::
      Admitted(calls, p, ip, 0, n) <= Admitted(calls, Verdicts(rate, calls), ip, 0, n)
  {
    var v := Verdicts(rate, calls);
    forall m: nat | m < |calls| && calls[m].ip == ip
      ensures v[m] <==> forall j: nat | j <= m && calls[j].ip == ip :: Room(rate, calls, v, j, m)
    {
      AdmitsIffRoom(rate, calls, m);
    }
    forall p: seq<bool>, n: nat | |p| == |calls| && n <= |calls| && Conforms(rate, calls, p, ip)
      ensures Admitted(calls, p, ip, 0, n) <= Admitted(calls, v, ip, 0, n)
    {
      GreedyIsBest(rate, calls, v, p, ip, n);
    }
  }

  lemma MoreTime(rate: int, from: int, t: int, u: int)
    requires rate >= 0 && from <= t <= u
    ensures 0 <= rate * (t - from) <= rate * (u - from)
  {
  }

  lemma LessTime(rate: int, start: int, later: int, t: int)
    requires rate >= 0 && start <= later
    ensures rate * (t - later) <= rate * (t - start)
  {
  }

  /** Whatever the window, conforming verdicts admit no more in it than a full bucket and the refill since it opened. */
  lemma {:induction false} WindowBound(rate: int, calls: seq<Call>, v: seq<bool>, ip: string, j: nat, m: nat, t: int)
    requires j < m <= |calls| == |v| && rate >= 0 && Clock(calls) && Conforms(rate, calls, v, ip)
    requires calls[j].ip == ip && calls[m - 1].now <= t
    ensures 1000 * Admitted(calls, v, ip, j, m) <= 1000 * rate + rate * (t - calls[j].now)
  {
    var n := m - 1;
    assert calls[j].now <= calls[n].now;
    MoreTime(rate, calls[j].now, calls[n].now, t);
    if calls[n].ip == ip && v[n] {
      assert Room(rate, calls, v, j, n);
    } else if j < n {
      assert calls[n - 1].now <= calls[n].now;
      WindowBound(rate, calls, v, ip, j, n, t);
    }
  }

  // ----- Addresses that do not fit their field -----

  lemma {:induction false} EntriesFit(rate: int, calls: seq<Call>)
    ensures forall k | 0 <= k < |State(rate, calls).entries| :: |State(rate, calls).entries[k].ip| < 64
  {
    if |calls| > 0 {
      EntriesFit(rate, calls[..|calls| - 1]);
    }
  }

  /** An over-long address is never found again: each of its checks meets a fresh bucket and passes. */
  lemma LongAddressIsNotLimited(rate: int, calls: seq<Call>, m: nat)
    requires m < |calls| && |calls[m].ip| >= 64 && rate > 0 && Clock(calls)
    ensures Verdicts(rate, calls)[m]
  {
    VerdictAt(rate, calls, m);
    EntriesFit(rate, calls[..m]);
    FindIsFirst(State(rate, calls[..m]).entries, calls[m].ip);
    FreshAdmits(Stored(calls[m].ip), rate, calls[m].created, calls[m].now);
  }
}
