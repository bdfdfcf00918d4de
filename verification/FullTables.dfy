/** Rewriting twice without configured headers, also when the table was too full the first time. */
module FullTables {
  import opened Bytes
  import opened Fnv
  import opened HeaderTable
  import opened HeaderSets
  import opened Options
  import opened Rewrite
  import opened Gatekeeping
  import opened Forwarding
  import opened Idempotence

  // ----- Which pairs a table takes -----

  /** Pair i finds room when its turn comes. */
  predicate Taken(hs: seq<Header>, sets: seq<Pair>, i: nat)
    requires i < |sets|
  {
    |Without(SetAll(hs, sets[..i]), sets[i].name)| < 32
  }

  /** The entries of the pairs that were taken, in order. */
  function Kept(hs: seq<Header>, sets: seq<Pair>): seq<Header> {
    if |sets| == 0 then []
    else
      var n := |sets| - 1;
      Kept(hs, sets[..n]) + if Taken(hs, sets, n) then [Made(sets[n].name, sets[n].value)] else []
  }

  lemma {:induction false} KeptMembers(hs: seq<Header>, sets: seq<Pair>, e: Header)
    requires e in Kept(hs, sets)
    ensures exists i | 0 <= i < |sets| :: e == Made(sets[i].name, sets[i].value)
  {
    hide Taken, Made;
    var n := |sets| - 1;
    if e in Kept(hs, sets[..n]) {
      KeptMembers(hs, sets[..n], e);
      var i :| 0 <= i < n && e == Made(sets[..n][i].name, sets[..n][i].value);
      assert e == Made(sets[i].name, sets[i].value);
    } else {
      assert e == Made(sets[n].name, sets[n].value);
    }
  }

  ghost predicate NotAmong(sets: seq<Pair>, name: Bytes) {
    forall i | 0 <= i < |sets| :: Key(sets[i]) != name
  }

  lemma KeptOthers(hs: seq<Header>, sets: seq<Pair>, p: Pair)
    requires NotAmong(sets, Key(p))
    ensures Outside(Kept(hs, sets), {Key(p)}) == Kept(hs, sets)
  {
    hide Taken, Made, Key, Kept, Called, CStr;
    forall e | e in Kept(hs, sets) ensures !Dropped(e, {Key(p)}) {
      KeptMembers(hs, sets, e);
      var i :| 0 <= i < |sets| && e == Made(sets[i].name, sets[i].value);
      MadeIsCalled(sets[i]);
    }
    OutsideIsAll(Kept(hs, sets), {Key(p)});
  }

  lemma FrontDistinct(sets: seq<Pair>)
    requires Distinct(sets) && |sets| > 0
    ensures Distinct(sets[..|sets| - 1]) && NotAmong(sets[..|sets| - 1], Key(sets[|sets| - 1]))
  {
    hide Key;
  }

  /** For different names, with or without room: the others, then the pairs that were taken. */
  lemma {:induction false} DistinctShape(hs: seq<Header>, sets: seq<Pair>)
    requires Sized(hs) && Distinct(sets)
    ensures SetAll(hs, sets) == Outside(hs, Names(sets)) + Kept(hs, sets)
  {
    hide SetTo, Outside, Made, Key, Without, Distinct, NotAmong;
    if |sets| == 0 {
      OutsideNothing(hs);
    } else {
      var n := |sets| - 1;
      var t, p, m, k := SetAll(hs, sets[..n]), sets[n], Names(sets[..n]), Kept(hs, sets[..n]);
      FrontDistinct(sets);
      DistinctShape(hs, sets[..n]);
      SetAllSized(hs, sets[..n]);
      SetToIs(t, p);
      RemovedKey(t, p);
      OutsideAppend(Outside(hs, m), k, {Key(p)});
      OutsideTwice(hs, m, {Key(p)});
      KeptOthers(hs, sets[..n], p);
      Associate(Outside(hs, m + {Key(p)}), k, [Made(p.name, p.value)]);
    }
  }

  /** Whether a pair is taken is a matter of sizes. */
  lemma TakenIff(hs: seq<Header>, sets: seq<Pair>, i: nat)
    requires Sized(hs) && Distinct(sets) && i < |sets|
    ensures Taken(hs, sets, i) <==>
      |Outside(hs, Names(sets[..i]) + {Key(sets[i])})| + |Kept(hs, sets[..i])| < 32
  {
    hide SetAll, Outside, Key, Without, Distinct, Names, Kept, NotAmong;
    var m, k, p := Names(sets[..i]), Kept(hs, sets[..i]), sets[i];
    PrefixDistinct(sets, i);
    DistinctShape(hs, sets[..i]);
    RemovedKey(SetAll(hs, sets[..i]), p);
    OutsideAppend(Outside(hs, m), k, {Key(p)});
    OutsideTwice(hs, m, {Key(p)});
    KeptOthers(hs, sets[..i], p);
  }

  lemma PrefixDistinct(sets: seq<Pair>, i: nat)
    requires Distinct(sets) && i < |sets|
    ensures Distinct(sets[..i]) && NotAmong(sets[..i], Key(sets[i]))
  {
    hide Key;
  }

  lemma TakenPrefix(hs: seq<Header>, sets: seq<Pair>, n: nat, i: nat)
    requires i < n <= |sets|
    ensures Taken(hs, sets[..n], i) == Taken(hs, sets, i)
  {
    hide Without, SetAll;
    assert sets[..n][..i] == sets[..i];
  }

  /** A pair was taken exactly when its entry is there in the end. */
  lemma {:induction false} TakenIsThere(hs: seq<Header>, sets: seq<Pair>, i: nat)
    requires Sized(hs) && Distinct(sets) && i < |sets|
    ensures Taken(hs, sets, i) <==> Named(SetAll(hs, sets), Key(sets[i])) != []
    ensures |Named(SetAll(hs, sets), Key(sets[i]))| == if Taken(hs, sets, i) then 1 else 0
  {
    hide SetTo, Named, Made, Key, Outside, Without;
    var n := |sets| - 1;
    var t, p := SetAll(hs, sets[..n]), sets[n];
    SetAllSized(hs, sets[..n]);
    SetToNamed(t, p, Key(sets[i]));
    RemovedKey(t, p);
    if i < n {
      FrontDistinct(sets);
      TakenIsThere(hs, sets[..n], i);
      TakenPrefix(hs, sets, n, i);
    }
  }

  ghost predicate SameTaken(a: seq<Header>, b: seq<Header>, sets: seq<Pair>) {
    forall i: nat | i < |sets| :: Taken(a, sets, i) == Taken(b, sets, i)
  }

  lemma {:induction false} SameKept(a: seq<Header>, b: seq<Header>, sets: seq<Pair>)
    requires SameTaken(a, b, sets)
    ensures Kept(a, sets) == Kept(b, sets)
  {
    hide Taken, Made;
    if |sets| > 0 {
      var n := |sets| - 1;
      forall i: nat | i < n ensures Taken(a, sets[..n], i) == Taken(b, sets[..n], i) {
        TakenPrefix(a, sets, n, i);
        TakenPrefix(b, sets, n, i);
      }
      SameKept(a, b, sets[..n]);
    }
  }

  /** Two tables that agree outside different names end up equal exactly when they take the same pairs. */
  lemma SameEndIff(a: seq<Header>, b: seq<Header>, sets: seq<Pair>)
    requires Sized(a) && Sized(b) && Distinct(sets)
    requires Outside(a, Names(sets)) == Outside(b, Names(sets))
    ensures SetAll(a, sets) == SetAll(b, sets) <==> SameTaken(a, b, sets)
  {
    hide SetAll, Outside, Names, Taken, Kept, Distinct, Named;
    if SameTaken(a, b, sets) {
      DistinctShape(a, sets);
      DistinctShape(b, sets);
      SameKept(a, b, sets);
    }
    if SetAll(a, sets) == SetAll(b, sets) {
      forall i: nat | i < |sets| ensures Taken(a, sets, i) == Taken(b, sets, i) {
        TakenIsThere(a, sets, i);
        TakenIsThere(b, sets, i);
      }
    }
  }

  // ----- The standard headers, by numbers -----

  function Min(a: int, b: int): int {
    if a < b then a else b
  }

  /** Pairs for stripped names are taken one after the other until the table is full. */
  lemma {:induction false} StrippedTaken(hs: seq<Header>, sets: seq<Pair>, i: nat)
    requires Sized(hs) && Distinct(sets) && Names(sets) <= Forged() && i < |sets|
    ensures var c := |Outside(hs, Forged())|;
      && (Taken(Outside(hs, Forged()), sets, i) <==> c + i < 32)
      && |Kept(Outside(hs, Forged()), sets[..i + 1])| == Min(i + 1, 32 - c)
    decreases i
  {
    hide Outside, Key, Taken, Forged, Distinct, Names, SetAll, Without;
    var h0 := Outside(hs, Forged());
    NamesUpTo(sets, i);
    TakenIff(h0, sets, i);
    OutsideTwice(hs, Forged(), Names(sets[..i]) + {Key(sets[i])});
    assert Forged() + (Names(sets[..i]) + {Key(sets[i])}) == Forged();
    if i > 0 {
      StrippedTaken(hs, sets, i - 1);
    }
    KeptOneMore(h0, sets, i);
  }

  lemma KeptOneMore(hs: seq<Header>, sets: seq<Pair>, i: nat)
    requires i < |sets|
    ensures |Kept(hs, sets[..i + 1])| == |Kept(hs, sets[..i])| + if Taken(hs, sets, i) then 1 else 0
    ensures i == 0 ==> Kept(hs, sets[..i]) == []
  {
    hide Taken, Made;
    assert sets[..i + 1][..i] == sets[..i];
    TakenPrefix(hs, sets, i + 1, i);
  }

  lemma NamesUpTo(sets: seq<Pair>, i: nat)
    requires i < |sets|
    ensures Names(sets[..i]) + {Key(sets[i])} <= Names(sets)
  {
    hide Key;
    NamesOfFront(sets, i + 1);
    assert sets[..i + 1][..i] == sets[..i];
  }

  /** What a rewrite depends on: the length without forged names, and how many Via and X-Gateway-Req-Id there are. */
  datatype Numbers = Numbers(c: nat, v: nat, q: nat)

  function NumbersOf(hs: seq<Header>): Numbers {
    Numbers(|Outside(hs, Forged())|, |Named(hs, Lowered(VIA))|, |Named(hs, Lowered(REQ_ID))|)
  }

  /** Front header i finds room. */
  predicate PlaceFor(x: Numbers, i: nat) {
    x.c + i < 32
  }

  /** How many of the k headers in front are taken, and then Via, and then X-Gateway-Req-Id. */
  function FrontRoom(x: Numbers, k: nat): int {
    Min(k, 32 - x.c)
  }

  predicate ViaRoom(x: Numbers, k: nat) {
    x.c - x.v + FrontRoom(x, k) < 32
  }

  predicate IdRoom(x: Numbers, k: nat) {
    x.c - x.v - x.q + FrontRoom(x, k) + (if ViaRoom(x, k) then 1 else 0) < 32
  }

  lemma StandardTaken(hs: seq<Header>, host: Option<Bytes>, g: Gateway)
    requires Sized(hs)
    ensures var h0, std, x := Outside(hs, Forged()), Standard(host, g), NumbersOf(hs);
      var k := if host.Some? then 4 else 3;
      && |std| == k + 2
      && (forall i: nat | i < k :: Taken(h0, std, i) <==> PlaceFor(x, i))
      && (Taken(h0, std, k) <==> ViaRoom(x, k)) && (Taken(h0, std, k + 1) <==> IdRoom(x, k))
  {
    hide Lowered, Outside, Standard, Front, Taken, Forged, Names, Distinct, Kept, Named;
    var h0, f, std := Outside(hs, Forged()), Front(host, g), Standard(host, g);
    var p, q, k := Pair(VIA, ViaValue(g)), Pair(REQ_ID, g.reqId), |Front(host, g)|;
    FrontFacts(host, g);
    StandardDistinct(host, g);
    Counts(hs);
    assert std[..k] == f && std[..k + 1] == f + [p] && std[k] == p && std[k + 1] == q;
    forall i: nat | i < k ensures Taken(h0, std, i) <==> PlaceFor(NumbersOf(hs), i) {
      StrippedTaken(hs, f, i);
      TakenPrefix(h0, std, k, i);
    }
    StrippedTaken(hs, f, k - 1);
    assert f[..k] == f;
    NamesSnoc(f, p);
    TakenIff(h0, std, k);
    LeftOver(hs, Names(f) + {Key(p)}, Forged() + {Key(p)});
    TakenIff(h0, std, k + 1);
    LeftOver(hs, Names(f + [p]) + {Key(q)}, Injected());
    KeptOneMore(h0, std, k);
  }

  // ----- And a second time -----

  lemma NumbersAgain(hs: seq<Header>, g: Gateway)
    requires Sized(hs) && g.custom == []
    ensures var r, x := Rewritten(hs, g), NumbersOf(hs);
      var k := if Get(hs, HOST).Some? then 4 else 3;
      && Sized(r) && Get(r, HOST) == Get(hs, HOST) && Outside(r, Injected()) == Outside(hs, Injected())
      && NumbersOf(r).v == (if ViaRoom(x, k) then 1 else 0) && NumbersOf(r).q == (if IdRoom(x, k) then 1 else 0)
  {
    hide Hash, Lowered, Outside, Get, SetAll, Named, Rewritten, Standard, Taken, Forged, Names, Distinct, LastValue;
    var host, h0 := Get(hs, HOST), Outside(hs, Forged());
    var std, k := Standard(host, g), if host.Some? then 4 else 3;
    RewrittenSized(hs, g);
    SameHost(hs, g);
    NoCustomNames();
    OnlyTheGatewaySpeaks(hs, g, Lowered(VIA));
    assert Injected() + {} == Injected();
    RewriteIsSets(hs, g);
    assert std + g.custom == std;
    StandardDistinct(host, g);
    StandardTaken(hs, host, g);
    StandardKeys(host, g);
    TakenIsThere(h0, std, k);
    TakenIsThere(h0, std, k + 1);
  }

  lemma SameHost(hs: seq<Header>, g: Gateway)
    requires Sized(hs) && g.custom == []
    ensures Get(Rewritten(hs, g), HOST) == Get(hs, HOST)
  {
    hide Hash, Lowered, Outside, Get, SetAll, Names, Rewritten, Standard, Forged;
    HostStandsApart();
    NoCustomNames();
    SetsNames(hs, g);
    RewriteIsSets(hs, g);
    LookupUnderSets(hs, Forged(), Sets(hs, g), HOST);
  }

  lemma StandardKeys(host: Option<Bytes>, g: Gateway)
    ensures var std, k := Standard(host, g), if host.Some? then 4 else 3;
      |std| == k + 2 && Key(std[k]) == Lowered(VIA) && Key(std[k + 1]) == Lowered(REQ_ID)
  {
    hide Lowered, RealIp, ViaValue, CStr;
  }

  /** The same pairs are taken twice exactly when the numbers say so. */
  ghost predicate SameRoom(x: Numbers, y: Numbers, k: nat) {
    FrontRoom(x, k) == FrontRoom(y, k) && (ViaRoom(x, k) <==> ViaRoom(y, k)) && (IdRoom(x, k) <==> IdRoom(y, k))
  }

  lemma FrontRoomIff(x: Numbers, y: Numbers, k: nat)
    requires x.c <= 32 && y.c <= 32
    ensures FrontRoom(x, k) == FrontRoom(y, k) <==> forall i: nat | i < k :: PlaceFor(x, i) <==> PlaceFor(y, i)
  {
    if FrontRoom(x, k) < FrontRoom(y, k) {
      assert !PlaceFor(x, FrontRoom(x, k)) && PlaceFor(y, FrontRoom(x, k));
    } else if FrontRoom(y, k) < FrontRoom(x, k) {
      assert PlaceFor(x, FrontRoom(y, k)) && !PlaceFor(y, FrontRoom(y, k));
    }
  }

  lemma TwiceIffSameRoom(hs: seq<Header>, g: Gateway)
    requires Sized(hs) && g.custom == []
    ensures Rewritten(Rewritten(hs, g), g) == Rewritten(hs, g) <==>
      SameRoom(NumbersOf(hs), NumbersOf(Rewritten(hs, g)), if Get(hs, HOST).Some? then 4 else 3)
  {
    hide Hash, Lowered, Outside, Get, SetAll, Rewritten, Standard, Taken, Forged, Names, Distinct, NumbersOf;
    hide FrontRoom, ViaRoom, IdRoom, PlaceFor;
    var r, host := Rewritten(hs, g), Get(hs, HOST);
    var std, k := Standard(host, g), if host.Some? then 4 else 3;
    var a, b := Outside(hs, Forged()), Outside(r, Forged());
    NumbersAgain(hs, g);
    RewriteIsSets(hs, g);
    RewriteIsSets(r, g);
    assert std + g.custom == std;
    StandardDistinct(host, g);
    StandardNames(host, g);
    OutsideTwice(hs, Forged(), Names(std));
    OutsideTwice(r, Forged(), Names(std));
    assert Forged() + Names(std) == Injected() by {
      HostIsForged();
    }
    SameEndIff(a, b, std);
    StandardTaken(hs, host, g);
    StandardTaken(r, host, g);
    NumbersFit(hs);
    NumbersFit(r);
    FrontRoomIff(NumbersOf(hs), NumbersOf(r), k);
    SameTakenSplit(a, b, std, k);
  }

  lemma HostIsForged()
    ensures Lowered(X_FORWARDED_HOST) in Forged() && Forged() <= Injected()
  {
    hide Lowered;
  }

  lemma NumbersFit(hs: seq<Header>)
    requires Sized(hs)
    ensures NumbersOf(hs).c <= 32 && NumbersOf(hs).c == |Outside(hs, Forged())|
    ensures NumbersOf(hs).v + NumbersOf(hs).q + |Outside(hs, Injected())| == NumbersOf(hs).c
  {
    hide Outside, Named, Lowered, Forged;
    Counts(hs);
  }

  lemma SameTakenSplit(a: seq<Header>, b: seq<Header>, sets: seq<Pair>, k: nat)
    requires |sets| == k + 2
    ensures SameTaken(a, b, sets) <==>
      && (forall i: nat | i < k :: Taken(a, sets, i) == Taken(b, sets, i))
      && Taken(a, sets, k) == Taken(b, sets, k) && Taken(a, sets, k + 1) == Taken(b, sets, k + 1)
  {
    hide Taken;
  }

  /** Arithmetic: s survivors, v Via and q X-Gateway-Req-Id at first, then as many as were taken. */
  lemma RoomArithmetic(s: nat, v: nat, q: nat, h: nat)
    requires s + v + q <= 32 && h <= 1
    ensures var x, k := Numbers(s + v + q, v, q), 3 + h;
      var v', q' := if ViaRoom(x, k) then 1 else 0, if IdRoom(x, k) then 1 else 0;
      SameRoom(x, Numbers(s + v' + q', v', q'), k) <==>
        || (s + v + q + 3 + h <= 32 && s + q + 4 + h <= 32 && s + 5 + h <= 32)
        || (v <= 1 && q <= 1) || (v == 2 && q == 0)
  {
  }

  /**
   Without configured headers, for every table: rewriting twice is rewriting once if and only if the first rewrite had
   room for all its headers, or replaces at most one Via and one X-Gateway-Req-Id, or two Via and none of the other.
   s headers survive, v are called Via and q X-Gateway-Req-Id; h is 1 if a Host is found.
   */
  lemma RewriteTwiceIff(hs: seq<Header>, g: Gateway)
    requires Sized(hs) && g.custom == []
    ensures var s := |Outside(hs, Injected())|;
      var v, q := |Named(hs, Lowered(VIA))|, |Named(hs, Lowered(REQ_ID))|;
      var h := if Get(hs, HOST).Some? then 1 else 0;
      Rewritten(Rewritten(hs, g), g) == Rewritten(hs, g) <==>
        || (s + v + q + 3 + h <= 32 && s + q + 4 + h <= 32 && s + 5 + h <= 32)
        || (v <= 1 && q <= 1) || (v == 2 && q == 0)
  {
    hide Lowered, Outside, Get, Named, Rewritten, Forged, SameRoom, ViaRoom, IdRoom;
    var x := NumbersOf(hs);
    TwiceIffSameRoom(hs, g);
    NumbersAgain(hs, g);
    NumbersFit(hs);
    NumbersFit(Rewritten(hs, g));
    RoomArithmetic(|Outside(hs, Injected())|, x.v, x.q, if Get(hs, HOST).Some? then 1 else 0);
  }

  /** A table of 32 Via headers: the second rewrite finds the room the first one made. */
  lemma FullTableIsNotIdempotent(g: Gateway)
    requires g.custom == []
    ensures Rewritten(Rewritten(Vias(32), g), g) != Rewritten(Vias(32), g)
  {
    hide Lowered, Outside, Get, Named, Rewritten, Vias, Injected;
    ViasFacts(32);
    RewriteTwiceIff(Vias(32), g);
  }
}
