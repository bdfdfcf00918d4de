/** Rewriting a rewritten request: when it changes nothing. */
module Idempotence {
  import opened Bytes
  import opened Fnv
  import opened HeaderTable
  import opened HeaderSets
  import opened Options
  import opened Rewrite
  import opened Gatekeeping
  import opened Forwarding

  // ----- Everything is accepted again -----

  lemma {:induction false} AcceptedIsPresent(hs: seq<Header>, sets: seq<Pair>, name: Bytes)
    requires Sized(hs) && Accepted(hs, sets) && name in Names(sets)
    ensures Named(SetAll(hs, sets), name) != []
  {
    hide Named, SetTo, Made, Key, Outside, Without;
    var n := |sets| - 1;
    SetAllSized(hs, sets[..n]);
    RemovedKey(SetAll(hs, sets[..n]), sets[n]);
    SetToNamed(SetAll(hs, sets[..n]), sets[n], name);
    if name != Key(sets[n]) {
      AcceptedIsPresent(hs, sets[..n], name);
    }
  }

  lemma {:induction false} NamesOfFront(sets: seq<Pair>, i: nat)
    requires i <= |sets|
    ensures Names(sets[..i]) <= Names(sets)
  {
    if i < |sets| {
      NamesOfFront(sets[..|sets| - 1], i);
      assert sets[..|sets| - 1][..i] == sets[..i];
    } else {
      assert sets[..i] == sets;
    }
  }

  /** In a table that holds every name to be set, the same set operations are all accepted again. */
  lemma AcceptedAgain(r: seq<Header>, names: set<Bytes>, sets: seq<Pair>)
    requires Sized(r) && forall n | n in Names(sets) :: Named(r, n) != []
    ensures Accepted(Outside(r, names), sets)
  {
    hide Named, Outside, Names, Accepted;
    forall i | 1 <= i <= |sets|
      ensures |Outside(Outside(r, names), Names(sets[..i]))| + |Names(sets[..i])| <= 32
    {
      var m := Names(sets[..i]);
      NamesOfFront(sets, i);
      PresentNamesTakeRoom(r, m);
      OutsideTwice(r, names, m);
      OutsideTwice(r, m, names);
      assert names + m == m + names;
      SizedSize(r);
    }
    AcceptedIff(Outside(r, names), sets);
  }

  lemma SizedSize(hs: seq<Header>)
    requires Sized(hs)
    ensures |hs| <= 32
  {
  }

  lemma StrippedAgain(hs: seq<Header>, names: set<Bytes>, forged: set<Bytes>, sets: seq<Pair>)
    requires names == Names(sets)
    ensures var r := Outside(hs, forged + names) + Last(sets);
      Outside(r, forged + names) == Outside(hs, forged + names)
  {
    hide Outside, Names, Last;
    var all := forged + names;
    OutsideAppend(Outside(hs, all), Last(sets), all);
    OutsideTwice(hs, all, all);
    assert all + all == all;
    LastSize(sets, all);
    assert Names(sets) - all == {};
  }

  // ----- The Host a rewrite leaves behind -----

  lemma {:induction false} GetConcat(a: seq<Header>, b: seq<Header>, name: CString)
    ensures Get(a + b, name) == if Get(a, name).Some? then Get(a, name) else Get(b, name)
  {
    hide Hash, TagIndex;
    if |b| == 0 {
      NothingToGet(name);
      assert a + b == a;
    } else {
      var n := |b| - 1;
      GetConcat(a, b[..n], name);
      TagIndexAppend(a + b[..n], b[n], name);
      TagIndexAppend(b[..n], b[n], name);
      assert a + b == (a + b[..n]) + [b[n]] && b == b[..n] + [b[n]];
    }
  }

  lemma NothingToGet(name: CString)
    ensures TagIndex([], name) == -1
  {
  }

  lemma GetFromFewer(hs: seq<Header>, names: set<Bytes>, name: CString)
    requires Get(hs, name) == None
    ensures Get(Outside(hs, names), name) == None
  {
    hide Hash, Outside, TagIndex;
    TagIndexIsFirst(hs, name);
    var r := Outside(hs, names);
    TagIndexIsFirst(r, name);
    if TagIndex(r, name) >= 0 {
      OutsideMembers(hs, names, r[TagIndex(r, name)]);
    }
  }

  lemma {:induction false} LastAppend(a: seq<Pair>, b: seq<Pair>)
    ensures Last(a + b) == Outside(Last(a), Names(b)) + Last(b)
  {
    hide Outside, Made, Key;
    if |b| == 0 {
      assert a + b == a;
      OutsideNothing(Last(a));
    } else {
      var n := |b| - 1;
      var p := b[n];
      LastAppend(a, b[..n]);
      assert (a + b)[..|a + b| - 1] == a + b[..n];
      OutsideAppend(Outside(Last(a), Names(b[..n])), Last(b[..n]), {Key(p)});
      OutsideTwice(Last(a), Names(b[..n]), {Key(p)});
      Associate(Outside(Last(a), Names(b)), Outside(Last(b[..n]), {Key(p)}), [Made(p.name, p.value)]);
    }
  }

  /** None of the standard headers is taken for Host. */
  lemma NoHostInStandard(host: Option<Bytes>, g: Gateway)
    ensures Get(Last(Standard(host, g)), HOST) == None
  {
    hide Hash, Lowered, Outside, Get, SetAll, Names, Last, Forged, Accepted;
    var std := Standard(host, g);
    EmptyFacts();
    SmallFits([], std);
    SetAllShape([], std);
    OutsideEmpty(Names(std));
    assert [] + Last(std) == Last(std);
    HostStandsApart();
    StandardNames(host, g);
    GetAfterSets([], std, HOST);
  }

  function FirstHost(hs: seq<Header>, g: Gateway): Option<Bytes> {
    var kept := Get(Outside(hs, Names(g.custom)), HOST);
    if kept.Some? then kept else Get(Last(g.custom), HOST)
  }

  /**
   Read off the input: the Host a rewrite leaves behind is the first that came in and is not replaced by a configured
   header, or else the first among the configured ones that stay.
   */
  function HostLeft(hs: seq<Header>, g: Gateway): Option<Bytes> {
    AsString(FirstHost(hs, g))
  }

  function HostFound(hs: seq<Header>): Option<Bytes> {
    AsString(Get(hs, HOST))
  }

  lemma HostAfterwards(hs: seq<Header>, g: Gateway)
    requires Sized(hs) && AllAccepted(hs, g)
    ensures Get(Rewritten(hs, g), HOST) == FirstHost(hs, g)
  {
    hide Hash, Lowered, Outside, Get, Names, Last, Forged, AllAccepted, Rewritten, Standard, OtherHash;
    var std, n := Standard(Get(hs, HOST), g), Names(g.custom);
    var all := Forged() + Names(Sets(hs, g));
    RewrittenInOrder(hs, g);
    GetConcat(Outside(hs, all), Last(Sets(hs, g)), HOST);
    NamesAppend(std, g.custom);
    OutsideTwice(hs, n, Forged() + Names(std));
    assert n + (Forged() + Names(std)) == all;
    HostStandsApart();
    StandardApart(Get(hs, HOST), g);
    GetOutside(Outside(hs, n), Forged() + Names(std), HOST);
    LastAppend(std, g.custom);
    NoHostInStandard(Get(hs, HOST), g);
    GetFromFewer(Last(std), n, HOST);
    GetConcat(Outside(Last(std), n), Last(g.custom), HOST);
  }

  lemma StandardApart(host: Option<Bytes>, g: Gateway)
    ensures OtherHash(Forged() + Names(Standard(host, g)), HOST)
  {
    hide Hash, Lowered, Names, Standard;
    HostStandsApart();
    StandardNames(host, g);
  }

  // ----- Twice is once -----

  /** If the second rewrite sets the same names, and leaves the same entries for them, it changes nothing. */
  lemma SameLastSuffices(hs: seq<Header>, g: Gateway)
    requires Sized(hs) && AllAccepted(hs, g)
    requires var again := Sets(Rewritten(hs, g), g);
      Names(again) == Names(Sets(hs, g)) && Last(again) == Last(Sets(hs, g))
    ensures Rewritten(Rewritten(hs, g), g) == Rewritten(hs, g)
  {
    hide Hash, Lowered, Outside, Get, SetAll, Names, Named, Made, Rewritten, Standard, Last, Forged, Accepted, Sets;
    var h0, sets, r := Outside(hs, Forged()), Sets(hs, g), Rewritten(hs, g);
    RewriteWithSets(hs, g);
    SetAllSized(h0, sets);
    forall n | n in Names(sets) ensures Named(r, n) != [] {
      AcceptedIsPresent(h0, sets, n);
    }
    AcceptedAgain(r, Forged(), Sets(r, g));
    RewrittenInOrder(hs, g);
    RewrittenInOrder(r, g);
    StrippedAgain(hs, Names(sets), Forged(), sets);
  }

  lemma RewriteWithSets(hs: seq<Header>, g: Gateway)
    requires Sized(hs)
    ensures Rewritten(hs, g) == SetAll(Outside(hs, Forged()), Sets(hs, g))
  {
    hide Rewritten, SetAll, Outside, Forged, Standard, Get;
    RewriteIsSets(hs, g);
  }

  lemma SameHostSuffices(hs: seq<Header>, g: Gateway)
    requires Sized(hs) && AllAccepted(hs, g) && HostFound(Rewritten(hs, g)) == HostFound(hs)
    ensures Rewritten(Rewritten(hs, g), g) == Rewritten(hs, g)
  {
    hide Hash, Lowered, Get, Rewritten, RealIp, ViaValue, CStr, Names, Last, AllAccepted;
    SameLastSuffices(hs, g);
  }

  lemma LastStandard(host: Option<Bytes>, g: Gateway)
    ensures Last(Standard(host, g)) ==
      [Made(X_REAL_IP, RealIp(g)), Made(X_FORWARDED_FOR, RealIp(g))]
      + (match host case Some(v) => [Made(X_FORWARDED_HOST, CStr(v))] case None => [])
      + [Made(X_FORWARDED_PROTO, PROTO_HTTP), Made(VIA, ViaValue(g)), Made(REQ_ID, g.reqId)]
  {
    hide Lowered, RealIp, ViaValue, CStr, Made, Last, Distinct;
    StandardDistinct(host, g);
    LastDistinct(Standard(host, g));
  }

  /** A configured X-Forwarded-Host replaces the one that depends on the Host. */
  lemma OverriddenSuffices(hs: seq<Header>, g: Gateway)
    requires Sized(hs) && AllAccepted(hs, g) && Lowered(X_FORWARDED_HOST) in Names(g.custom)
    ensures Rewritten(Rewritten(hs, g), g) == Rewritten(hs, g)
  {
    hide Hash, Lowered, Get, Rewritten, Names, Last, AllAccepted, Standard, Outside;
    var one, two := Get(hs, HOST), Get(Rewritten(hs, g), HOST);
    SameWithoutHost(one, two, g);
    LastAppend(Standard(one, g), g.custom);
    LastAppend(Standard(two, g), g.custom);
    NamesAppend(Standard(one, g), g.custom);
    NamesAppend(Standard(two, g), g.custom);
    StandardNames(one, g);
    StandardNames(two, g);
    assert Names(Sets(hs, g)) == Names(Sets(Rewritten(hs, g), g));
    SameLastSuffices(hs, g);
  }

  lemma WithoutHost(host: Option<Bytes>, g: Gateway, names: set<Bytes>)
    requires Lowered(X_FORWARDED_HOST) in names
    ensures Outside(Last(Standard(host, g)), names) == Outside(Last(Standard(None, g)), names)
  {
    hide Lowered, RealIp, ViaValue, CStr, Last, Standard, Outside, Made;
    LastStandard(host, g);
    LastStandard(None, g);
    var a := [Made(X_REAL_IP, RealIp(g)), Made(X_FORWARDED_FOR, RealIp(g))];
    var d := [Made(X_FORWARDED_PROTO, PROTO_HTTP), Made(VIA, ViaValue(g)), Made(REQ_ID, g.reqId)];
    if host.Some? {
      var c := [Made(X_FORWARDED_HOST, CStr(host.value))];
      OutsideAppend(a + c, d, names);
      OutsideAppend(a, c, names);
      KeyOf(X_FORWARDED_HOST, CStr(host.value));
      OutsideSingle(Pair(X_FORWARDED_HOST, CStr(host.value)), names);
      OutsideAppend(a, d, names);
      assert Outside(a, names) + [] == Outside(a, names);
      assert a + [] + d == a + d;
    }
  }

  lemma SameWithoutHost(one: Option<Bytes>, two: Option<Bytes>, g: Gateway)
    requires Lowered(X_FORWARDED_HOST) in Names(g.custom)
    ensures Outside(Last(Standard(one, g)), Names(g.custom)) == Outside(Last(Standard(two, g)), Names(g.custom))
  {
    hide Lowered, Last, Standard, Outside, Names;
    WithoutHost(one, g, Names(g.custom));
    WithoutHost(two, g, Names(g.custom));
  }

  // ----- And otherwise it is not -----

  lemma {:induction false} LastValueAppend(a: seq<Pair>, b: seq<Pair>, name: Bytes)
    requires name in Names(a) && name !in Names(b)
    ensures name in Names(a + b) && LastValue(a + b, name) == LastValue(a, name)
  {
    hide Key;
    if |b| == 0 {
      assert a + b == a;
    } else {
      LastValueAppend(a, b[..|b| - 1], name);
      assert (a + b)[..|a + b| - 1] == a + b[..|b| - 1];
    }
  }

  /** The forwarded host a rewrite sets, if no configured header is called so. */
  lemma ForwardedHost(hs: seq<Header>, g: Gateway)
    requires Sized(hs) && Lowered(X_FORWARDED_HOST) !in Names(g.custom)
    ensures var r, host := Named(Rewritten(hs, g), Lowered(X_FORWARDED_HOST)), Get(hs, HOST);
      r == [] || (host.Some? && r == [Made(X_FORWARDED_HOST, CStr(host.value))])
  {
    hide Hash, Lowered, Get, Rewritten, Names, Named, Outside, Made, LastValue, CStr, RealIp, ViaValue, Distinct;
    var host, name := Get(hs, HOST), Lowered(X_FORWARDED_HOST);
    OnlyTheGatewaySpeaks(hs, g, name);
    NamesAppend(Standard(host, g), g.custom);
    StandardNames(host, g);
    if host.Some? {
      StandardDistinct(host, g);
      KeyOf(X_FORWARDED_HOST, CStr(host.value));
      LastValueOf(Standard(host, g), 2);
      LastValueAppend(Standard(host, g), g.custom, name);
    }
  }

  lemma ForwardedHostIsThere(hs: seq<Header>, g: Gateway)
    requires Sized(hs) && AllAccepted(hs, g) && Get(hs, HOST).Some?
    ensures Named(Rewritten(hs, g), Lowered(X_FORWARDED_HOST)) != []
  {
    hide Hash, Lowered, Get, Rewritten, Names, Named, Outside, SetAll, Accepted, Standard;
    RewriteWithSets(hs, g);
    NamesAppend(Standard(Get(hs, HOST), g), g.custom);
    StandardNames(Get(hs, HOST), g);
    AcceptedIsPresent(Outside(hs, Forged()), Sets(hs, g), Lowered(X_FORWARDED_HOST));
  }

  /** A rewritten table has room for the forwarded host, as three other names are taken out first. */
  lemma RoomForHost(r: seq<Header>, g: Gateway)
    requires Sized(r) && Get(r, HOST).Some? && Lowered(X_FORWARDED_HOST) !in Names(g.custom)
    requires Named(r, Lowered(X_REAL_IP)) != [] && Named(r, Lowered(X_FORWARDED_FOR)) != []
    requires Named(r, Lowered(X_FORWARDED_PROTO)) != []
    ensures Named(Rewritten(r, g), Lowered(X_FORWARDED_HOST)) != []
  {
    hide Hash, Lowered, Get, Rewritten, Names, Named, Outside, SetAll, SetTo, Made, CStr, RealIp, ViaValue, Accepted;
    var host, name := Get(r, HOST), Lowered(X_FORWARDED_HOST);
    var a, b := Pair(X_REAL_IP, RealIp(g)), Pair(X_FORWARDED_FOR, RealIp(g));
    var c := Pair(X_FORWARDED_HOST, CStr(host.value));
    var d, e, f := Pair(X_FORWARDED_PROTO, PROTO_HTTP), Pair(VIA, ViaValue(g)), Pair(REQ_ID, g.reqId);
    var h0, rest := Outside(r, Forged()), [d, e, f] + g.custom;
    var t := SetAll(h0, [a, b]);
    RewriteWithSets(r, g);
    assert Sets(r, g) == [a, b] + [c] + rest;
    SetAllAppend(h0, [a, b] + [c], rest);
    SetAllAppend(h0, [a, b], [c]);
    SetAllOne(t, c);
    ThreeFewer(r);
    SmallFits(h0, [a, b]);
    SetAllSized(h0, [a, b]);
    KeyOf(X_FORWARDED_HOST, CStr(host.value));
    SetToIs(t, c);
    SetToNamed(t, c, name);
    SetAllThree([], d, e, f);
    NamesAppend([d, e, f], g.custom);
    DifferentNames();
    SetAllNamed(SetTo(t, c.name, c.value), rest, name);
  }

  lemma ThreeFewer(r: seq<Header>)
    requires Sized(r)
    requires Named(r, Lowered(X_REAL_IP)) != [] && Named(r, Lowered(X_FORWARDED_FOR)) != []
    requires Named(r, Lowered(X_FORWARDED_PROTO)) != []
    ensures |Outside(r, Forged())| + 3 <= 32
  {
    hide Lowered, Named, Outside;
    var three := {Lowered(X_REAL_IP), Lowered(X_FORWARDED_FOR), Lowered(X_FORWARDED_PROTO)};
    DifferentNames();
    PresentNamesTakeRoom(r, three);
    OutsideTwice(r, three, Forged());
    assert three + Forged() == Forged();
    assert |three| == 3;
  }

  lemma StandardPresent(hs: seq<Header>, g: Gateway)
    requires Sized(hs) && AllAccepted(hs, g)
    ensures var r := Rewritten(hs, g);
      && Named(r, Lowered(X_REAL_IP)) != [] && Named(r, Lowered(X_FORWARDED_FOR)) != []
      && Named(r, Lowered(X_FORWARDED_PROTO)) != []
  {
    hide Hash, Lowered, Get, Rewritten, Names, Named, Outside, SetAll, Accepted, Standard;
    RewriteWithSets(hs, g);
    NamesAppend(Standard(Get(hs, HOST), g), g.custom);
    StandardNames(Get(hs, HOST), g);
    DifferentNames();
    AcceptedIsPresent(Outside(hs, Forged()), Sets(hs, g), Lowered(X_REAL_IP));
    AcceptedIsPresent(Outside(hs, Forged()), Sets(hs, g), Lowered(X_FORWARDED_FOR));
    AcceptedIsPresent(Outside(hs, Forged()), Sets(hs, g), Lowered(X_FORWARDED_PROTO));
  }

  lemma MadeApart(name: CString, v: CString, w: CString)
    requires Made(name, v) == Made(name, w)
    ensures v == w
  {
  }

  lemma AnotherHostShows(hs: seq<Header>, g: Gateway)
    requires Sized(hs) && AllAccepted(hs, g) && Lowered(X_FORWARDED_HOST) !in Names(g.custom)
    requires HostFound(Rewritten(hs, g)) != HostFound(hs)
    ensures Rewritten(Rewritten(hs, g), g) != Rewritten(hs, g)
  {
    hide Hash, Lowered, Get, Rewritten, Names, Named, CStr, Made, AllAccepted;
    var r := Rewritten(hs, g);
    RewrittenSized(hs, g);
    ForwardedHost(hs, g);
    ForwardedHost(r, g);
    var one, two := Get(hs, HOST), Get(r, HOST);
    if one.Some? {
      ForwardedHostIsThere(hs, g);
      if two.Some? && Made(X_FORWARDED_HOST, CStr(one.value)) == Made(X_FORWARDED_HOST, CStr(two.value)) {
        MadeApart(X_FORWARDED_HOST, CStr(one.value), CStr(two.value));
      }
    } else {
      StandardPresent(hs, g);
      RoomForHost(r, g);
    }
  }

  lemma RewrittenSized(hs: seq<Header>, g: Gateway)
    requires Sized(hs)
    ensures Sized(Rewritten(hs, g))
  {
    hide Rewritten, SetAll, Outside, Sets;
    RewriteWithSets(hs, g);
    SetAllSized(Outside(hs, Forged()), Sets(hs, g));
  }

  /**
   When the first rewrite had room for every header, rewriting once more with the same identifier changes nothing if
   and only if X-Forwarded-Host is itself configured, or the Host left behind reads as the one that was found.
   */
  lemma RewriteIsIdempotentIff(hs: seq<Header>, g: Gateway)
    requires Sized(hs) && AllAccepted(hs, g)
    ensures Rewritten(Rewritten(hs, g), g) == Rewritten(hs, g) <==>
      Lowered(X_FORWARDED_HOST) in Names(g.custom) || HostLeft(hs, g) == HostFound(hs)
  {
    hide Lowered, Rewritten, Names, AllAccepted, FirstHost, Get, AsString;
    HostAfterwards(hs, g);
    if Lowered(X_FORWARDED_HOST) in Names(g.custom) {
      OverriddenSuffices(hs, g);
    } else if HostLeft(hs, g) == HostFound(hs) {
      SameHostSuffices(hs, g);
    } else {
      AnotherHostShows(hs, g);
    }
  }

  /** In particular, when no configured header has the hash of Host. */
  lemma RewriteIsIdempotent(hs: seq<Header>, g: Gateway)
    requires Sized(hs) && AllAccepted(hs, g) && OtherHash(Names(g.custom), HOST)
    ensures Rewritten(Rewritten(hs, g), g) == Rewritten(hs, g)
  {
    hide Hash, Lowered, Outside, Get, Names, Rewritten, AllAccepted, Last;
    GetOutside(hs, Names(g.custom), HOST);
    HostAfterwards(hs, g);
    RewriteIsIdempotentIff(hs, g);
    if Get(hs, HOST) == None {
      NoHostConfigured(g.custom);
    }
  }

  lemma {:induction false} NoHostConfigured(sets: seq<Pair>)
    requires OtherHash(Names(sets), HOST)
    ensures Get(Last(sets), HOST) == None
  {
    hide Hash, Lowered, Outside, TagIndex;
    if |sets| == 0 {
      NothingToGet(HOST);
    } else {
      var n := |sets| - 1;
      var p := sets[n];
      NoHostConfigured(sets[..n]);
      GetFromFewer(Last(sets[..n]), {Key(p)}, HOST);
      TagIndexAppend(Outside(Last(sets[..n]), {Key(p)}), Made(p.name, p.value), HOST);
    }
  }

  // ----- A configured Host -----

  lemma {:induction false} SmallFits(hs: seq<Header>, sets: seq<Pair>)
    requires |hs| + |sets| <= 32
    ensures Accepted(hs, sets) && |SetAll(hs, sets)| <= |hs| + |sets|
  {
    hide Without, Made;
    if |sets| > 0 {
      SmallFits(hs, sets[..|sets| - 1]);
    }
  }

  const EXAMPLE: CString := [0x61]

  /** A gateway that is configured to set Host itself. */
  function OwnHost(g: Gateway): Gateway {
    g.(custom := [Pair(HOST, EXAMPLE)])
  }

  /** Rewriting the empty table finds no Host, and leaves the configured one behind. */
  lemma OwnHostOnce(g: Gateway)
    ensures var r := Rewritten([], OwnHost(g));
      && Sized(r) && |r| <= 6 && Named(r, Lowered(X_FORWARDED_HOST)) == []
      && Get(r, HOST).Some? && Get(r, HOST).value == EXAMPLE
  {
    hide Hash, Lowered, Outside, SetAll, Names, Named, Rewritten, SetTo, Forged;
    var std, p := Standard(None, g), Pair(HOST, EXAMPLE);
    var t := SetAll([], std);
    EmptyFacts();
    RewriteIsSets([], OwnHost(g));
    SameStandard(g, OwnHost(g), None);
    SetAllAppend([], std, [p]);
    SetAllOne(t, p);
    SmallFits([], std + [p]);
    SetAllSized([], std);
    SetAllSized([], std + [p]);
    HostStandsApart();
    StandardNames(None, g);
    GetAfterSets([], std, HOST);
    SetToIs(t, p);
    OwnHostFound(t, p);
    NamesOne(p);
    NamesAppend(std, [p]);
    SetAllNamed([], std + [p], Lowered(X_FORWARDED_HOST));
    NothingNamed(Lowered(X_FORWARDED_HOST));
    InjectedHashes();
    assert Hash(Lowered(X_FORWARDED_HOST)) != Hash(Lowered(HOST));
    SmallFits([], std);
    RemovedKey(t, p);
  }

  lemma EmptyFacts()
    ensures Sized([]) && Get([], HOST) == None && Outside([], Forged()) == []
  {
  }

  lemma SameStandard(g: Gateway, h: Gateway, host: Option<Bytes>)
    requires h == g.(custom := h.custom)
    ensures Standard(host, h) == Standard(host, g)
  {
  }

  lemma OwnHostFound(t: seq<Header>, p: Pair)
    requires Get(t, HOST) == None && p.name == HOST
    ensures var found := Get(Outside(t, {Key(p)}) + [Made(p.name, p.value)], HOST);
      found.Some? && found.value == p.value
  {
    hide Hash, Lowered, Outside, CStr;
    TagIndexIsFirst(t, HOST);
    OutsideIsAll(t, {Key(p)});
    TagIndexAppend(t, Made(p.name, p.value), HOST);
  }

  /** It can fail: with a configured Host, and none that came in, the second rewrite adds X-Forwarded-Host. */
  lemma OwnHostIsNotIdempotent(g: Gateway)
    ensures Rewritten(Rewritten([], OwnHost(g)), OwnHost(g)) != Rewritten([], OwnHost(g))
  {
    hide Hash, Lowered, Outside, SetAll, Names, Named, Rewritten, Forged, Get, Key, Made;
    var h, r := OwnHost(g), Rewritten([], OwnHost(g));
    OwnHostOnce(g);
    RewriteIsSets(r, h);
    SmallFits(Outside(r, Forged()), Sets(r, h));
    KeyInNames(Sets(r, h), 2);
    assert Key(Sets(r, h)[2]) == Lowered(X_FORWARDED_HOST) by {
      KeyOf(X_FORWARDED_HOST, CStr(EXAMPLE));
    }
    AcceptedIsPresent(Outside(r, Forged()), Sets(r, h), Lowered(X_FORWARDED_HOST));
  }

  lemma KeyOf(name: CString, value: CString)
    ensures Key(Pair(name, value)) == Lowered(name)
  {
  }
}
