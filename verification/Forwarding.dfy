/** What the upstream may rely on after a rewrite, for every incoming table. */
module Forwarding {
  import opened Bytes
  import opened Fnv
  import opened HeaderTable
  import opened Options
  import opened HeaderSets
  import opened Rewrite
  import opened Gatekeeping

  function Sets(hs: seq<Header>, g: Gateway): seq<Pair> {
    Standard(Get(hs, HOST), g) + g.custom
  }

  /** Every header the gateway wanted to set was accepted. */
  ghost predicate AllAccepted(hs: seq<Header>, g: Gateway) {
    Accepted(Outside(hs, Forged()), Sets(hs, g))
  }

  lemma SetsNames(hs: seq<Header>, g: Gateway)
    ensures Names(Sets(hs, g)) <= Injected() + Names(g.custom) <= Names(Sets(hs, g)) + Forged()
  {
    hide Names, Lowered, Get, Standard;
    NamesAppend(Standard(Get(hs, HOST), g), g.custom);
    StandardNames(Get(hs, HOST), g);
  }

  // ----- Only the gateway speaks under these names -----

  /**
   For any incoming table, with or without room: every header of another name survives in its order, and an injected
   or configured name occurs at most once, with the value the gateway set last, or not at all.
   */
  lemma OnlyTheGatewaySpeaks(hs: seq<Header>, g: Gateway, name: Bytes)
    requires Sized(hs) && name in Injected() + Names(g.custom)
    ensures var names := Injected() + Names(g.custom);
      Outside(Rewritten(hs, g), names) == Outside(hs, names)
    ensures var r := Named(Rewritten(hs, g), name);
      r == [] || (name in Names(Sets(hs, g))
        && var p := LastValue(Sets(hs, g), name); r == [Made(p.name, p.value)])
  {
    hide Hash, Lowered, Outside, Get, SetAll, Names, Named, LastValue, Made, Rewritten, Standard;
    var names, h0, sets := Injected() + Names(g.custom), Outside(hs, Forged()), Sets(hs, g);
    RewriteIsSets(hs, g);
    SetsNames(hs, g);
    SetAllKeepsOthers(h0, sets, names);
    OutsideTwice(hs, Forged(), names);
    assert Forged() + names == names;
    SetAllNamed(h0, sets, name);
    NamedOutside(hs, Forged(), name);
  }

  /** The name is absent or stands once, with this value. */
  ghost predicate OnceAtMost(hs: seq<Header>, name: CString, value: CString) {
    Named(hs, Lowered(name)) == [] || Named(hs, Lowered(name)) == [Made(name, value)]
  }

  lemma LastValueOf(sets: seq<Pair>, i: nat)
    requires Distinct(sets) && i < |sets|
    ensures Key(sets[i]) in Names(sets) && LastValue(sets, Key(sets[i])) == sets[i]
  {
    hide Key;
    KeyInNames(sets, i);
  }

  lemma {:induction false} KeyInNames(sets: seq<Pair>, i: nat)
    requires i < |sets|
    ensures Key(sets[i]) in Names(sets)
  {
    if i < |sets| - 1 {
      KeyInNames(sets[..|sets| - 1], i);
    }
  }

  lemma {:induction false} NamesAreKeys(sets: seq<Pair>, name: Bytes)
    requires name in Names(sets)
    ensures exists i | 0 <= i < |sets| :: Key(sets[i]) == name
  {
    var n := |sets| - 1;
    if Key(sets[n]) != name {
      NamesAreKeys(sets[..n], name);
      var i :| 0 <= i < n && Key(sets[..n][i]) == name;
      assert Key(sets[i]) == name;
    }
  }

  lemma StandardDistinct(host: Option<Bytes>, g: Gateway)
    ensures Distinct(Standard(host, g))
  {
    hide Lowered, RealIp, ViaValue, CStr;
    DifferentNames();
  }

  /** Without configured headers: the pair of the list is the only one of its name, if it is there at all. */
  lemma StandardOnce(hs: seq<Header>, g: Gateway, i: nat)
    requires Sized(hs) && g.custom == [] && i < |Standard(Get(hs, HOST), g)|
    ensures var p := Standard(Get(hs, HOST), g)[i]; OnceAtMost(Rewritten(hs, g), p.name, p.value)
  {
    hide Hash, Lowered, Outside, Get, SetAll, Names, Named, Made, Rewritten, Standard, LastValue;
    var sets := Standard(Get(hs, HOST), g);
    assert Sets(hs, g) == sets;
    StandardDistinct(Get(hs, HOST), g);
    LastValueOf(sets, i);
    SetsNames(hs, g);
    NoCustomNames();
    OnlyTheGatewaySpeaks(hs, g, Key(sets[i]));
  }

  lemma NoCustomNames()
    ensures Names([]) == {}
  {
  }

  /** The six names after a rewrite without configured headers, as lookups and removals find them. */
  lemma InjectedNamesOnce(hs: seq<Header>, g: Gateway)
    requires Sized(hs) && g.custom == []
    ensures var r := Rewritten(hs, g);
      && Outside(r, Injected()) == Outside(hs, Injected())
      && OnceAtMost(r, X_REAL_IP, RealIp(g))
      && OnceAtMost(r, X_FORWARDED_FOR, RealIp(g))
      && (match Get(hs, HOST)
          case Some(host) => OnceAtMost(r, X_FORWARDED_HOST, CStr(host))
          case None => Named(r, Lowered(X_FORWARDED_HOST)) == [])
      && OnceAtMost(r, X_FORWARDED_PROTO, PROTO_HTTP)
      && OnceAtMost(r, VIA, ViaValue(g))
      && OnceAtMost(r, REQ_ID, g.reqId)
  {
    hide Hash, Lowered, Outside, Get, SetAll, Names, Named, Made, Rewritten, LastValue, OnceAtMost;
    hide RealIp, ViaValue, CStr;
    var host := Get(hs, HOST);
    var h := if host.Some? then 1 else 0;
    NoCustomNames();
    OnlyTheGatewaySpeaks(hs, g, Lowered(X_FORWARDED_HOST));
    if host.None? {
      StandardNames(host, g);
      assert Sets(hs, g) == Standard(host, g);
    } else {
      StandardOnce(hs, g, 2);
    }
    assert Injected() + {} == Injected();
    StandardOnce(hs, g, 0);
    StandardOnce(hs, g, 1);
    StandardOnce(hs, g, 2 + h);
    StandardOnce(hs, g, 3 + h);
    StandardOnce(hs, g, 4 + h);
  }

  // ----- When there is room for all of them -----

  lemma NamesSnoc(sets: seq<Pair>, p: Pair)
    ensures Names(sets + [p]) == Names(sets) + {Key(p)}
    ensures (sets + [p])[..|sets|] == sets
  {
    assert (sets + [p])[..|sets|] == sets;
  }

  /** One more pair of a new name. */
  lemma AcceptedSnoc(hs: seq<Header>, sets: seq<Pair>, p: Pair, left: nat)
    requires Sized(hs) && Key(p) !in Names(sets)
    requires |Outside(hs, Names(sets) + {Key(p)})| == left
    ensures Accepted(hs, sets + [p]) <==> Accepted(hs, sets) && left + |Names(sets)| + 1 <= 32
  {
    hide Outside, Names, Accepted, Key;
    NamesSnoc(sets, p);
    AcceptedOneMore(hs, sets + [p]);
  }

  /** The entries left when the stripped table loses these names too. */
  lemma LeftOver(hs: seq<Header>, names: set<Bytes>, all: set<Bytes>)
    requires Forged() + names == all
    ensures Outside(Outside(hs, Forged()), names) == Outside(hs, all)
  {
    hide Outside, Forged;
    OutsideTwice(hs, Forged(), names);
  }

  /** The pairs for stripped names: each needs one more place. */
  lemma {:induction false} StrippedRoom(hs: seq<Header>, sets: seq<Pair>)
    requires Sized(hs) && Distinct(sets) && Names(sets) <= Forged() && |sets| > 0
    ensures |Names(sets)| == |sets|
    ensures Accepted(Outside(hs, Forged()), sets) <==> |Outside(hs, Forged())| + |sets| <= 32
  {
    hide Outside, Key, Accepted, Forged;
    var n, h0 := |sets| - 1, Outside(hs, Forged());
    var p := sets[n];
    assert sets == sets[..n] + [p];
    NamesSnoc(sets[..n], p);
    if Key(p) in Names(sets[..n]) {
      NamesAreKeys(sets[..n], Key(p));
      assert false;
    }
    assert Forged() + Names(sets) == Forged();
    LeftOver(hs, Names(sets), Forged());
    AcceptedSnoc(h0, sets[..n], p, |h0|);
    if n > 0 {
      StrippedRoom(hs, sets[..n]);
    } else {
      AcceptedNone(h0);
      NoCustomNames();
      assert sets[..n] == [];
    }
  }

  function Front(host: Option<Bytes>, g: Gateway): seq<Pair> {
    [Pair(X_REAL_IP, RealIp(g)), Pair(X_FORWARDED_FOR, RealIp(g))]
    + (match host case Some(v) => [Pair(X_FORWARDED_HOST, CStr(v))] case None => [])
    + [Pair(X_FORWARDED_PROTO, PROTO_HTTP)]
  }

  lemma FrontFacts(host: Option<Bytes>, g: Gateway)
    ensures Distinct(Front(host, g)) && |Front(host, g)| == if host.Some? then 4 else 3
    ensures Names(Front(host, g)) <= Forged()
    ensures Standard(host, g) == Front(host, g) + [Pair(VIA, ViaValue(g))] + [Pair(REQ_ID, g.reqId)]
  {
    hide Lowered, RealIp, ViaValue, CStr, Names;
    DifferentNames();
    var f := Front(host, g);
    forall n | n in Names(f) ensures n in Forged() {
      NamesAreKeys(f, n);
    }
  }

  /**
   The exact condition for all applicable headers to be injected. Of the incoming table s headers survive, v are
   called Via and q X-Gateway-Req-Id; h is 1 if a Host was found. Old Via and X-Gateway-Req-Id headers still take up
   room while the headers before them are set.
   */
  lemma AllInjectedIffRoom(hs: seq<Header>, g: Gateway)
    requires Sized(hs) && g.custom == []
    ensures var s := |Outside(hs, Injected())|;
      var v, q := |Named(hs, Lowered(VIA))|, |Named(hs, Lowered(REQ_ID))|;
      var h := if Get(hs, HOST).Some? then 1 else 0;
      AllThere(Rewritten(hs, g), Standard(Get(hs, HOST), g)) <==>
        s + v + q + 3 + h <= 32 && s + q + 4 + h <= 32 && s + 5 + h <= 32
  {
    hide Hash, Lowered, Outside, Get, SetAll, Named, Rewritten, Standard, Front, Forged;
    hide Accepted, AllThere, Distinct;
    var h0, host := Outside(hs, Forged()), Get(hs, HOST);
    RewriteIsSets(hs, g);
    assert Standard(host, g) + g.custom == Standard(host, g);
    StandardDistinct(host, g);
    AcceptedIffAllThere(h0, Standard(host, g));
    RoomForSix(hs, host, g);
    Counts(hs);
  }

  lemma Counts(hs: seq<Header>)
    ensures var c := |Outside(hs, Forged())|;
      && |Outside(hs, Forged() + {Lowered(VIA)})| == c - |Named(hs, Lowered(VIA))|
      && |Outside(hs, Injected())| == c - |Named(hs, Lowered(VIA))| - |Named(hs, Lowered(REQ_ID))|
  {
    hide Outside, Named, Forged, Lowered;
    DifferentNames();
    var via, id := Lowered(VIA), Lowered(REQ_ID);
    OutsideCount(hs, Forged(), via);
    OutsideCount(hs, Forged() + {via}, id);
    assert Forged() + {via} + {id} == Injected();
  }

  lemma RoomForSix(hs: seq<Header>, host: Option<Bytes>, g: Gateway)
    requires Sized(hs)
    ensures var k := if host.Some? then 4 else 3;
      Accepted(Outside(hs, Forged()), Standard(host, g)) <==>
        && |Outside(hs, Forged())| + k <= 32
        && |Outside(hs, Forged() + {Lowered(VIA)})| + k + 1 <= 32
        && |Outside(hs, Injected())| + k + 2 <= 32
  {
    hide Lowered, Outside, Standard, Front, Accepted, Forged, Names, Distinct;
    var h0, f := Outside(hs, Forged()), Front(host, g);
    var p, q := Pair(VIA, ViaValue(g)), Pair(REQ_ID, g.reqId);
    FrontFacts(host, g);
    StrippedRoom(hs, f);
    DifferentNames();
    NamesSnoc(f, p);
    LeftOver(hs, Names(f) + {Key(p)}, Forged() + {Key(p)});
    AcceptedSnoc(h0, f, p, |Outside(hs, Forged() + {Key(p)})|);
    LeftOver(hs, Names(f + [p]) + {Key(q)}, Injected());
    AcceptedSnoc(h0, f + [p], q, |Outside(hs, Injected())|);
  }

  /** With at most one Via and one X-Gateway-Req-Id coming in, 26 survivors always leave enough room. */
  lemma TwentySixSurvivorsFit(hs: seq<Header>, g: Gateway)
    requires Sized(hs) && g.custom == []
    requires |Outside(hs, Injected())| <= 26
    requires |Named(hs, Lowered(VIA))| <= 1 && |Named(hs, Lowered(REQ_ID))| <= 1
    ensures AllThere(Rewritten(hs, g), Standard(Get(hs, HOST), g))
  {
    hide Hash, Lowered, Outside, Get, Named, Rewritten, Standard, AllThere, Sized;
    AllInjectedIffRoom(hs, g);
  }

  lemma NothingNamed(name: Bytes)
    ensures Named([], name) == []
  {
  }

  function Vias(n: nat): seq<Header> {
    if n == 0 then [] else Vias(n - 1) + [Made(VIA, [])]
  }

  lemma {:induction false} ViasFacts(n: nat)
    ensures |Vias(n)| == n && Named(Vias(n), Lowered(VIA)) == Vias(n)
    ensures Outside(Vias(n), Injected()) == []
    ensures forall e | e in Vias(n) :: e == Made(VIA, [])
  {
    hide Lowered, Named, Outside, Made, Forged, Called;
    if n == 0 {
      NothingNamed(Lowered(VIA));
      OutsideEmpty(Injected());
    } else {
      ViasFacts(n - 1);
      MadeIsCalled(Pair(VIA, []));
      NamedAppend(Vias(n - 1), Made(VIA, []), Lowered(VIA));
      OutsideAppend(Vias(n - 1), [Made(VIA, [])], Injected());
      OutsideSingle(Pair(VIA, []), Injected());
    }
  }

  /** A bound on the survivors alone is not enough: 32 Via headers leave no room, although none of them survives. */
  lemma SurvivorsAloneAreNotEnough(g: Gateway)
    requires g.custom == []
    ensures Sized(Vias(32)) && Outside(Vias(32), Injected()) == []
    ensures !AllThere(Rewritten(Vias(32), g), Standard(Get(Vias(32), HOST), g))
  {
    hide Hash, Lowered, Outside, Get, Named, Rewritten, Standard, AllThere, Vias;
    ViasFacts(32);
    LoweredTwice(VIA);
    AllInjectedIffRoom(Vias(32), g);
  }

  /** When all were accepted, the table is known entry by entry. */
  lemma RewrittenInOrder(hs: seq<Header>, g: Gateway)
    requires Sized(hs) && AllAccepted(hs, g)
    ensures Rewritten(hs, g) == Outside(hs, Forged() + Names(Sets(hs, g))) + Last(Sets(hs, g))
  {
    hide Lowered, Outside, Get, SetAll, Names, Rewritten, Standard, Accepted, Last, Forged;
    RewriteIsSets(hs, g);
    SetAllShape(Outside(hs, Forged()), Sets(hs, g));
    OutsideTwice(hs, Forged(), Names(Sets(hs, g)));
  }

  /** Without configured headers: the survivors, then the injected headers in the order they are set. */
  lemma SurvivorsThenInjected(hs: seq<Header>, g: Gateway)
    requires Sized(hs) && g.custom == []
    requires AllThere(Rewritten(hs, g), Standard(Get(hs, HOST), g))
    ensures var survivors, sets := Outside(hs, Injected()), Standard(Get(hs, HOST), g);
      && |Rewritten(hs, g)| == |survivors| + |sets|
      && Rewritten(hs, g)[..|survivors|] == survivors
      && forall i | 0 <= i < |sets| :: Rewritten(hs, g)[|survivors| + i] == Made(sets[i].name, sets[i].value)
  {
    hide Hash, Lowered, Outside, Get, SetAll, Named, Rewritten, Standard, Forged, Made, Last, Names;
    hide Accepted, AllThere, Distinct;
    var host := Get(hs, HOST);
    var sets := Standard(host, g);
    RewriteIsSets(hs, g);
    assert Sets(hs, g) == sets + g.custom == sets;
    StandardDistinct(host, g);
    AcceptedIffAllThere(Outside(hs, Forged()), sets);
    RewrittenInOrder(hs, g);
    SetsNames(hs, g);
    NoCustomNames();
    assert Forged() + Names(sets) == Injected();
    LastDistinct(sets);
  }
}
