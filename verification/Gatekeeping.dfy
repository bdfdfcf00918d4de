/** The names the gateway sets, how their hashes stand apart, and the rewrite as one sequence of set operations. */
module Gatekeeping {
  import opened Bytes
  import opened Fnv
  import opened HeaderTable
  import opened Options
  import opened HeaderSets
  import opened Rewrite

  /** The names a client may not bring along, the two that are replaced, and both together. */
  function Forged(): set<Bytes> {
    {Lowered(X_REAL_IP), Lowered(X_FORWARDED_FOR), Lowered(X_FORWARDED_HOST), Lowered(X_FORWARDED_PROTO)}
  }

  function Injected(): set<Bytes> {
    Forged() + {Lowered(VIA), Lowered(REQ_ID)}
  }

  /** The pairs the gateway sets, in order; the forwarded host only if a Host header was found. */
  function Standard(host: Option<Bytes>, g: Gateway): seq<Pair> {
    [Pair(X_REAL_IP, RealIp(g)), Pair(X_FORWARDED_FOR, RealIp(g))]
    + (match host case Some(v) => [Pair(X_FORWARDED_HOST, CStr(v))] case None => [])
    + [Pair(X_FORWARDED_PROTO, PROTO_HTTP), Pair(VIA, ViaValue(g)), Pair(REQ_ID, g.reqId)]
  }

  // ----- No injected name has the hash of Host -----

  lemma LowerNames()
    ensures Lowered(HOST) == [0x68, 0x6f, 0x73, 0x74]
    ensures Lowered(X_REAL_IP) == [0x78, 0x2d, 0x72, 0x65, 0x61, 0x6c, 0x2d, 0x69] + [0x70]
    ensures Lowered(VIA) == [0x76, 0x69, 0x61]
    ensures Lowered(REQ_ID) == [0x78, 0x2d, 0x67, 0x61, 0x74, 0x65, 0x77, 0x61]
                             + [0x79, 0x2d, 0x72, 0x65, 0x71, 0x2d, 0x69, 0x64]
  {
  }

  lemma LowerForwarded()
    ensures var p: Bytes := [0x78, 0x2d, 0x66, 0x6f, 0x72, 0x77, 0x61, 0x72] + [0x64, 0x65, 0x64, 0x2d];
      && Lowered(X_FORWARDED_FOR) == p + [0x66, 0x6f, 0x72]
      && Lowered(X_FORWARDED_HOST) == p + [0x68, 0x6f, 0x73, 0x74]
      && Lowered(X_FORWARDED_PROTO) == p + [0x70, 0x72, 0x6f, 0x74, 0x6f]
  {
  }

  lemma HashHost()
    ensures Hash([0x68, 0x6f, 0x73, 0x74]) == 0xaffea56f
    ensures Hash([0x76, 0x69, 0x61]) == 0x69122c13
  {
    var host: Bytes, via: Bytes := [0x68, 0x6f, 0x73, 0x74], [0x76, 0x69, 0x61];
    assert [] + host == host && [] + via == via;
    HashOfParts([], host, OFFSET);
    HashOfParts([], via, OFFSET);
    assert From(OFFSET, [0x68, 0x6f, 0x73, 0x74]) == 0xaffea56f;
    assert From(OFFSET, [0x76, 0x69, 0x61]) == 0x69122c13;
  }

  lemma HashRealIp()
    ensures Hash([0x78, 0x2d, 0x72, 0x65, 0x61, 0x6c, 0x2d, 0x69] + [0x70]) == 0xe37b3c60
  {
    assert From(OFFSET, [0x78, 0x2d, 0x72, 0x65, 0x61, 0x6c, 0x2d, 0x69]) == 0x22270e50;
    HashOfParts([0x78, 0x2d, 0x72, 0x65, 0x61, 0x6c, 0x2d, 0x69], [0x70], 0x22270e50);
    assert From(0x22270e50, [0x70]) == 0xe37b3c60;
  }

  lemma HashReqId()
    ensures Hash([0x78, 0x2d, 0x67, 0x61, 0x74, 0x65, 0x77, 0x61] + [0x79, 0x2d, 0x72, 0x65, 0x71, 0x2d, 0x69, 0x64])
         == 0xc124a24d
  {
    assert From(OFFSET, [0x78, 0x2d, 0x67, 0x61, 0x74, 0x65, 0x77, 0x61]) == 0xa2885b49;
    HashOfParts([0x78, 0x2d, 0x67, 0x61, 0x74, 0x65, 0x77, 0x61],
                [0x79, 0x2d, 0x72, 0x65, 0x71, 0x2d, 0x69, 0x64], 0xa2885b49);
    assert From(0xa2885b49, [0x79, 0x2d, 0x72, 0x65, 0x71, 0x2d, 0x69, 0x64]) == 0xc124a24d;
  }

  lemma HashForwarded(z: Bytes)
    ensures Hash([0x78, 0x2d, 0x66, 0x6f, 0x72, 0x77, 0x61, 0x72] + [0x64, 0x65, 0x64, 0x2d] + z) == From(0x781b8cfd, z)
  {
    var a: Bytes, b: Bytes := [0x78, 0x2d, 0x66, 0x6f, 0x72, 0x77, 0x61, 0x72], [0x64, 0x65, 0x64, 0x2d];
    assert From(OFFSET, [0x78, 0x2d, 0x66, 0x6f, 0x72, 0x77, 0x61, 0x72]) == 0x8e083975;
    HashOfParts(a, b, 0x8e083975);
    assert From(0x8e083975, [0x64, 0x65, 0x64, 0x2d]) == 0x781b8cfd;
    FromIsFold(OFFSET, a + b);
    HashOfParts(a + b, z, 0x781b8cfd);
  }

  lemma HashEndings()
    ensures From(0x781b8cfd, [0x66, 0x6f, 0x72]) == 0xadb2f988
    ensures From(0x781b8cfd, [0x68, 0x6f, 0x73, 0x74]) == 0x28867067
    ensures From(0x781b8cfd, [0x70, 0x72, 0x6f, 0x74, 0x6f]) == 0x2eb2af39
  {
  }

  lemma InjectedHashes()
    ensures Hash(Lowered(HOST)) == 0xaffea56f
    ensures Hash(Lowered(X_REAL_IP)) == 0xe37b3c60 && Hash(Lowered(VIA)) == 0x69122c13
    ensures Hash(Lowered(REQ_ID)) == 0xc124a24d && Hash(Lowered(X_FORWARDED_FOR)) == 0xadb2f988
    ensures Hash(Lowered(X_FORWARDED_HOST)) == 0x28867067 && Hash(Lowered(X_FORWARDED_PROTO)) == 0x2eb2af39
  {
    hide Hash, From, Lowered;
    LowerNames();
    LowerForwarded();
    HashHost();
    HashRealIp();
    HashReqId();
    HashEndings();
    HashForwarded([0x66, 0x6f, 0x72]);
    HashForwarded([0x68, 0x6f, 0x73, 0x74]);
    HashForwarded([0x70, 0x72, 0x6f, 0x74, 0x6f]);
  }

  /** None of the injected names is mistaken for Host by a lookup that compares hashes only. */
  lemma HostStandsApart()
    ensures OtherHash(Injected(), HOST)
  {
    hide Hash, Lowered;
    InjectedHashes();
  }

  // ----- A rewrite is a sequence of set operations on the stripped table -----

  lemma StrippedIs(hs: seq<Header>)
    ensures Stripped(hs) == Outside(hs, Forged())
  {
    hide Without, Outside, Lowered;
    var a, b := Lowered(X_REAL_IP), Lowered(X_FORWARDED_FOR);
    var c, d := Lowered(X_FORWARDED_HOST), Lowered(X_FORWARDED_PROTO);
    OutsideOne(hs, X_REAL_IP);
    StripOne(hs, {a}, X_FORWARDED_FOR);
    StripOne(hs, {a} + {b}, X_FORWARDED_HOST);
    StripOne(hs, {a} + {b} + {c}, X_FORWARDED_PROTO);
    assert Forged() == {a} + {b} + {c} + {d};
  }

  lemma StripOne(hs: seq<Header>, names: set<Bytes>, name: CString)
    ensures Without(Outside(hs, names), name) == Outside(hs, names + {Lowered(name)})
  {
    hide Without, Outside, Lowered;
    OutsideOne(Outside(hs, names), name);
    OutsideTwice(hs, names, {Lowered(name)});
  }

  lemma {:induction false} SetAllAppend(hs: seq<Header>, a: seq<Pair>, b: seq<Pair>)
    ensures SetAll(hs, a + b) == SetAll(SetAll(hs, a), b)
  {
    hide SetTo;
    if |b| == 0 {
      assert a + b == a;
    } else {
      var n := |b| - 1;
      SetAllAppend(hs, a, b[..n]);
      assert (a + b)[..|a + b| - 1] == a + b[..n];
    }
  }

  lemma SetAllOne(hs: seq<Header>, p: Pair)
    ensures SetAll(hs, [p]) == SetTo(hs, p.name, p.value)
  {
    hide SetTo;
    assert SetAll(hs, [p][..0]) == hs;
  }

  lemma {:induction false} NamesAppend(a: seq<Pair>, b: seq<Pair>)
    ensures Names(a + b) == Names(a) + Names(b)
  {
    if |b| == 0 {
      assert a + b == a;
    } else {
      var n := |b| - 1;
      NamesAppend(a, b[..n]);
      assert (a + b)[..|a + b| - 1] == a + b[..n];
    }
  }

  lemma NamesOne(p: Pair)
    ensures Names([p]) == {Key(p)}
  {
    assert Names([p][..0]) == {};
  }

  lemma SetAllTwo(hs: seq<Header>, p: Pair, q: Pair)
    ensures SetAll(hs, [p, q]) == SetTo(SetTo(hs, p.name, p.value), q.name, q.value)
    ensures Names([p, q]) == {Key(p), Key(q)}
  {
    hide SetTo, SetAll, Names, Key;
    assert [p] + [q] == [p, q];
    SetAllAppend(hs, [p], [q]);
    SetAllOne(hs, p);
    SetAllOne(SetAll(hs, [p]), q);
    NamesAppend([p], [q]);
    NamesOne(p);
    NamesOne(q);
  }

  lemma SetAllThree(hs: seq<Header>, p: Pair, q: Pair, r: Pair)
    ensures SetAll(hs, [p, q, r]) == SetTo(SetTo(SetTo(hs, p.name, p.value), q.name, q.value), r.name, r.value)
    ensures Names([p, q, r]) == {Key(p), Key(q), Key(r)}
  {
    hide SetTo, SetAll, Names, Key;
    assert [p, q] + [r] == [p, q, r];
    SetAllTwo(hs, p, q);
    SetAllAppend(hs, [p, q], [r]);
    SetAllOne(SetAll(hs, [p, q]), r);
    NamesAppend([p, q], [r]);
    NamesOne(r);
  }

  lemma SixNames(a: Bytes, b: Bytes, c: Bytes, d: Bytes, e: Bytes, f: Bytes)
    requires c !in {a, b, d, e, f}
    ensures {a, b} + {c} + {d, e, f} == {a, b, c, d} + {e, f}
    ensures {a, b} + {d, e, f} == ({a, b, c, d} + {e, f}) - {c}
  {
  }

  lemma ListNames(a: Pair, b: Pair, c: seq<Pair>, d: Pair, e: Pair, f: Pair)
    ensures Names([a, b] + c + [d, e, f]) == {Key(a), Key(b)} + Names(c) + {Key(d), Key(e), Key(f)}
  {
    hide Names, Key, SetAll, SetTo;
    SetAllTwo([], a, b);
    SetAllThree([], d, e, f);
    NamesAppend([a, b], c);
    NamesAppend([a, b] + c, [d, e, f]);
  }

  lemma StandardNames(host: Option<Bytes>, g: Gateway)
    ensures Names(Standard(host, g)) == Injected() - (if host.Some? then {} else {Lowered(X_FORWARDED_HOST)})
  {
    hide Names, Lowered, RealIp, ViaValue, CStr;
    var a, b := Pair(X_REAL_IP, RealIp(g)), Pair(X_FORWARDED_FOR, RealIp(g));
    var d, e, f := Pair(X_FORWARDED_PROTO, PROTO_HTTP), Pair(VIA, ViaValue(g)), Pair(REQ_ID, g.reqId);
    var c := match host case Some(v) => [Pair(X_FORWARDED_HOST, CStr(v))] case None => [];
    ListNames(a, b, c, d, e, f);
    DifferentNames();
    SixNames(Key(a), Key(b), Lowered(X_FORWARDED_HOST), Key(d), Key(e), Key(f));
    if host.Some? {
      NamesOne(c[0]);
    } else {
      NamesNone();
      assert {Key(a), Key(b)} + {} == {Key(a), Key(b)};
    }
  }

  lemma NamesNone()
    ensures Names([]) == {}
  {
  }

  /** The six names are different: five lengths, and one letter between the two of one length. */
  lemma DifferentNames()
    ensures Lowered(VIA) !in Forged() && Lowered(REQ_ID) !in Forged() && Lowered(VIA) != Lowered(REQ_ID)
    ensures Lowered(X_REAL_IP) !in {Lowered(X_FORWARDED_FOR), Lowered(X_FORWARDED_HOST), Lowered(X_FORWARDED_PROTO)}
    ensures Lowered(X_FORWARDED_FOR) !in {Lowered(X_FORWARDED_HOST), Lowered(X_FORWARDED_PROTO)}
    ensures Lowered(X_FORWARDED_HOST) != Lowered(X_FORWARDED_PROTO)
  {
    assert Lowered(X_FORWARDED_HOST)[2] != Lowered(REQ_ID)[2];
    assert |Lowered(VIA)| == 3 && |Lowered(REQ_ID)| == |Lowered(X_FORWARDED_HOST)| == 16;
    assert |Lowered(X_REAL_IP)| == 9 && |Lowered(X_FORWARDED_FOR)| == 15 && |Lowered(X_FORWARDED_PROTO)| == 17;
  }

  /** Stripping and setting names of another hash does not change what a lookup finds. */
  lemma LookupUnderSets(hs: seq<Header>, names: set<Bytes>, sets: seq<Pair>, name: CString)
    requires Sized(hs) && OtherHash(names, name) && OtherHash(Names(sets), name)
    ensures Get(SetAll(Outside(hs, names), sets), name) == Get(hs, name)
  {
    hide Hash, Outside, SetAll, Get;
    GetAfterSets(Outside(hs, names), sets, name);
    GetOutside(hs, names, name);
  }

  /** The whole rewrite in one formula: the forwarded host is the Host of the incoming table. */
  lemma RewriteIsSets(hs: seq<Header>, g: Gateway)
    requires Sized(hs)
    ensures Rewritten(hs, g) == SetAll(Outside(hs, Forged()), Standard(Get(hs, HOST), g) + g.custom)
  {
    hide Hash, Lowered, Without, SetTo, Outside, Get, RealIp, ViaValue, CStr, SetAll, Names, Stripped;
    var h0, host := Outside(hs, Forged()), Get(hs, HOST);
    var a, b := Pair(X_REAL_IP, RealIp(g)), Pair(X_FORWARDED_FOR, RealIp(g));
    var d, e, f := Pair(X_FORWARDED_PROTO, PROTO_HTTP), Pair(VIA, ViaValue(g)), Pair(REQ_ID, g.reqId);
    var c := match host case Some(v) => [Pair(X_FORWARDED_HOST, CStr(v))] case None => [];
    StrippedIs(hs);
    SetAllTwo(h0, a, b);
    HostStandsApart();
    LookupUnderSets(hs, Forged(), [a, b], HOST);
    var h1 := SetAll(h0, [a, b]);
    SetAllAppend(h0, [a, b], c);
    if host.Some? {
      SetAllOne(h1, c[0]);
    } else {
      assert [a, b] + c == [a, b];
    }
    SetAllAppend(h0, [a, b] + c, [d, e, f]);
    SetAllThree(SetAll(h0, [a, b] + c), d, e, f);
    SetAllAppend(h0, Standard(host, g), g.custom);
  }
}
