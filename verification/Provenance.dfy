/** Whose values are printed under the names the gateway sets, for any incoming table whatsoever. */
module Provenance {
  import opened Bytes
  import opened Fnv
  import opened HeaderTable
  import opened HeaderSets
  import P = HttpParser
  import opened HttpSerialize
  import opened RoundTrip
  import opened AsPrinted
  import opened Rewrite
  import opened Gatekeeping
  import opened Forwarding

  function Ours(g: Gateway): set<Bytes> {
    Injected() + Names(g.custom)
  }

  lemma SetOrStripped(hs: seq<Header>, g: Gateway, name: Bytes)
    requires name in Ours(g)
    ensures name in Forged() || name in Names(Sets(hs, g))
  {
    hide Names, Lowered, Sets;
    SetsNames(hs, g);
  }

  /**
   What is printed under an injected or configured name: first the strays that came in under it, which no removal
   finds, and then at most the one entry the gateway set. Nothing else, whatever came in and whatever room there was.
   */
  lemma PrintedUnderOurNames(hs: seq<Header>, g: Gateway, name: Bytes)
    requires Sized(hs) && name in Ours(g)
    ensures Printed(Rewritten(hs, g), name) == Strays(hs, name) + Named(Rewritten(hs, g), name)
    ensures var r := Named(Rewritten(hs, g), name);
      r == [] || (name in Names(Sets(hs, g))
        && var p := LastValue(Sets(hs, g), name); r == [Made(p.name, p.value)])
  {
    hide Lowered, Outside, SetAll, Names, Named, LastValue, Made, Rewritten, Strays, Printed, Sets, Forged;
    var h0 := Outside(hs, Forged());
    RewriteIsSets(hs, g);
    SetOrStripped(hs, g, name);
    PrintedOutside(hs, Forged(), name);
    NamedOutside(hs, Forged(), name);
    assert name in Forged() ==> Strays(h0, name) + [] == Strays(h0, name);
    SetsAreThose(hs, g);
    SetAllPrinted(h0, Sets(hs, g), name);
    OnlyTheGatewaySpeaks(hs, g, name);
  }

  lemma SetsAreThose(hs: seq<Header>, g: Gateway)
    ensures Sets(hs, g) == Standard(Get(hs, HOST), g) + g.custom
  {
  }

  /** The table prints nothing under this name but what the gateway set. */
  ghost predicate Clean(hs: seq<Header>, g: Gateway, name: Bytes) {
    Printed(Rewritten(hs, g), name) == Named(Rewritten(hs, g), name)
  }

  /** Exactly when no stray came in under the name, only the gateway's own header is printed under it. */
  lemma CleanIffNoStray(hs: seq<Header>, g: Gateway, name: Bytes)
    requires Sized(hs) && name in Ours(g)
    ensures Clean(hs, g, name) <==> forall e | e in hs :: !Stray(e, name)
  {
    hide Named, Rewritten, Printed, Strays, Stray, Sets, LastValue, Made, Ours, Names;
    PrintedUnderOurNames(hs, g, name);
    forall e | e in hs ensures e in Strays(hs, name) <==> Stray(e, name) {
      StraysMembers(hs, name, e);
    }
    if Strays(hs, name) == [] {
      assert [] + Named(Rewritten(hs, g), name) == Named(Rewritten(hs, g), name);
    } else {
      StraysMembers(hs, name, Strays(hs, name)[0]);
    }
  }

  /** The entry's value, as it is printed, is the one the gateway gives this name. */
  ghost predicate GatewaysValue(hs: seq<Header>, g: Gateway, name: Bytes, e: Header) {
    name in Names(Sets(hs, g)) && CStr(e.value) == LastValue(Sets(hs, g), name).value
  }

  /** Every value printed under the name is the gateway's if and only if those of the strays that came in are. */
  lemma GatewaysValuesIff(hs: seq<Header>, g: Gateway, name: Bytes)
    requires Sized(hs) && name in Ours(g)
    ensures (forall e | e in Printed(Rewritten(hs, g), name) :: GatewaysValue(hs, g, name, e)) <==>
      forall e | e in hs && Stray(e, name) :: GatewaysValue(hs, g, name, e)
  {
    hide Named, Rewritten, Printed, Strays, Stray, Sets, LastValue, Made, Ours, Names, CStr, Called, Key;
    var r := Named(Rewritten(hs, g), name);
    PrintedUnderOurNames(hs, g, name);
    if r != [] {
      MadeIsCalled(LastValue(Sets(hs, g), name));
      assert GatewaysValue(hs, g, name, r[0]);
    }
    forall e ensures e in Strays(hs, name) <==> e in hs && Stray(e, name) {
      StraysMembers(hs, name, e);
    }
  }

  // ----- A stray -----

  lemma HashBehindNul()
    ensures Hash(Lowered(X_REAL_IP + [NUL])) != Hash(Lowered(X_REAL_IP))
  {
    hide Hash, From;
    LowerBehindNul();
    InjectedHashes();
    HashOfStray();
  }

  lemma LowerBehindNul()
    ensures Lowered(X_REAL_IP + [NUL]) == [0x78, 0x2d, 0x72, 0x65, 0x61, 0x6c, 0x2d, 0x69] + [0x70, 0x00]
    ensures CStr(Lowered(X_REAL_IP + [NUL])) == Lowered(X_REAL_IP)
  {
    LoweredEnd();
    Terminated(Lowered(X_REAL_IP));
    LowerNames();
  }

  lemma LoweredEnd()
    ensures Lowered(X_REAL_IP + [NUL]) == Lowered(X_REAL_IP) + [NUL]
  {
  }

  lemma HashOfStray()
    ensures Hash([0x78, 0x2d, 0x72, 0x65, 0x61, 0x6c, 0x2d, 0x69] + [0x70, 0x00]) == 0x7b000b20
  {
    assert From(OFFSET, [0x78, 0x2d, 0x72, 0x65, 0x61, 0x6c, 0x2d, 0x69]) == 0x22270e50;
    HashOfParts([0x78, 0x2d, 0x72, 0x65, 0x61, 0x6c, 0x2d, 0x69], [0x70, 0x00], 0x22270e50);
    assert From(0x22270e50, [0x70, 0x00]) == 0x7b000b20;
  }

  /**
   Strays exist: a header line whose name is X-Real-IP and a NUL is stored as one, stays through every rewrite, and is
   printed as an ordinary X-Real-IP line with the value it came with.
   */
  lemma StrayIsPrinted(r: P.Request, v: CString, g: Gateway)
    requires r.headers == [] && (|v| > 0 ==> v[0] != SP && v[0] != TAB)
    ensures var e := Made(X_REAL_IP + [NUL], v);
      && P.HeaderLine(r, X_REAL_IP + [NUL] + [COLON] + v).headers == [e]
      && Stray(e, Lowered(X_REAL_IP))
      && e in Rewritten([e], g)
      && FieldText(e) == Lowered(X_REAL_IP) + [COLON, SP] + v
  {
    hide Hash, Lowered, CStr, Rewritten, Strays, Printed, IndexOf;
    var name := X_REAL_IP + [NUL];
    var e := Made(name, v);
    HashBehindNul();
    LowerBehindNul();
    CStrOf(v);
    assert COLON !in name;
    Cut(name, COLON, v);
    PrintedUnderOurNames([e], g, Lowered(X_REAL_IP));
    StraysMembers([e], Lowered(X_REAL_IP), e);
    PrintedMembers(Rewritten([e], g), Lowered(X_REAL_IP), e);
  }

  lemma {:induction false} PrintedMembers(hs: seq<Header>, name: Bytes, e: Header)
    ensures e in Printed(hs, name) <==> e in hs && CStr(e.name) == name
  {
    hide CStr;
    if |hs| > 0 {
      PrintedMembers(hs[..|hs| - 1], name, e);
      assert hs == hs[..|hs| - 1] + [hs[|hs| - 1]];
    }
  }
}
