/** From the client's bytes to the upstream's: parse, rewrite, print, and parse again on the other side. */
module Relay {
  import opened Bytes
  import opened Fnv
  import opened HeaderTable
  import opened HeaderSets
  import opened HttpParser
  import opened HttpSerialize
  import opened LineLimit
  import opened Options
  import opened RoundTrip
  import opened AsPrinted
  import R = ReqId
  import opened Rewrite
  import opened Gatekeeping
  import opened Forwarding
  import opened Idempotence
  import opened Provenance

  // ----- What the gateway brings along must be printable -----

  ghost predicate GoodValue(v: Bytes) {
    NUL !in v && Eol(v) == -1 && (|v| > 0 ==> v[0] != SP && v[0] != TAB)
  }

  ghost predicate GoodPair(p: Pair) {
    GoodField(Made(p.name, p.value))
  }

  ghost predicate GoodGateway(g: Gateway) {
    && (g.clientIp.Some? ==> GoodValue(g.clientIp.value))
    && (g.version.Some? ==> Eol(g.version.value) == -1)
    && GoodValue(g.reqId)
    && forall i | 0 <= i < |g.custom| :: GoodPair(g.custom[i])
  }

  lemma GoodFromValue(p: Pair)
    requires COLON !in Key(p) && CR !in Key(p) && GoodValue(p.value)
    ensures GoodPair(p)
  {
    hide Eol, Hash;
    EolNone(Key(p));
    EolSplit(Key(p), p.value);
    LoweredTwice(p.name);
  }

  lemma PlainNames()
    ensures forall n | n in Injected() :: COLON !in n && CR !in n
  {
    PlainName(X_REAL_IP);
    PlainName(X_FORWARDED_FOR);
    PlainName(X_FORWARDED_HOST);
    PlainName(X_FORWARDED_PROTO);
    PlainName(VIA);
    PlainName(REQ_ID);
    hide Lowered;
  }

  lemma PlainName(name: CString)
    requires forall i | 0 <= i < |name| :: name[i] != COLON && name[i] != CR
    ensures COLON !in Lowered(name) && CR !in Lowered(name)
  {
    forall i | 0 <= i < |name| ensures Lowered(name)[i] != COLON && Lowered(name)[i] != CR {
      LowerLineEnds(name[i]);
    }
  }

  lemma EolOfVersion(v: Bytes)
    requires Eol(v) == -1
    ensures Eol(VIA_PREFIX + v) == -1
  {
    hide Eol;
    var l, n := VIA_PREFIX + v, |VIA_PREFIX|;
    EolNone(l);
    EolNone(v);
    assert CR !in VIA_PREFIX;
    assert forall i | n <= i < |l| :: l[i] == v[i - n];
  }

  lemma GoodDefaults()
    ensures GoodValue(UNKNOWN) && GoodValue(PROTO_HTTP) && Eol(DEFAULT_VERSION) == -1
  {
    EolNone(UNKNOWN);
    EolNone(PROTO_HTTP);
    EolNone(DEFAULT_VERSION);
  }

  lemma ViaIsGood(g: Gateway)
    requires g.version.Some? ==> Eol(g.version.value) == -1
    ensures GoodValue(ViaValue(g))
  {
    hide Eol;
    GoodDefaults();
    var v := match g.version case Some(v) => v case None => DEFAULT_VERSION;
    EolOfVersion(v);
    EolPrefix(VIA_PREFIX + v, |ViaValue(g)|);
    assert ViaValue(g) == (VIA_PREFIX + v)[..|ViaValue(g)|];
    assert VIA_PREFIX[0] != SP && VIA_PREFIX[0] != TAB;
  }

  lemma {:induction false} PlainDigits(id: nat, room: nat)
    requires room > 0
    ensures forall i | 0 <= i < |R.Encoded(id, room)| :: R.Encoded(id, room)[i] >= 0x30
  {
    hide R.Digit;
    DigitIsPlain(id % 36);
    if id >= 36 && room > 1 {
      PlainDigits(id / 36, room - 1);
    }
  }

  lemma DigitIsPlain(d: nat)
    requires d < 36
    ensures R.Digit(d) >= 0x30
  {
  }

  /** Every generated identifier is printable. */
  lemma IdIsGood(now: nat, random: nat)
    ensures GoodValue(IdString(now, random))
  {
    hide Eol, R.Encoded, R.Id;
    var s := IdString(now, random);
    PlainDigits(R.Id(now, random), REQ_ID_SIZE - 1);
    EolNone(s);
  }

  // ----- Rewriting keeps a request printable -----

  /** What is in a table after set operations was in it before, or was set. */
  lemma {:induction false} SetAllMembers(hs: seq<Header>, sets: seq<Pair>, e: Header)
    requires Sized(hs) && e in SetAll(hs, sets)
    ensures e in hs || exists i | 0 <= i < |sets| :: e == Made(sets[i].name, sets[i].value)
  {
    hide SetTo, Made, Outside;
    if |sets| > 0 {
      var n := |sets| - 1;
      var t, p := SetAll(hs, sets[..n]), sets[n];
      SetAllSized(hs, sets[..n]);
      SetToIs(t, p);
      OutsideMembers(t, {Key(p)}, e);
      if e != Made(p.name, p.value) {
        SetAllMembers(hs, sets[..n], e);
        if e !in hs {
          var i :| 0 <= i < n && e == Made(sets[..n][i].name, sets[..n][i].value);
          assert e == Made(sets[i].name, sets[i].value);
        }
      }
    }
  }

  lemma RewrittenMembers(hs: seq<Header>, g: Gateway, e: Header)
    requires Sized(hs) && e in Rewritten(hs, g)
    ensures e in hs || exists i | 0 <= i < |Sets(hs, g)| :: e == Made(Sets(hs, g)[i].name, Sets(hs, g)[i].value)
  {
    hide Made, Outside, SetAll, Rewritten, Forged, Standard;
    RewriteIsSets(hs, g);
    SetAllMembers(Outside(hs, Forged()), Sets(hs, g), e);
    OutsideMembers(hs, Forged(), e);
  }

  lemma SetsSized(hs: seq<Header>, g: Gateway)
    requires Sized(hs)
    ensures |Rewritten(hs, g)| <= 32
  {
    hide Rewritten, SetAll, Outside, Sets, Forged, Standard;
    RewriteIsSets(hs, g);
    SetAllSized(Outside(hs, Forged()), Standard(Get(hs, HOST), g) + g.custom);
  }

  lemma PrintableString(v: Bytes)
    requires Eol(v) == -1 && (|v| > 0 ==> v[0] != SP && v[0] != TAB)
    ensures GoodValue(CStr(v))
  {
    hide Eol;
    assert CStr(v) == v[..|CStr(v)|];
    EolPrefix(v, |CStr(v)|);
  }

  lemma HostIsGood(hs: seq<Header>, name: CString)
    requires RawFields(hs) && Get(hs, name).Some?
    ensures GoodValue(CStr(Get(hs, name).value))
  {
    hide Eol, Hash, TagIndex, CStr;
    var e := hs[TagIndex(hs, name)];
    EolSplit(e.name, e.value);
    PrintableString(e.value);
  }

  lemma StandardIsGood(hs: seq<Header>, g: Gateway, i: nat)
    requires RawFields(hs) && GoodGateway(g) && i < |Standard(Get(hs, HOST), g)|
    ensures GoodPair(Standard(Get(hs, HOST), g)[i])
  {
    hide Eol, Hash, CStr, Lowered, ViaValue, Get, RawField, GoodPair;
    var host := Get(hs, HOST);
    var p := Standard(host, g)[i];
    GoodDefaults();
    ViaIsGood(g);
    if host.Some? {
      HostIsGood(hs, HOST);
    }
    PlainNames();
    assert Key(p) in Injected();
    GoodFromValue(p);
  }

  lemma SetsAreGood(hs: seq<Header>, g: Gateway, i: nat)
    requires RawFields(hs) && GoodGateway(g) && i < |Sets(hs, g)|
    ensures GoodPair(Sets(hs, g)[i])
  {
    hide RawFields, GoodPair, Standard, Get;
    if i < |Standard(Get(hs, HOST), g)| {
      StandardIsGood(hs, g, i);
    }
  }

  lemma RewriteStaysRaw(hs: seq<Header>, g: Gateway)
    requires RawFields(hs) && GoodGateway(g)
    ensures RawFields(Rewritten(hs, g))
    ensures NulFree(hs) ==> NulFree(Rewritten(hs, g))
  {
    hide Eol, Hash, Made, Rewritten, Sets, GoodGateway;
    SetsSized(hs, g);
    forall e | e in Rewritten(hs, g) ensures RawField(e) && (NulFree(hs) ==> NUL !in e.name && NUL !in e.value) {
      RewrittenMembers(hs, g, e);
      if e !in hs {
        var i :| 0 <= i < |Sets(hs, g)| && e == Made(Sets(hs, g)[i].name, Sets(hs, g)[i].value);
        SetsAreGood(hs, g, i);
      }
    }
  }

  function Forwarded(q: Request, g: Gateway): Request {
    q.(headers := Rewritten(q.headers, g))
  }

  /** Rewriting keeps a request as the parser accepts it, and a well-formed one well formed, but for line lengths. */
  lemma RewriteStaysWellFormed(q: Request, g: Gateway)
    requires Raw(q) && GoodGateway(g)
    ensures Raw(Forwarded(q, g))
    ensures WellFormed(q) ==> WellFormed(Forwarded(q, g))
  {
    hide RawFields, GoodFields, GoodLine, Rewritten, NulFree, GoodGateway, WellFormed;
    RewriteStaysRaw(q.headers, g);
    WellFormedIsRaw(q);
    WellFormedIsRaw(Forwarded(q, g));
  }

  // ----- The announced body -----

  lemma HashContentLength()
    ensures Hash(Lowered(CONTENT_LENGTH)) == 0x4df9451d
  {
    var a: Bytes, b: Bytes := [0x63, 0x6f, 0x6e, 0x74, 0x65, 0x6e, 0x74, 0x2d], [0x6c, 0x65, 0x6e, 0x67, 0x74, 0x68];
    LowerContentLength();
    assert From(OFFSET, [0x63, 0x6f, 0x6e, 0x74, 0x65, 0x6e, 0x74, 0x2d]) == 0xcb4e713d;
    HashOfParts(a, b, 0xcb4e713d);
    assert From(0xcb4e713d, [0x6c, 0x65, 0x6e, 0x67, 0x74, 0x68]) == 0x4df9451d;
  }

  lemma LowerContentLength()
    ensures Lowered(CONTENT_LENGTH)
         == [0x63, 0x6f, 0x6e, 0x74, 0x65, 0x6e, 0x74, 0x2d] + [0x6c, 0x65, 0x6e, 0x67, 0x74, 0x68]
  {
  }

  lemma ContentLengthStandsApart()
    ensures OtherHash(Injected(), CONTENT_LENGTH)
    ensures Hash([]) != Hash(Lowered(CONTENT_LENGTH))
  {
    hide Hash, From, Lowered;
    HashContentLength();
    InjectedHashes();
    HashOfNothing();
  }

  lemma HashOfNothing()
    ensures Hash([]) == OFFSET
  {
  }

  /** The body length a header table announces. */
  function Announced(hs: seq<Header>): int {
    match Get(hs, CONTENT_LENGTH) case Some(v) => Atoi(CStr(v)) case None => 0
  }

  lemma AnnouncedIs(hs: seq<Header>)
    ensures Announced(hs) == match AsString(Get(hs, CONTENT_LENGTH)) case Some(v) => Atoi(v) case None => 0
  {
    hide Get, Atoi, CStr;
  }

  lemma AnnouncedAlike(a: seq<Header>, b: seq<Header>)
    requires AsString(Get(a, CONTENT_LENGTH)) == AsString(Get(b, CONTENT_LENGTH))
    ensures Announced(a) == Announced(b)
  {
    hide Get, Atoi, AsString, Announced;
    AnnouncedIs(a);
    AnnouncedIs(b);
  }

  lemma AsStringTwice(v: Option<Bytes>)
    ensures AsString(AsString(v)) == AsString(v)
  {
  }

  /** Rewriting does not change the body length the printed request announces. */
  lemma SameContentLength(hs: seq<Header>, g: Gateway)
    requires Sized(hs) && OtherHash(Names(g.custom), CONTENT_LENGTH)
    ensures Announced(Seen(Rewritten(hs, g))) == Announced(Seen(hs))
  {
    hide Hash, Lowered, Outside, Get, SetAll, Names, Rewritten, Standard, Forged, Seen, Announced, OtherHash;
    ContentLengthStandsApart();
    ForgedApart();
    SetsApart(hs, g);
    RewriteIsSets(hs, g);
    GetSeenAfterSets(Outside(hs, Forged()), Sets(hs, g), CONTENT_LENGTH);
    GetSeenOutside(hs, Forged(), CONTENT_LENGTH);
    AnnouncedAlike(Seen(Rewritten(hs, g)), Seen(hs));
  }

  lemma ForgedApart()
    ensures OtherHash(Forged(), CONTENT_LENGTH)
  {
    hide Hash, Lowered;
    ContentLengthStandsApart();
  }

  lemma SetsApart(hs: seq<Header>, g: Gateway)
    requires OtherHash(Names(g.custom), CONTENT_LENGTH)
    ensures OtherHash(Names(Sets(hs, g)), CONTENT_LENGTH)
  {
    hide Hash, Lowered, Names, Sets;
    ContentLengthStandsApart();
    SetsNames(hs, g);
  }

  /** If every header goes by the name it is printed under, the printed request announces what the table announces. */
  lemma SeenAnnounced(hs: seq<Header>)
    requires forall e | e in hs :: Called(e, CStr(e.name))
    ensures Announced(Seen(hs)) == Announced(hs)
  {
    hide Hash, Lowered, Get, Seen, Announced, CStr, AsString;
    ContentLengthStandsApart();
    GetSeenSame(hs, CONTENT_LENGTH);
    AsStringTwice(Get(hs, CONTENT_LENGTH));
    AnnouncedAlike(Seen(hs), hs);
  }

  // ----- Across the gateway -----

  /** The request an upstream finds in what the gateway prints for the client's bytes d. */
  function Arriving(d: Bytes, g: Gateway): Request {
    SeenRequest(Forwarded(Feed(INIT, d).0, g))
  }

  ghost predicate Readable(d: Bytes, g: Gateway) {
    WellFormed(Arriving(d, g)) && Fits(Arriving(d, g))
  }

  /**
   For any client bytes and any configuration: what the gateway prints is read back by the other side as it is shown, if
   and only if what is shown is well formed and every line of it fits the line buffer.
   */
  lemma ReadBackIff(d: Bytes, g: Gateway)
    ensures var text := Print(Forwarded(Feed(INIT, d).0, g));
      Feed(INIT, text) == (Received(Arriving(d, g)), |text|) <==> Readable(d, g)
  {
    hide Feed, Print, WellFormed, Rewritten, Fits, Received, SeenRequest;
    PrintSeen(Forwarded(Feed(INIT, d).0, g));
    RoundTripIff(Arriving(d, g));
  }

  /** If the gateway's own values and the configured headers are printable, an accepted request is shown well formed. */
  lemma ArrivingIsWellFormed(d: Bytes, g: Gateway)
    requires Accepts(d) && GoodGateway(g)
    ensures WellFormed(Arriving(d, g))
  {
    hide Feed, WellFormed, Rewritten, GoodGateway, Raw, SeenRequest, Forwarded;
    AcceptedIsWellFormed(d);
    RewriteStaysWellFormed(Feed(INIT, d).0, g);
    SeenIsWellFormed(Forwarded(Feed(INIT, d).0, g));
  }

  /** Then only the length of the lines counts. */
  lemma ReadBackIffItFits(d: Bytes, g: Gateway)
    requires Accepts(d) && GoodGateway(g)
    ensures var text := Print(Forwarded(Feed(INIT, d).0, g));
      Feed(INIT, text) == (Received(Arriving(d, g)), |text|) <==> Fits(Arriving(d, g))
  {
    hide Feed, Print, WellFormed, Rewritten, Fits, GoodGateway, Received, SeenRequest, Forwarded;
    ArrivingIsWellFormed(d, g);
    ReadBackIff(d, g);
  }

  // ----- A value with a blank in front -----

  lemma {:induction false} ShownIsSeen(hs: seq<Header>, e: Header)
    requires e in hs && CStr(e.name) != []
    ensures Shown(e) in Seen(hs)
  {
    hide CStr, Shown;
    if e != hs[0] {
      assert e in hs[1..];
      ShownIsSeen(hs[1..], e);
    }
  }

  /** An entry whose value is shown with a blank in front is never read back. */
  lemma BlankIsNotReadBack(d: Bytes, g: Gateway, e: Header)
    requires e in Rewritten(Feed(INIT, d).0.headers, g) && CStr(e.name) != []
    requires |CStr(e.value)| > 0 && (CStr(e.value)[0] == SP || CStr(e.value)[0] == TAB)
    ensures !Readable(d, g)
  {
    hide Feed, Rewritten, CStr, GoodLine, Seen, Fits, Hash, Eol;
    var hs := Rewritten(Feed(INIT, d).0.headers, g);
    ShownIsSeen(hs, e);
    var i :| 0 <= i < |Seen(hs)| && Seen(hs)[i] == Shown(e);
    assert !GoodField(Seen(hs)[i]);
  }

  lemma {:induction false} LastValueOfLater(a: seq<Pair>, b: seq<Pair>, name: Bytes)
    requires name in Names(b)
    ensures name in Names(a + b) && LastValue(a + b, name) == LastValue(b, name)
  {
    hide Key;
    var n := |b| - 1;
    assert (a + b)[..|a + b| - 1] == a + b[..n] && (a + b)[|a + b| - 1] == b[n];
    if Key(b[n]) != name {
      LastValueOfLater(a, b[..n], name);
    }
  }

  /**
   The configuration reader stores the value of `name: value` with the blank behind the colon. If such a header is the
   last configured under its name, and all headers found room, no request is read back as it is shown.
   */
  lemma ConfiguredBlankIsNotReadBack(d: Bytes, g: Gateway, name: Bytes)
    requires name in Names(g.custom) && name != []
    requires AllAccepted(Feed(INIT, d).0.headers, g)
    requires var v := LastValue(g.custom, name).value; |v| > 0 && (v[0] == SP || v[0] == TAB)
    ensures !Readable(d, g)
  {
    hide Feed, Rewritten, CStr, Readable, Outside, SetAll, Named, LastValue, Made, Standard, Get, Names, Forged;
    hide Accepted, Key, Called;
    var hs := Feed(INIT, d).0.headers;
    var r, p := Rewritten(hs, g), LastValue(g.custom, name);
    ParsedSized(d);
    LastValueOfLater(Standard(Get(hs, HOST), g), g.custom, name);
    RewriteIsSets(hs, g);
    AcceptedIsPresent(Outside(hs, Forged()), Sets(hs, g), name);
    SetAllNamed(Outside(hs, Forged()), Sets(hs, g), name);
    var e := Made(p.name, p.value);
    assert Named(r, name)[0] == e;
    NamedMembers(r, name, e);
    MadeIsCalled(p);
    BlankIsNotReadBack(d, g, e);
  }

  lemma EndOfHeadersIs(q: Request)
    ensures var u := Received(q);
      && u.verb == q.verb && u.path == q.path && u.version == q.version && u.headers == q.headers
      && (u.state == BODY <==> Announced(q.headers) > 0) && (u.state == DONE <==> Announced(q.headers) <= 0)
      && u.bodyRemaining == Announced(q.headers)
  {
    hide Get, Atoi, CStr;
  }

  /**
   What is readable arrives: the client's request line, the rewritten headers as they are shown, and the other side
   waits for as many body bytes as the client's headers announced when shown.
   */
  lemma ClientToUpstream(d: Bytes, g: Gateway)
    requires Readable(d, g)
    ensures var q := Feed(INIT, d).0;
      var (u, used) := Feed(INIT, Print(Forwarded(q, g)));
      && used == |Print(Forwarded(q, g))|
      && u.verb == q.verb && u.path == q.path && u.version == q.version
      && u.headers == Seen(Rewritten(q.headers, g))
      && (u.state == BODY <==> Announced(u.headers) > 0) && (u.state == DONE <==> Announced(u.headers) <= 0)
      && u.bodyRemaining == Announced(u.headers)
      && (OtherHash(Names(g.custom), CONTENT_LENGTH) ==> Announced(u.headers) == Announced(Seen(q.headers)))
  {
    hide Feed, Print, Rewritten, Readable, OtherHash, Received, Announced, Seen, Names;
    var q := Feed(INIT, d).0;
    ReadBackIff(d, g);
    EndOfHeadersIs(Arriving(d, g));
    ParsedSized(d);
    if OtherHash(Names(g.custom), CONTENT_LENGTH) {
      SameContentLength(q.headers, g);
    }
  }

  lemma ParsedSized(d: Bytes)
    ensures Sized(Feed(INIT, d).0.headers)
  {
    hide Feed, GoodLine, RawField;
    FeedStaysSound(INIT, d);
  }

  /**
   What the upstream holds under an injected or configured name: the strays the client sent under it, as they are
   shown, and then at most the gateway's own header.
   */
  lemma UpstreamHolds(d: Bytes, g: Gateway, name: Bytes)
    requires Readable(d, g) && name in Ours(g) && name != []
    ensures var q, u := Feed(INIT, d).0, Feed(INIT, Print(Forwarded(Feed(INIT, d).0, g))).0;
      Named(u.headers, name) == Seen(Strays(q.headers, name)) + Named(Rewritten(q.headers, g), name)
    ensures |Seen(Strays(Feed(INIT, d).0.headers, name))| == |Strays(Feed(INIT, d).0.headers, name)|
  {
    hide Feed, Print, Rewritten, Readable, Announced, Seen, Named, Strays, Printed, OtherHash, Ours;
    hide LastValue, Sets, Made, Names;
    var q := Feed(INIT, d).0;
    var ours := Named(Rewritten(q.headers, g), name);
    ClientToUpstream(d, g);
    ParsedSized(d);
    NamedSeen(Rewritten(q.headers, g), name);
    PrintedUnderOurNames(q.headers, g, name);
    SeenAppend(Strays(q.headers, name), ours);
    OursSeen(q.headers, g, name);
    LengthsAdd(q.headers, g, name);
  }

  /** The gateway's own header is shown as it is. */
  lemma OursSeen(hs: seq<Header>, g: Gateway, name: Bytes)
    requires Sized(hs) && name in Ours(g) && name != []
    ensures Seen(Named(Rewritten(hs, g), name)) == Named(Rewritten(hs, g), name)
  {
    hide Rewritten, Named, Strays, Printed, Ours, LastValue, Sets, Made, Names, CStr, Hash, Key;
    var ours := Named(Rewritten(hs, g), name);
    PrintedUnderOurNames(hs, g, name);
    if ours != [] {
      var p := LastValue(Sets(hs, g), name);
      MadeIsCalled(p);
      MadeValue(p.name, p.value);
      SeenOne(ours[0]);
      assert ours == [ours[0]];
    }
  }

  lemma LengthsAdd(hs: seq<Header>, g: Gateway, name: Bytes)
    requires Sized(hs) && name in Ours(g) && name != []
    ensures |Seen(Strays(hs, name))| == |Strays(hs, name)|
  {
    hide Rewritten, Named, Strays, Printed, Ours, LastValue, Sets, Made, Names, Seen;
    PrintedUnderOurNames(hs, g, name);
    NamedSeen(Rewritten(hs, g), name);
    SeenAppend(Strays(hs, name), Named(Rewritten(hs, g), name));
    OursSeen(hs, g, name);
  }

  /** So the upstream holds nothing under such a name but the gateway's own header, if and only if no stray came in. */
  lemma UpstreamHoldsOursIff(d: Bytes, g: Gateway, name: Bytes)
    requires Readable(d, g) && name in Ours(g) && name != []
    ensures var q, u := Feed(INIT, d).0, Feed(INIT, Print(Forwarded(Feed(INIT, d).0, g))).0;
      Named(u.headers, name) == Named(Rewritten(q.headers, g), name) <==> forall e | e in q.headers :: !Stray(e, name)
  {
    hide *;
    var hs := Feed(INIT, d).0.headers;
    UpstreamHolds(d, g, name);
    NoStrays(hs, name);
  }

  lemma NoStrays(hs: seq<Header>, name: Bytes)
    ensures |Strays(hs, name)| == 0 <==> forall e | e in hs :: !Stray(e, name)
  {
    hide Strays, Stray;
    forall e | e in hs ensures e in Strays(hs, name) <==> Stray(e, name) {
      StraysMembers(hs, name, e);
    }
    if |Strays(hs, name)| > 0 {
      StraysMembers(hs, name, Strays(hs, name)[0]);
    }
  }

  /** Every value the upstream holds under a name the gateway set is the gateway's, exactly when all strays carry it. */
  lemma UpstreamValuesIff(d: Bytes, g: Gateway, name: Bytes)
    requires Readable(d, g) && name in Ours(g) && name != [] && name in Names(Sets(Feed(INIT, d).0.headers, g))
    ensures var q, u := Feed(INIT, d).0, Feed(INIT, Print(Forwarded(Feed(INIT, d).0, g))).0;
      var v := LastValue(Sets(q.headers, g), name).value;
      (forall e | e in Named(u.headers, name) :: e.value == v) <==>
      forall e | e in q.headers && Stray(e, name) :: CStr(e.value) == v
  {
    hide Feed, Print, Rewritten, Readable, Seen, Named, Strays, CStr, Made, Stray, Sets, LastValue, Ours, Names;
    hide Printed;
    var hs := Feed(INIT, d).0.headers;
    var p := LastValue(Sets(hs, g), name);
    UpstreamHolds(d, g, name);
    ParsedSized(d);
    PrintedUnderOurNames(hs, g, name);
    MadeValue(p.name, p.value);
    forall e ensures e in Strays(hs, name) <==> e in hs && Stray(e, name) {
      StraysMembers(hs, name, e);
    }
    SeenValues(Strays(hs, name), p.value, name);
  }

  lemma RealIpValue(hs: seq<Header>, g: Gateway)
    requires Lowered(X_REAL_IP) !in Names(g.custom)
    ensures var name := Lowered(X_REAL_IP);
      name in Names(Sets(hs, g)) && LastValue(Sets(hs, g), name).value == RealIp(g)
  {
    hide Lowered, Get, Names, LastValue, RealIp, ViaValue, CStr, Distinct;
    var std := Standard(Get(hs, HOST), g);
    StandardDistinct(Get(hs, HOST), g);
    LastValueOf(std, 0);
    LastValueAppend(std, g.custom, Lowered(X_REAL_IP));
  }

  /**
   Unless X-Real-IP is itself configured: every X-Real-IP the upstream holds is the address the gateway gives, exactly
   when all strays carry it too.
   */
  lemma UpstreamSeesTheRealClientIff(d: Bytes, g: Gateway)
    requires Readable(d, g) && Lowered(X_REAL_IP) !in Names(g.custom)
    ensures var q, u := Feed(INIT, d).0, Feed(INIT, Print(Forwarded(Feed(INIT, d).0, g))).0;
      (forall e | e in Named(u.headers, Lowered(X_REAL_IP)) :: e.value == RealIp(g)) <==>
      forall e | e in q.headers && Stray(e, Lowered(X_REAL_IP)) :: CStr(e.value) == RealIp(g)
  {
    hide *;
    RealIpIsOurs(g);
    RealIpValue(Feed(INIT, d).0.headers, g);
    UpstreamValuesIff(d, g, Lowered(X_REAL_IP));
  }

  lemma RealIpIsOurs(g: Gateway)
    ensures Lowered(X_REAL_IP) in Ours(g) && Lowered(X_REAL_IP) != []
  {
    hide Names;
  }

  lemma MadeValue(name: CString, value: CString)
    ensures Made(name, value).value == value
  {
  }

  /** The values shown are the values as C strings. */
  lemma {:induction false} SeenValues(hs: seq<Header>, v: Bytes, name: Bytes)
    requires name != [] && forall e | e in hs :: Stray(e, name)
    ensures (forall e | e in Seen(hs) :: e.value == v) <==> forall e | e in hs :: CStr(e.value) == v
  {
    hide Hash, CStr;
    if |hs| > 0 {
      SeenValues(hs[1..], v, name);
      assert hs == [hs[0]] + hs[1..];
      assert hs[0] in hs;
      assert Seen(hs) == [Shown(hs[0])] + Seen(hs[1..]);
    }
  }
}
