/** One concrete request with a body, all the way through the gateway; and the same one through many workers. */
module OneRequest {
  import opened Bytes
  import opened Fnv
  import opened HeaderTable
  import opened HeaderSets
  import opened Options
  import P = HttpParser
  import opened HttpSerialize
  import opened LineLimit
  import RL = RateLimit
  import U = Upstream
  import opened RoundTrip
  import opened AsPrinted
  import opened Rewrite
  import opened Gatekeeping
  import opened Forwarding
  import opened Provenance
  import R = ReqId
  import Relay
  import W = Worker
  import opened Dispatch

  // "GET", "/", "1", "x"
  const GET: Bytes := [0x47, 0x45, 0x54]
  const ROOT: Bytes := [0x2f]
  const ONE: CString := [0x31]
  const BODY_BYTE: Bytes := [0x78]

  function Length(): Header {
    Made(P.CONTENT_LENGTH, ONE)
  }

  /** The request as the gateway has it once the body byte is in. */
  function Whole(): P.Request {
    P.Request(P.DONE, GET, ROOT, P.HTTP_11, [Length()], 0)
  }

  function Usual(): Gateway {
    Gateway(Some(ONE), Some(DEFAULT_VERSION), IdString(0, 0), [])
  }

  function OneByte(): Arrival {
    Arrival(Print(Whole()) + BODY_BYTE, false, RL.Call("1", 0, 0), Usual(), 5)
  }

  function Ready(): Gate {
    Gate(RL.Limiter([], 1), U.Balancer(OneNode(), 1, 1))
  }

  // ----- The client's request -----

  lemma LengthIsGood()
    ensures GoodField(Length()) && |Length().name| == 14 && Length().value == ONE
    ensures CStr(Length().name) == Length().name && CStr(Length().value) == ONE
    ensures Called(Length(), Length().name)
  {
    hide Hash, P.Eol, CStr, GoodField;
    var p := Pair(P.CONTENT_LENGTH, ONE);
    Relay.PlainName(P.CONTENT_LENGTH);
    EolNone(ONE);
    Relay.GoodFromValue(p);
    MadeIsCalled(p);
  }

  lemma LineIsGood()
    ensures GoodLine(GET, ROOT, P.HTTP_11)
  {
    hide P.Eol;
    var l := GET + [SP] + ROOT + [SP] + P.HTTP_11;
    assert CR !in GET && CR !in ROOT && CR !in P.HTTP_11;
    EolNone(l);
  }

  lemma WholeIsWellFormed()
    ensures WellFormed(Whole()) && Fits(Whole())
  {
    hide Hash, GoodField, GoodLine, Length, CStr, Called;
    LengthIsGood();
    LineIsGood();
    PartsAreShort();
    var hs := Whole().headers;
    assert |hs| == 1 && hs[0] == Length();
  }

  lemma PartsAreShort()
    ensures |GET| + |ROOT| + |P.HTTP_11| + 2 <= 14
  {
  }

  lemma LineIsShort()
    ensures |RequestLineText(GET, ROOT, P.HTTP_11)| <= 14
  {
    hide IndexOf;
    PartsAreShort();
  }

  lemma OneIsOne()
    ensures P.Atoi(ONE) == 1
  {
    assert P.Digits(0, ONE) == P.Digits(10 * 0 + 1, ONE[1..]);
  }

  lemma AnnouncedOnce()
    ensures Relay.Announced([Length()]) == 1
  {
    hide Hash, P.Atoi, Length;
    LengthIsGood();
    OneIsOne();
    LengthHash();
  }

  lemma LengthHash()
    ensures Length().hash == Hash(Lowered(P.CONTENT_LENGTH))
  {
  }

  /** The parser takes the byte as the body and is done. */
  lemma RequestIsParsed()
    ensures Parsed(OneByte()) == Whole()
  {
    hide P.Feed, Print, WellFormed, Fits, Received, Relay.Announced;
    WholeIsWellFormed();
    PrintThenParse(Whole(), BODY_BYTE);
    Relay.EndOfHeadersIs(Whole());
    AnnouncedOnce();
    LastByte(Received(Whole()));
  }

  lemma LastByte(r: P.Request)
    requires r.state == P.BODY && r.bodyRemaining == 1
    ensures P.Feed(r, BODY_BYTE).0 == r.(state := P.DONE, bodyRemaining := 0)
  {
    assert P.Step(r, BODY_BYTE) == (r.(state := P.DONE, bodyRemaining := 0), 1);
    assert BODY_BYTE[1..] == [];
  }

  // ----- The rewritten request is small -----

  ghost predicate Short(h: Header) {
    |h.name| + |h.value| <= 100 && h.name != []
  }

  lemma {:induction false} FieldsAreShort(hs: seq<Header>)
    requires forall e | e in hs :: Short(e)
    ensures |Fields(hs)| <= 104 * |hs|
  {
    hide CStr;
    if |hs| > 0 {
      FieldsAreShort(hs[1..]);
      assert hs[0] in hs;
      FieldIsShort(hs[0]);
    }
  }

  lemma FieldIsShort(h: Header)
    requires Short(h)
    ensures |FieldLine(h)| <= 104
  {
  }

  ghost predicate Tiny(x: Header) {
    Short(x) && |x.value| <= 1
  }

  lemma HostIsShort(x: Header)
    requires Tiny(x)
    ensures var host := HeaderTable.Get([x], HOST); host.Some? ==> |host.value| <= 1
  {
    hide Hash;
  }

  lemma StandardIsShort(x: Header, i: nat)
    requires Tiny(x) && i < |Standard(HeaderTable.Get([x], HOST), Usual())|
    ensures var p := Standard(HeaderTable.Get([x], HOST), Usual())[i];
      |p.name| + |p.value| <= 100 && p.name != []
  {
    hide Hash, HeaderTable.Get, R.Encoded, R.Id, CStr;
    HostIsShort(x);
  }

  lemma UsualSets(x: Header)
    ensures Sets([x], Usual()) == Standard(HeaderTable.Get([x], HOST), Usual())
  {
    hide HeaderTable.Get, Standard;
  }

  lemma LengthIsTiny()
    ensures Tiny(Length())
  {
    hide Hash;
    LengthIsGood();
  }

  lemma MadeIsShort(p: Pair)
    requires |p.name| + |p.value| <= 100 && p.name != []
    ensures Short(Made(p.name, p.value))
  {
    hide Hash;
  }

  lemma RewrittenIsShort(x: Header, e: Header)
    requires Tiny(x) && e in Rewritten([x], Usual())
    ensures Short(e)
  {
    hide Rewritten, Sets, Usual, Short, Made, Standard;
    Relay.RewrittenMembers([x], Usual(), e);
    if e != x {
      var i :| 0 <= i < |Sets([x], Usual())| && e == Made(Sets([x], Usual())[i].name, Sets([x], Usual())[i].value);
      UsualSets(x);
      StandardIsShort(x, i);
      MadeIsShort(Sets([x], Usual())[i]);
    }
  }

  lemma OutgoingIsShort()
    ensures |Outgoing(OneByte())| < 4096
  {
    hide P.Feed, Rewritten, Parsed, Fields, Tiny, Short, Usual, OneByte, Length;
    RequestIsParsed();
    LengthIsTiny();
    var hs := Rewritten([Length()], Usual());
    forall e | e in hs ensures Short(e) {
      RewrittenIsShort(Length(), e);
    }
    UsualGateway();
    FieldsAreShort(hs);
    Relay.SetsSized([Length()], Usual());
    LineIsShort();
  }

  lemma UsualGateway()
    ensures OneByte().gateway == Usual()
  {
  }

  // ----- What comes of it -----

  lemma TokenIsThere()
    ensures RL.Check(RL.Limiter([], 1), RL.Call("1", 0, 0)).1
  {
    assert RL.Stored("1") == "1";
  }

  /** A single node of weight 1, unused so far. */
  function OneNode(): seq<U.Node> {
    [U.Node("n", 80, 1, true, 0)]
  }

  lemma NodeIsThere()
    ensures U.Weighted(OneNode()) && U.PickIndex(OneNode()) == 0
  {
    assert U.HealthyWeights(OneNode()) == [1];
    assert [1][..0] == [];
    U.SomeHealthy(OneNode());
  }

  lemma UsualIsGood()
    ensures Relay.GoodGateway(Usual())
  {
    hide P.Eol, IdString;
    EolNone(ONE);
    Relay.GoodDefaults();
    Relay.IdIsGood(0, 0);
  }

  lemma {:induction false} SeenAreShort(hs: seq<Header>)
    requires forall e | e in hs :: Short(e)
    ensures forall i | 0 <= i < |Seen(hs)| :: Short(Seen(hs)[i])
  {
    hide CStr, Hash;
    if |hs| > 0 {
      SeenAreShort(hs[1..]);
      assert hs[0] in hs;
    }
  }

  /** A short request line and one tiny header: every line that is shown fits. */
  lemma LinesFit(d: Bytes, x: Header)
    requires P.Feed(P.INIT, d).0.verb == GET && P.Feed(P.INIT, d).0.path == ROOT
    requires P.Feed(P.INIT, d).0.version == P.HTTP_11 && P.Feed(P.INIT, d).0.headers == [x] && Tiny(x)
    ensures Fits(Relay.Arriving(d, Usual()))
  {
    hide P.Feed, Rewritten, Seen, Usual;
    PartsAreShort();
    var hs := Rewritten([x], Usual());
    forall e | e in hs ensures Short(e) {
      RewrittenIsShort(x, e);
    }
    SeenAreShort(hs);
  }

  lemma GateOpens()
    requires Parsed(OneByte()) == Whole() && |Outgoing(OneByte())| < 4096
    ensures U.Weighted(Ready().balancer.nodes) && Route(Ready(), OneByte()).1 == W.Connected(5)
  {
    hide Parsed, Outgoing, Print, RL.Check, U.Apply, U.PickIndex, Usual, Length, OneNode;
    TokenIsThere();
    NodeIsThere();
    ByteIsThere();
    RootIsNotStatic();
  }

  lemma ByteIsThere()
    ensures OneByte().bytes != [] && !OneByte().blocked && OneByte().ufd == 5
  {
    hide Print, Usual;
    assert OneByte().bytes[|Print(Whole())|] == 0x78;
  }

  lemma RootIsNotStatic()
    ensures !(STATIC <= CStr(ROOT))
  {
    assert |STATIC| == 8 && |CStr(ROOT)| <= 1;
  }

  lemma SeenLength()
    ensures Seen([Length()]) == [Length()]
  {
    hide Hash, Length, Seen, GoodField, CStr;
    LengthIsGood();
    SeenAsIs([Length()]);
  }

  /**
   A request with one body byte, complete at the gateway, gets its upstream connection; what is printed for it leaves
   the upstream waiting for one byte that is not coming.
   */
  lemma BodyIsNotForwarded()
    ensures U.Weighted(Ready().balancer.nodes) && Route(Ready(), OneByte()).1.Connected?
    ensures Parsed(OneByte()).state == P.DONE && Relay.Announced(Parsed(OneByte()).headers) == 1
    ensures var u := P.Feed(P.INIT, Outgoing(OneByte())).0; u.state == P.BODY && u.bodyRemaining == 1
  {
    hide P.Feed, Print, Rewritten, Seen, Route, Fits, WellFormed;
    hide Relay.Announced, Relay.GoodGateway, Relay.Arriving, Relay.Forwarded;
    hide Length, Usual, Parsed, Outgoing, OtherHash, OneByte, Tiny;
    RequestIsParsed();
    OutgoingIsShort();
    GateOpens();
    OutgoingIs(OneByte());
    UsualIsGood();
    UsualGateway();
    LengthIsTiny();
    LinesFit(OneByte().bytes, Length());
    ConnectedIsAccepted(Ready(), OneByte());
    NothingConfigured();
    Relay.ArrivingIsWellFormed(OneByte().bytes, Usual());
    Relay.ClientToUpstream(OneByte().bytes, Usual());
    SeenLength();
    AnnouncedOnce();
  }

  lemma NothingConfigured()
    ensures OtherHash(Names(Usual().custom), P.CONTENT_LENGTH)
  {
    NoCustomNames();
  }

  // ----- A stray -----

  // "2"
  const TWO: CString := [0x32]

  function StrayLine(): Bytes {
    X_REAL_IP + [NUL] + [COLON] + TWO
  }

  /** The bytes of a request whose only header line has a NUL behind its name. */
  function StrayBytes(): Bytes {
    RequestLineText(GET, ROOT, P.HTTP_11) + EOL + (StrayLine() + EOL + (EOL + []))
  }

  function StrayHeader(): Header {
    Made(X_REAL_IP + [NUL], TWO)
  }

  function AfterLine(): P.Request {
    P.INIT.(state := P.HEADER, verb := GET, path := ROOT, version := P.HTTP_11)
  }

  lemma LineIsTaken(r: P.Request, name: Bytes, v: Bytes)
    requires r.state == P.HEADER && r.headers == [] && COLON !in name && CR !in name && CR !in v
    requires |v| > 0 && v[0] != SP && v[0] != TAB
    ensures var l := name + [COLON] + v;
      P.Eol(l) == -1 && P.TakeLine(r, l) == (r.(headers := [Made(name, v)]), |l| + 2)
  {
    hide P.Eol, P.TakeLine, Made;
    EolNone(name + [COLON] + v);
    TakeNamed(r, name, v);
    assert [] + [Made(name, v)] == [Made(name, v)];
  }

  lemma StrayLineIsTaken()
    ensures P.Eol(StrayLine()) == -1 && |StrayLine()| < 1024
    ensures P.TakeLine(AfterLine(), StrayLine()) == (AfterLine().(headers := [StrayHeader()]), |StrayLine()| + 2)
  {
    hide P.Eol, P.TakeLine, Made;
    LineIsTaken(AfterLine(), X_REAL_IP + [NUL], TWO);
    StrayLineIsShort();
  }

  lemma StrayLineIsShort()
    ensures |StrayLine()| < 20
  {
  }

  lemma StrayIsParsed()
    ensures var q := P.Feed(P.INIT, StrayBytes()).0;
      && Accepts(StrayBytes()) && q.headers == [StrayHeader()]
      && q.verb == GET && q.path == ROOT && q.version == P.HTTP_11
  {
    hide P.Feed, P.Eol, P.TakeLine, P.EndOfHeaders, RequestLineText, StrayHeader, StrayLine;
    var r, q := AfterLine().(headers := [StrayHeader()]), P.EndOfHeaders(AfterLine().(headers := [StrayHeader()]));
    LineComesBack();
    FeedWholeLine(P.INIT, RequestLineText(GET, ROOT, P.HTTP_11), StrayLine() + EOL + (EOL + []));
    StrayLineIsTaken();
    FeedWholeLine(AfterLine(), StrayLine(), EOL + []);
    EmptyLine(r);
    FeedWholeLine(r, [], []);
    assert [] + EOL + [] == EOL + [];
    P.FeedStuck(q, []);
    EndKeeps(r);
  }

  lemma EndKeeps(r: P.Request)
    ensures var q := P.EndOfHeaders(r);
      && q.headers == r.headers && q.verb == r.verb && q.path == r.path && q.version == r.version
      && (q.state == P.BODY || q.state == P.DONE)
  {
    hide HeaderTable.Get;
  }

  lemma LineComesBack()
    ensures var l := RequestLineText(GET, ROOT, P.HTTP_11);
      P.Eol(l) == -1 && |l| < 1024 && P.TakeLine(P.INIT, l) == (AfterLine(), |l| + 2)
  {
    hide P.Eol, P.TakeLine, RequestLineText, GoodLine;
    var q := P.Request(P.HEADER, GET, ROOT, P.HTTP_11, [], 0);
    LineIsGood();
    PartsAreShort();
    RequestLineParts(q);
  }

  lemma StrayIsTiny()
    ensures Tiny(StrayHeader()) && StrayHeader().value == TWO
  {
    hide Hash;
  }

  /**
   The bytes are accepted, and what is printed for them is read back; but under X-Real-IP the upstream holds a value
   that is not the address the gateway gives.
   */
  lemma StrayReachesUpstream()
    ensures Accepts(StrayBytes()) && Relay.GoodGateway(Usual()) && Relay.Readable(StrayBytes(), Usual())
    ensures var u := P.Feed(P.INIT, Print(Relay.Forwarded(P.Feed(P.INIT, StrayBytes()).0, Usual()))).0;
      exists e | e in Named(u.headers, Lowered(X_REAL_IP)) :: e.value != RealIp(Usual())
  {
    hide P.Feed, Print, Rewritten, Seen, Fits, WellFormed, StrayBytes, StrayHeader, Named, Lowered, CStr, Tiny;
    hide Relay.GoodGateway, Relay.Arriving, Relay.Forwarded, Usual, RealIp;
    var d, e := StrayBytes(), StrayHeader();
    StrayIsParsed();
    StrayIsTiny();
    LinesFit(d, e);
    UsualIsGood();
    Relay.ArrivingIsWellFormed(d, Usual());
    StrayIsStray();
    UsualAddress();
    Relay.UpstreamSeesTheRealClientIff(d, Usual());
    assert e in [e];
  }

  lemma StrayIsStray()
    ensures Stray(StrayHeader(), Lowered(X_REAL_IP)) && CStr(StrayHeader().value) == TWO
  {
    hide Hash, Rewritten, Lowered;
    StrayIsPrinted(P.INIT, TWO, Usual());
    CStrOf(TWO);
  }

  lemma UsualAddress()
    ensures RealIp(Usual()) == ONE && ONE != TWO && Lowered(X_REAL_IP) !in Names(Usual().custom)
  {
    hide Lowered;
    NoCustomNames();
  }

  // ----- Many workers -----

  /** n workers, just forked, each given the request once. */
  function Crowd(n: nat): seq<Share> {
    if n == 0 then [] else Crowd(n - 1) + [Share(Ready(), [OneByte()], 0)]
  }

  lemma OneReaches()
    ensures Reaches(OneByte()) && OneByte().call == RL.Call("1", 0, 0)
  {
    hide Parsed, Print, Usual;
    RequestIsParsed();
    ByteIsThere();
  }

  lemma OneCall()
    ensures CallsOf([OneByte()]) == [RL.Call("1", 0, 0)]
  {
    hide OneByte, Reaches;
    OneReaches();
    assert [OneByte()][..0] == [];
    assert CallsOf([]) == [];
  }

  lemma OneCallIsOrdinary()
    ensures RL.Clock([RL.Call("1", 0, 0)]) && RL.Own([RL.Call("1", 0, 0)], "1")
  {
  }

  lemma OnePassedOn()
    ensures U.Weighted(Ready().balancer.nodes) && PassedOn(Ready(), [OneByte()], "1", 0) == 1
  {
    hide OneByte, Ready, Route, Gates;
    OneReaches();
    OutgoingIsShort();
    RequestIsParsed();
    GateOpens();
    OneNotThere();
    assert [OneByte()][..0] == [];
  }

  lemma OneIsWatched()
    ensures ShareIn(Share(Ready(), [OneByte()], 0), "1", 1, 0, 0)
  {
    hide OneByte, CallsOf, OneNode, Reaches, RL.Clock, RL.Own, RL.Held;
    OneReaches();
    OneCall();
    OneCallIsOrdinary();
    NodeIsThere();
    NobodyIsShutOut();
  }

  lemma OneNotThere()
    ensures PassedOn(Ready(), [], "1", 0) == 0 && Gates(Ready(), []) == Ready()
  {
    NodeIsThere();
  }

  lemma NobodyIsShutOut()
    ensures RL.Held(1, [RL.Call("1", 0, 0)], 0)
  {
    assert [RL.Call("1", 0, 0)][..0] == [];
  }

  lemma {:induction false} CrowdIsIn(n: nat)
    ensures |Crowd(n)| == n && SharesIn(Crowd(n), "1", 1, 0, 0)
    ensures AllPassedOn(Crowd(n), "1", 1, 0, 0) == n
  {
    hide ShareIn, PassedOn, Ready, OneByte;
    if n > 0 {
      CrowdIsIn(n - 1);
      OneIsWatched();
      OnePassedOn();
      assert Crowd(n)[..n - 1] == Crowd(n - 1);
    }
  }

  /** The bound for n workers is reached: at rate 1 they let n requests through at once, where one would let one. */
  lemma BoundIsReached(n: nat)
    ensures SharesIn(Crowd(n), "1", 1, 0, 0)
    ensures 1000 * AllPassedOn(Crowd(n), "1", 1, 0, 0) == |Crowd(n)| * (1000 * 1 + 1 * (0 - 0))
  {
    hide SharesIn, AllPassedOn, Crowd;
    CrowdIsIn(n);
  }
}
