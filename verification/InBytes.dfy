/** One request, byte by byte: what comes in, what the parser makes of it, and what goes out. */
module InBytes {
  import opened Bytes
  import opened Fnv
  import opened HeaderTable
  import opened HeaderSets
  import opened Options
  import P = HttpParser
  import opened HttpSerialize
  import opened Rewrite
  import opened Gatekeeping
  import opened AsPrinted
  import opened Grammar
  import Relay
  import opened RoundTrip
  import opened Written

  // "\r\n", "GET / HTTP/1.1", "Host: a"
  const CRLF: Bytes := [0x0d, 0x0a]
  const FIRST: Bytes := [0x47, 0x45, 0x54] + [0x20] + [0x2f] + [0x20] + [0x48, 0x54, 0x54, 0x50, 0x2f, 0x31, 0x2e, 0x31]
  const SECOND: Bytes := [0x48, 0x6f, 0x73, 0x74] + [0x3a] + [0x20] + [0x61]

  // "1", "a", "z"
  const IP: CString := [0x31]
  const HOST_VALUE: Bytes := [0x61]
  const ID: CString := [0x7a]

  function Incoming(): Bytes {
    FIRST + CRLF + (SECOND + CRLF + (CRLF + []))
  }

  function HostHeader(): Header {
    Header(0xaffea56f, [0x68, 0x6f, 0x73, 0x74], HOST_VALUE)
  }

  function AsParsed(): P.Request {
    P.Request(P.DONE, [0x47, 0x45, 0x54], [0x2f], [0x48, 0x54, 0x54, 0x50, 0x2f, 0x31, 0x2e, 0x31], [HostHeader()], 0)
  }

  function OneGateway(): Gateway {
    Gateway(Some(IP), None, ID, [])
  }

  /** name: value, and the line end. */
  function Line(name: Bytes, value: Bytes): Bytes {
    name + [0x3a, 0x20] + value + CRLF
  }

  /** The lines of these headers, one after the other. */
  function Lines(hs: seq<Header>): Bytes {
    if |hs| == 0 then [] else Line(hs[0].name, hs[0].value) + Lines(hs[1..])
  }

  function AsRewritten(): seq<Header> {
    [HostHeader()] + SixHeaders(IP, Some(HOST_VALUE), PREFIX + [0x31, 0x2e, 0x30, 0x2e, 0x30], ID)
  }

  /**
   GET / HTTP/1.1, host: a, x-real-ip: 1, x-forwarded-for: 1, x-forwarded-host: a, x-forwarded-proto: http,
   via: 1.1 nexus-gateway/1.0.0, x-gateway-req-id: z, and an empty line.
   */
  function Outgoing(): Bytes {
    FIRST + CRLF + Lines(AsRewritten()) + CRLF
  }

  // ----- In -----

  lemma NoLineEnd(s: Bytes)
    requires 0x0d !in s
    ensures P.Eol(s) == -1
  {
    EolNone(s);
  }

  lemma FirstIsLine()
    ensures P.Eol(FIRST) == -1 && |FIRST| == 14 && CStr(FIRST) == FIRST
    ensures IsRequestLine(FIRST, [0x47, 0x45, 0x54], [0x2f], [0x48, 0x54, 0x54, 0x50, 0x2f, 0x31, 0x2e, 0x31])
  {
    NoLineEnd(FIRST);
  }

  lemma SecondIsLine()
    ensures P.Eol(SECOND) == -1 && |SECOND| == 7 && IsHeaderLine(SECOND, [0x48, 0x6f, 0x73, 0x74], [0x20], HOST_VALUE)
  {
    NoLineEnd(SECOND);
  }

  lemma HostInLower()
    ensures Lowered([0x48, 0x6f, 0x73, 0x74]) == [0x68, 0x6f, 0x73, 0x74]
    ensures Hash([0x68, 0x6f, 0x73, 0x74]) == 0xaffea56f
  {
    hide Hash;
    HashHost();
  }

  lemma EndOfLine()
    ensures EOL == CRLF
  {
  }

  lemma NoLength()
    ensures FirstLength([HostHeader()]) == None
  {
    assert [HostHeader()][1..] == [];
  }

  lemma IncomingIsParsed()
    ensures P.Feed(P.INIT, Incoming()) == (AsParsed(), |Incoming()|)
  {
    hide P.Feed, P.Eol, Hash, Lowered, IsRequestLine, IsHeaderLine, FirstLength;
    var r1 := P.Request(P.HEADER, [0x47, 0x45, 0x54], [0x2f], [0x48, 0x54, 0x54, 0x50, 0x2f, 0x31, 0x2e, 0x31], [], 0);
    var r2 := r1.(headers := [HostHeader()]);
    EndOfLine();
    FirstIsLine();
    FirstLineIff(FIRST, SECOND + CRLF + (CRLF + []));
    SecondIsLine();
    HostInLower();
    NextLineIff(r1, SECOND, CRLF + []);
    assert r1.headers + [HostHeader()] == r2.headers;
    NoLength();
    EmptyLineIff(r2, []);
    P.FeedStuck(AsParsed(), []);
  }

  // ----- Rewritten -----

  lemma HostStays()
    ensures Outside([HostHeader()], Injected()) == [HostHeader()]
    ensures Named([HostHeader()], [0x76, 0x69, 0x61]) == [] && Named([HostHeader()], Lowered(REQ_ID)) == []
    ensures FirstHost([HostHeader()]) == Some(HOST_VALUE)
  {
    hide Hash, Lowered;
    HostStandsApart();
    InjectedHashes();
    LowerNames();
    assert [HostHeader()][..0] == [];
  }

  lemma ParsedIsRewritten()
    ensures Rewritten([HostHeader()], OneGateway()) == AsRewritten()
  {
    hide Rewritten, Outside, Named, Injected, Lowered, SixHeaders, FirstHost, HostHeader;
    HostStays();
    RewriteWrittenOut([HostHeader()], OneGateway());
  }

  // ----- Out -----

  lemma OneLine(h: Header, rest: seq<Header>)
    requires Clean(h)
    ensures Fields([h] + rest) == Line(h.name, h.value) + Fields(rest)
  {
    EndOfLine();
    CStrOf(h.name);
    CStrOf(h.value);
    assert ([h] + rest)[0] == h && ([h] + rest)[1..] == rest;
  }

  ghost predicate Clean(h: Header) {
    h.name != [] && NUL !in h.name && NUL !in h.value
  }

  ghost predicate AllClean(hs: seq<Header>) {
    forall e | e in hs :: Clean(e)
  }

  lemma RewrittenIsClean()
    ensures AllClean(AsRewritten())
  {
    hide Clean;
    RestIsClean();
    ForwardedIsClean();
    FrontIsClean();
  }

  lemma FrontIsClean()
    ensures Clean(HostHeader())
    ensures Clean(Header(0xe37b3c60, [0x78, 0x2d, 0x72, 0x65, 0x61, 0x6c, 0x2d, 0x69] + [0x70], IP))
  {
  }

  lemma ForwardedIsClean()
    ensures Clean(Header(0xadb2f988, FORWARDED + [0x66, 0x6f, 0x72], IP))
    ensures Clean(Header(0x28867067, FORWARDED + [0x68, 0x6f, 0x73, 0x74], CStr(HOST_VALUE)))
    ensures Clean(Header(0x2eb2af39, FORWARDED + [0x70, 0x72, 0x6f, 0x74, 0x6f], [0x68, 0x74, 0x74, 0x70]))
  {
    assert NUL !in FORWARDED;
  }

  lemma RestIsClean()
    ensures Clean(Header(0x69122c13, [0x76, 0x69, 0x61], PREFIX + [0x31, 0x2e, 0x30, 0x2e, 0x30]))
    ensures Clean(Header(0xc124a24d, [0x78, 0x2d, 0x67, 0x61, 0x74, 0x65, 0x77, 0x61]
                                   + [0x79, 0x2d, 0x72, 0x65, 0x71, 0x2d, 0x69, 0x64], ID))
  {
    assert NUL !in PREFIX;
  }

  lemma {:induction false} LinesPrinted(hs: seq<Header>)
    requires AllClean(hs)
    ensures Fields(hs) == Lines(hs)
  {
    hide Line;
    if |hs| > 0 {
      assert Clean(hs[0]) && hs == [hs[0]] + hs[1..];
      LinesPrinted(hs[1..]);
      OneLine(hs[0], hs[1..]);
    }
  }

  lemma {:induction false} SeenIsClean(hs: seq<Header>)
    ensures AllClean(Seen(hs))
  {
    hide Hash, CStr;
    if |hs| > 0 {
      SeenIsClean(hs[1..]);
    }
  }

  /** Any request: verb, path and version, then each header that has a name, all of them cut at the first NUL. */
  lemma PrintWrittenOut(q: P.Request)
    ensures Print(q) == CStr(q.verb) + [0x20] + CStr(q.path) + [0x20] + CStr(q.version) + CRLF
                      + Lines(Seen(q.headers)) + CRLF
  {
    hide Fields, Lines, CStr, Seen;
    EndOfLine();
    FieldsSeen(q.headers);
    SeenIsClean(q.headers);
    LinesPrinted(Seen(q.headers));
  }

  lemma FirstPrinted()
    ensures RequestLineText([0x47, 0x45, 0x54], [0x2f], [0x48, 0x54, 0x54, 0x50, 0x2f, 0x31, 0x2e, 0x31]) == FIRST
  {
    hide IndexOf;
    CStrOf([0x47, 0x45, 0x54]);
    CStrOf([0x2f]);
    CStrOf([0x48, 0x54, 0x54, 0x50, 0x2f, 0x31, 0x2e, 0x31]);
  }

  /** These bytes are parsed as this request, and that, rewritten and printed, goes out as those bytes. */
  lemma InAndOut()
    ensures P.Feed(P.INIT, Incoming()) == (AsParsed(), |Incoming()|)
    ensures Print(Relay.Forwarded(AsParsed(), OneGateway())) == Outgoing()
  {
    hide P.Feed, Rewritten, Fields, Lines, RequestLineText, AsRewritten;
    IncomingIsParsed();
    ParsedIsRewritten();
    FirstPrinted();
    EndOfLine();
    RewrittenIsClean();
    LinesPrinted(AsRewritten());
  }
}
