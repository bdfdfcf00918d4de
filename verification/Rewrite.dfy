/** What the gateway does to the headers of a request before it passes the request on. */
module Rewrite {
  import opened Bytes
  import opened HeaderTable
  import opened Options
  import opened HeaderSets
  import opened HttpRequest
  import opened ReqId

  // "X-Real-IP", "X-Forwarded-For", "X-Forwarded-Host", "X-Forwarded-Proto", "Via", "X-Gateway-Req-Id", "Host"
  const X_REAL_IP: CString := [0x58, 0x2d, 0x52, 0x65, 0x61, 0x6c, 0x2d, 0x49, 0x50]
  const X_FORWARDED_FOR: CString :=
    [0x58, 0x2d, 0x46, 0x6f, 0x72, 0x77, 0x61, 0x72, 0x64, 0x65, 0x64, 0x2d, 0x46, 0x6f, 0x72]
  const X_FORWARDED_HOST: CString :=
    [0x58, 0x2d, 0x46, 0x6f, 0x72, 0x77, 0x61, 0x72, 0x64, 0x65, 0x64, 0x2d, 0x48, 0x6f, 0x73, 0x74]
  const X_FORWARDED_PROTO: CString :=
    [0x58, 0x2d, 0x46, 0x6f, 0x72, 0x77, 0x61, 0x72, 0x64, 0x65, 0x64, 0x2d, 0x50, 0x72, 0x6f, 0x74, 0x6f]
  const VIA: CString := [0x56, 0x69, 0x61]
  const REQ_ID: CString :=
    [0x58, 0x2d, 0x47, 0x61, 0x74, 0x65, 0x77, 0x61, 0x79, 0x2d, 0x52, 0x65, 0x71, 0x2d, 0x49, 0x64]
  const HOST: CString := [0x48, 0x6f, 0x73, 0x74]

  // "http", "unknown", "1.0.0", "1.1 nexus-gateway/"
  const PROTO_HTTP: CString := [0x68, 0x74, 0x74, 0x70]
  const UNKNOWN: CString := [0x75, 0x6e, 0x6b, 0x6e, 0x6f, 0x77, 0x6e]
  const DEFAULT_VERSION: CString := [0x31, 0x2e, 0x30, 0x2e, 0x30]
  const VIA_PREFIX: CString :=
    [0x31, 0x2e, 0x31, 0x20, 0x6e, 0x65, 0x78, 0x75, 0x73, 0x2d, 0x67, 0x61, 0x74, 0x65, 0x77, 0x61, 0x79, 0x2f]

  const VIA_SIZE: nat := 64
  const REQ_ID_SIZE: nat := 16

  /** What the gateway brings along: the peer's address, its own version, a request id and configured headers. */
  datatype Gateway = Gateway(clientIp: Option<CString>, version: Option<CString>, reqId: CString, custom: seq<Pair>)

  function RealIp(g: Gateway): CString {
    match g.clientIp case Some(ip) => ip case None => UNKNOWN
  }

  function ViaValue(g: Gateway): CString {
    var v := match g.version case Some(v) => v case None => DEFAULT_VERSION;
    Truncated(VIA_PREFIX + v, VIA_SIZE)
  }

  function Stripped(hs: seq<Header>): seq<Header> {
    Without(Without(Without(Without(hs, X_REAL_IP), X_FORWARDED_FOR), X_FORWARDED_HOST), X_FORWARDED_PROTO)
  }

  /** The rewritten table, operation by operation. */
  function Rewritten(hs: seq<Header>, g: Gateway): seq<Header> {
    var h1 := SetTo(SetTo(Stripped(hs), X_REAL_IP, RealIp(g)), X_FORWARDED_FOR, RealIp(g));
    var h2 := match Get(h1, HOST) case Some(host) => SetTo(h1, X_FORWARDED_HOST, CStr(host)) case None => h1;
    var h3 := SetTo(SetTo(SetTo(h2, X_FORWARDED_PROTO, PROTO_HTTP), VIA, ViaValue(g)), REQ_ID, g.reqId);
    SetAll(h3, g.custom)
  }

  /** The identifier as the program prints it into its 16-byte buffer. */
  function IdString(now: nat, random: nat): CString {
    EncodedHasNoNul(Id(now, random), REQ_ID_SIZE - 1);
    Encoded(Id(now, random), REQ_ID_SIZE - 1)
  }

  lemma Terminated(s: CString)
    ensures CStr(s + [NUL]) == s
  {
    IndexOfAt(s, NUL, []);
    assert s + [NUL] + [] == s + [NUL];
  }

  method NewReqId(now: nat, random: nat) returns (id: CString)
    requires random < TWO_32
    ensures id == IdString(now, random)
  {
    hide Encoded, Id, CStr;
    var buf := new Byte[REQ_ID_SIZE];
    var start := GenerateReqId(buf, now, random);
    id := CStr(buf[start..]);
    assert buf[start..] == IdString(now, random) + [NUL];
    Terminated(IdString(now, random));
  }

  method SetCustom(t: Table, custom: seq<Pair>)
    requires t.Valid()
    modifies t, t.headers
    ensures t.Valid()
    ensures t.Contents() == SetAll(old(t.Contents()), custom)
  {
    hide Tagged, SetTo;
    for i := 0 to |custom|
      invariant t.Valid() && t.Contents() == SetAll(old(t.Contents()), custom[..i])
    {
      assert custom[..i + 1][..i] == custom[..i];
      var ok := t.Set(custom[i].name, custom[i].value);
    }
    assert custom[..|custom|] == custom;
  }

  /** Rewrites the headers of a request in place; now and random go into the request id. */
  method RewriteRequest(req: HttpReq, clientIp: Option<CString>, version: Option<CString>, custom: seq<Pair>,
                        now: nat, random: nat)
    requires req.Valid() && random < TWO_32
    modifies req.headers, req.headers.headers
    ensures req.Valid()
    ensures var g := Gateway(clientIp, version, IdString(now, random), custom);
      req.Value() == old(req.Value()).(headers := Rewritten(old(req.headers.Contents()), g))
  {
    hide Without, SetTo, CStr, Tagged, Get, IdString, RealIp, ViaValue;
    var t := req.headers;
    var g := Gateway(clientIp, version, [], custom);
    t.Remove(X_REAL_IP);
    t.Remove(X_FORWARDED_FOR);
    t.Remove(X_FORWARDED_HOST);
    t.Remove(X_FORWARDED_PROTO);

    var ok := t.Set(X_REAL_IP, RealIp(g));
    ok := t.Set(X_FORWARDED_FOR, RealIp(g));
    var host := t.GetValue(HOST);
    if host.Some? {
      ok := t.Set(X_FORWARDED_HOST, CStr(host.value));
    }
    ok := t.Set(X_FORWARDED_PROTO, PROTO_HTTP);
    ok := t.Set(VIA, ViaValue(g));
    var id := NewReqId(now, random);
    ok := t.Set(REQ_ID, id);
    SetCustom(t, custom);
    SameGateway(g, g.(reqId := id));
  }

  lemma SameGateway(g: Gateway, h: Gateway)
    requires g.clientIp == h.clientIp && g.version == h.version
    ensures RealIp(g) == RealIp(h) && ViaValue(g) == ViaValue(h)
  {
  }
}
