/** The rewrite without configured headers, and the request identifier, written out byte by byte. */
module Written {
  import opened Bytes
  import opened Fnv
  import opened HeaderTable
  import opened HeaderSets
  import opened Options
  import opened Rewrite
  import opened Gatekeeping
  import opened Forwarding
  import R = ReqId

  // "1.1 nexus-gateway/"
  const PREFIX: Bytes :=
    [0x31, 0x2e, 0x31, 0x20, 0x6e, 0x65, 0x78, 0x75, 0x73, 0x2d, 0x67, 0x61, 0x74, 0x65, 0x77, 0x61, 0x79, 0x2f]

  /** The gateway's name and version, the latter "1.0.0" if it is not given, in at most 63 bytes. */
  function ViaText(version: Option<CString>): Bytes {
    match version
    case None => PREFIX + [0x31, 0x2e, 0x30, 0x2e, 0x30]
    case Some(v) => var w: Bytes := v; PREFIX + if |w| <= 45 then w else w[..45]
  }

  /** The address, or "unknown". */
  function AddressText(ip: Option<CString>): Bytes {
    match ip
    case None => [0x75, 0x6e, 0x6b, 0x6e, 0x6f, 0x77, 0x6e]
    case Some(a) => var b: Bytes := a; b
  }

  /** The value of the first header that has the hash of "host". */
  function FirstHost(hs: seq<Header>): Option<Bytes> {
    if |hs| == 0 then None else if hs[0].hash == 0xaffea56f then Some(hs[0].value) else FirstHost(hs[1..])
  }

  /** x-real-ip, x-forwarded-for, x-forwarded-host if there is a host, x-forwarded-proto, via, x-gateway-req-id. */
  function SixHeaders(ip: Bytes, host: Option<Bytes>, via: Bytes, id: Bytes): seq<Header> {
    [Header(0xe37b3c60, [0x78, 0x2d, 0x72, 0x65, 0x61, 0x6c, 0x2d, 0x69] + [0x70], ip),
     Header(0xadb2f988, FORWARDED + [0x66, 0x6f, 0x72], ip)]
    + (match host
       case Some(v) => [Header(0x28867067, FORWARDED + [0x68, 0x6f, 0x73, 0x74], CStr(v))]
       case None => [])
    + [Header(0x2eb2af39, FORWARDED + [0x70, 0x72, 0x6f, 0x74, 0x6f], [0x68, 0x74, 0x74, 0x70]),
       Header(0x69122c13, [0x76, 0x69, 0x61], via),
       Header(0xc124a24d, [0x78, 0x2d, 0x67, 0x61, 0x74, 0x65, 0x77, 0x61]
                        + [0x79, 0x2d, 0x72, 0x65, 0x71, 0x2d, 0x69, 0x64], id)]
  }

  // "x-forwarded-"
  const FORWARDED: Bytes := [0x78, 0x2d, 0x66, 0x6f, 0x72, 0x77, 0x61, 0x72] + [0x64, 0x65, 0x64, 0x2d]

  lemma ViaIs(g: Gateway)
    ensures ViaValue(g) == ViaText(g.version)
  {
    match g.version
    case None =>
    case Some(v) =>
      var w: Bytes := v;
      assert |PREFIX| == 18 && VIA_PREFIX == PREFIX;
      if |w| > 45 {
        assert (PREFIX + w)[..63] == PREFIX + w[..45];
      }
  }

  lemma AddressIs(g: Gateway)
    ensures RealIp(g) == AddressText(g.clientIp)
  {
  }

  lemma {:induction false} HostIs(hs: seq<Header>)
    ensures Get(hs, HOST) == FirstHost(hs)
  {
    hide Hash, Lowered;
    InjectedHashes();
    if |hs| > 0 && hs[0].hash != 0xaffea56f {
      HostIs(hs[1..]);
    }
  }

  lemma MadeHeaders(v: Bytes)
    ensures Made(X_REAL_IP, v) == Header(0xe37b3c60, [0x78, 0x2d, 0x72, 0x65, 0x61, 0x6c, 0x2d, 0x69] + [0x70], v)
    ensures Made(X_FORWARDED_FOR, v) == Header(0xadb2f988, FORWARDED + [0x66, 0x6f, 0x72], v)
    ensures Made(X_FORWARDED_HOST, v) == Header(0x28867067, FORWARDED + [0x68, 0x6f, 0x73, 0x74], v)
    ensures Made(X_FORWARDED_PROTO, v) == Header(0x2eb2af39, FORWARDED + [0x70, 0x72, 0x6f, 0x74, 0x6f], v)
    ensures Made(VIA, v) == Header(0x69122c13, [0x76, 0x69, 0x61], v)
    ensures Made(REQ_ID, v) == Header(0xc124a24d, [0x78, 0x2d, 0x67, 0x61, 0x74, 0x65, 0x77, 0x61]
                                                + [0x79, 0x2d, 0x72, 0x65, 0x71, 0x2d, 0x69, 0x64], v)
  {
    hide Hash, Lowered;
    InjectedHashes();
    LowerNames();
    LowerForwarded();
  }

  function MadeAll(sets: seq<Pair>): seq<Header> {
    seq(|sets|, i requires 0 <= i < |sets| => Made(sets[i].name, sets[i].value))
  }

  lemma StandardWrittenOut(host: Option<Bytes>, g: Gateway)
    ensures MadeAll(Standard(host, g)) ==
      SixHeaders(AddressText(g.clientIp), host, ViaText(g.version), g.reqId)
  {
    hide Made, CStr, RealIp, ViaValue, ViaText, AddressText;
    ViaIs(g);
    AddressIs(g);
    var a, v := RealIp(g), ViaValue(g);
    MadeHeaders(a);
    MadeHeaders(PROTO_HTTP);
    MadeHeaders(v);
    MadeHeaders(g.reqId);
    if host.Some? {
      MadeHeaders(CStr(host.value));
    }
  }

  /**
   Without configured headers and with room for all: the headers that go by none of the six names, in their order, and
   then the gateway's, each with its name, its hash and its value as they are.
   */
  lemma RewriteWrittenOut(hs: seq<Header>, g: Gateway)
    requires |hs| <= 32 && g.custom == []
    requires var s, v, q := |Outside(hs, Injected())|, |Named(hs, [0x76, 0x69, 0x61])|, |Named(hs, Lowered(REQ_ID))|;
      var h := if FirstHost(hs).Some? then 1 else 0;
      s + v + q + 3 + h <= 32 && s + q + 4 + h <= 32 && s + 5 + h <= 32
    ensures Rewritten(hs, g) == Outside(hs, Injected())
      + SixHeaders(AddressText(g.clientIp), FirstHost(hs), ViaText(g.version), g.reqId)
  {
    hide Hash, Lowered, Outside, Get, Named, Rewritten, Standard, AllThere, Made, SixHeaders, ViaText, AddressText;
    hide Injected, FirstHost;
    HostIs(hs);
    LowerNames();
    AllInjectedIffRoom(hs, g);
    SurvivorsThenInjected(hs, g);
    var kept, sets := Outside(hs, Injected()), Standard(Get(hs, HOST), g);
    StandardWrittenOut(Get(hs, HOST), g);
    assert Rewritten(hs, g) == kept + MadeAll(sets);
  }

  /** The names that are stripped or replaced. */
  lemma InjectedNames()
    ensures Injected() == {
      [0x78, 0x2d, 0x72, 0x65, 0x61, 0x6c, 0x2d, 0x69] + [0x70], FORWARDED + [0x66, 0x6f, 0x72],
      FORWARDED + [0x68, 0x6f, 0x73, 0x74], FORWARDED + [0x70, 0x72, 0x6f, 0x74, 0x6f], [0x76, 0x69, 0x61],
      [0x78, 0x2d, 0x67, 0x61, 0x74, 0x65, 0x77, 0x61] + [0x79, 0x2d, 0x72, 0x65, 0x71, 0x2d, 0x69, 0x64]}
  {
    hide Lowered;
    LowerNames();
    LowerForwarded();
  }

  // ----- The identifier -----

  /** Read in base 36, the identifier says when the request came and which random number it got. */
  lemma IdSaysTimeAndRandom(now: nat, random: nat)
    requires random < 0x1_0000_0000
    ensures var n := R.Decoded(IdString(now, random));
      n / 0x1_0000_0000 == now % 0x1_0000_0000 && n % 0x1_0000_0000 == random
  {
    hide R.Encoded, R.Decoded;
    R.SameStringIffSameParts(now, random, now, random, 15);
    Split(now % 0x1_0000_0000, random);
  }

  lemma Split(a: nat, b: nat)
    requires b < 0x1_0000_0000
    ensures (a * 0x1_0000_0000 + b) / 0x1_0000_0000 == a && (a * 0x1_0000_0000 + b) % 0x1_0000_0000 == b
  {
  }

  /** One base-36 digit: 0 to 9, and then a to z. */
  ghost predicate IsDigit36(c: Byte, d: int) {
    if d < 10 then 0 <= d && c as int == 0x30 + d else d < 36 && c as int == 0x61 + d - 10
  }

  lemma DigitIs(d: nat)
    requires d < 36
    ensures IsDigit36(R.Digit(d), d) && R.DigitValue(R.Digit(d)) == d
  {
    R.DigitBack(d);
    var n := if d < 10 then 0x30 + d else 0x57 + d;
    assert ((n as Byte) as int) == n;
  }

  /** The last digits of a number in base 36, each as its character; one that fits the room has no leading zero. */
  lemma {:induction false} EncodedDigits(id: nat, room: nat)
    requires room > 0
    ensures var s := R.Encoded(id, room);
      && IsDigit36(s[|s| - 1], id % 36)
      && (id < 36 || room == 1 ==> |s| == 1)
      && (id >= 36 && room > 1 ==> s[..|s| - 1] == R.Encoded(id / 36, room - 1))
  {
    hide R.Digit;
    DigitIs(id % 36);
  }
}
