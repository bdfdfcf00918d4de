/** Exactly which lines the parser takes, and what it makes of them; and which numbers a Content-Length may say. */
module Grammar {
  import opened Bytes
  import opened Fnv
  import opened HeaderTable
  import opened Options
  import opened HttpParser
  import opened HttpSerialize
  import Relay
  import opened RoundTrip

  // ----- The first line -----

  /** verb, space, path, space, version: less than 16 bytes, less than 1024 bytes, and HTTP/1.0 or HTTP/1.1. */
  ghost predicate IsRequestLine(line: Bytes, verb: Bytes, path: Bytes, version: Bytes) {
    && line == verb + [0x20] + path + [0x20] + version
    && 0x20 !in verb && 0x20 !in path && |verb| < 16 && |path| < 1024
    && (version == [0x48, 0x54, 0x54, 0x50, 0x2f, 0x31, 0x2e, 0x30]
        || version == [0x48, 0x54, 0x54, 0x50, 0x2f, 0x31, 0x2e, 0x31])
  }

  lemma Versions()
    ensures HTTP_10 == [0x48, 0x54, 0x54, 0x50, 0x2f, 0x31, 0x2e, 0x30]
    ensures HTTP_11 == [0x48, 0x54, 0x54, 0x50, 0x2f, 0x31, 0x2e, 0x31]
  {
  }

  lemma RightAssociated(verb: Bytes, path: Bytes, version: Bytes)
    ensures verb + [SP] + path + [SP] + version == verb + [SP] + (path + [SP] + version)
  {
  }

  lemma LineIsTaken(r: Request, line: CString, verb: Bytes, path: Bytes, version: Bytes)
    requires IsRequestLine(line, verb, path, version)
    ensures RequestLine(r, line) == (r.(verb := verb, path := path, version := version), true)
  {
    hide IndexOf;
    Versions();
    RightAssociated(verb, path, version);
    Cut(verb, SP, path + [SP] + version);
    Cut(path, SP, version);
  }

  lemma TakenIsLine(r: Request, line: CString)
    requires RequestLine(r, line).1
    ensures var q := RequestLine(r, line).0; IsRequestLine(line, q.verb, q.path, q.version)
  {
    hide IndexOf, RequestLine;
    var q := RequestLine(r, line).0;
    Versions();
    AcceptedParts(r, line);
    RightAssociated(q.verb, q.path, q.version);
  }

  lemma FeedBadLine(r: Request, l: Bytes, rest: Bytes)
    requires r.state == REQ_LINE || r.state == HEADER
    requires Eol(l) == -1 && |l| < 1024 && TakeLine(r, l).1 == 0
    ensures Feed(r, l + EOL + rest) == (TakeLine(r, l).0, 0)
  {
    hide TakeLine;
    var d := l + EOL + rest;
    EolAt(l, rest);
    assert d[..|l|] == l;
  }

  /** Nothing before the first blank is kept unless it fits, and the same goes for what is before the second. */
  ghost predicate KeptOfBadLine(q: Request, line: CString) {
    && q.version == []
    && (q.verb == [] || (q.verb + [0x20] <= line && 0x20 !in q.verb && |q.verb| < 16))
    && (q.path == [] || (q.verb + [0x20] + q.path + [0x20] <= line && 0x20 !in q.path && |q.path| < 1024))
  }

  lemma FrontOfLine(line: Bytes, verb: Bytes, p: Bytes, path: Bytes, v: Bytes)
    requires line == verb + [SP] + p
    ensures verb + [0x20] <= line
    ensures p == path + [SP] + v ==> verb + [0x20] + path + [0x20] <= line
  {
    if p == path + [SP] + v {
      assert line == (verb + [SP] + path + [SP]) + v;
    }
  }

  /** How far a bad line is understood: not at all, up to its first blank, or up to its second. */
  lemma WhereItStops(line: CString) returns (n: nat, verb: Bytes, p: Bytes, path: Bytes, v: Bytes)
    requires !RequestLine(INIT, line).1
    ensures n > 0 ==> line == verb + [SP] + p && SP !in verb && |verb| < 16
    ensures n > 1 ==> p == path + [SP] + v && SP !in path && |path| < 1024
    ensures RequestLine(INIT, line).0 ==
      if n == 0 then INIT else if n == 1 then INIT.(verb := verb) else INIT.(verb := verb, path := path)
  {
    hide IndexOf, CStr;
    n, verb, p, path, v := 0, [], [], [], [];
    var sp1 := IndexOf(line, SP);
    if sp1 == -1 || sp1 >= 16 {
      return;
    }
    Uncut(line, SP);
    n, verb, p := 1, line[..sp1], line[sp1 + 1..];
    var sp2 := IndexOf(p, SP);
    if sp2 == -1 || sp2 >= 1024 {
      return;
    }
    Uncut(p, SP);
    n, path, v := 2, p[..sp2], p[sp2 + 1..];
  }

  lemma BadLineKeeps(line: CString)
    requires !RequestLine(INIT, line).1
    ensures KeptOfBadLine(RequestLine(INIT, line).0, line)
  {
    hide RequestLine, KeptOfBadLine;
    var n, verb, p, path, v := WhereItStops(line);
    FrontOfLine(if n == 0 then verb + [SP] + p else line, verb, p, path, v);
    IsKept(RequestLine(INIT, line).0, line);
  }

  lemma IsKept(q: Request, line: CString)
    requires q.version == [] && |q.verb| < 16 && |q.path| < 1024 && SP !in q.verb && SP !in q.path
    requires q.verb == [] || q.verb + [0x20] <= line
    requires q.path == [] || q.verb + [0x20] + q.path + [0x20] <= line
    ensures KeptOfBadLine(q, line)
  {
  }

  /**
   The first line, up to its first NUL, is a request line in exactly one way or in none. If it is one, its parts are
   kept and the parse goes on behind it; if not, the request is refused and no byte is used.
   */
  lemma FirstLineIff(l: Bytes, rest: Bytes)
    requires Eol(l) == -1 && |l| < 1024
    ensures forall verb, path, version | IsRequestLine(CStr(l), verb, path, version) ::
      var r := Request(HEADER, verb, path, version, [], 0);
      Feed(INIT, l + EOL + rest) == (Feed(r, rest).0, |l| + 2 + Feed(r, rest).1)
    ensures (forall verb, path, version :: !IsRequestLine(CStr(l), verb, path, version)) ==>
      var (q, used) := Feed(INIT, l + EOL + rest);
      q.state == INVALID && used == 0 && q.headers == [] && KeptOfBadLine(q, CStr(l))
  {
    hide RequestLine, Feed, IsRequestLine, Eol, KeptOfBadLine;
    var (r1, ok) := RequestLine(INIT, CStr(l));
    if ok {
      TakenIsLine(INIT, CStr(l));
      assert TakeLine(INIT, l) == (r1.(state := HEADER), |l| + 2);
      FeedWholeLine(INIT, l, rest);
      forall verb, path, version | IsRequestLine(CStr(l), verb, path, version)
        ensures r1.(state := HEADER) == Request(HEADER, verb, path, version, [], 0)
      {
        LineIsTaken(INIT, CStr(l), verb, path, version);
      }
    } else {
      BadLineKeeps(CStr(l));
      FeedBadLine(INIT, l, rest);
      SameKept(r1, r1.(state := INVALID), CStr(l));
      forall verb, path, version ensures !IsRequestLine(CStr(l), verb, path, version) {
        if IsRequestLine(CStr(l), verb, path, version) {
          LineIsTaken(INIT, CStr(l), verb, path, version);
        }
      }
    }
  }

  lemma SameKept(q: Request, r: Request, line: CString)
    requires KeptOfBadLine(q, line) && q.verb == r.verb && q.path == r.path && q.version == r.version
    ensures KeptOfBadLine(r, line)
  {
  }

  // ----- A header line -----

  ghost predicate AllBlank(s: Bytes) {
    forall b | b in s :: b == 0x20 || b == 0x09
  }

  /** name, colon, blanks, value: the name is what is before the first colon, and no blank starts the value. */
  ghost predicate IsHeaderLine(l: Bytes, name: Bytes, blanks: Bytes, value: Bytes) {
    && l == name + [0x3a] + blanks + value && 0x3a !in name
    && AllBlank(blanks)
    && (|value| > 0 ==> value[0] != 0x20 && value[0] != 0x09)
  }

  lemma {:induction false} BlanksSkipped(blanks: Bytes, value: Bytes)
    requires AllBlank(blanks)
    requires |value| > 0 ==> value[0] != 0x20 && value[0] != 0x09
    ensures SkipBlanks(blanks + value) == value
  {
    if |blanks| == 0 {
      assert blanks + value == value;
    } else {
      assert blanks[0] in blanks && forall b | b in blanks[1..] :: b in blanks;
      assert (blanks + value)[1..] == blanks[1..] + value;
      BlanksSkipped(blanks[1..], value);
    }
  }

  /** The blanks in front of s. */
  function Blanks(s: Bytes): Bytes {
    if |s| > 0 && (s[0] == SP || s[0] == TAB) then [s[0]] + Blanks(s[1..]) else []
  }

  lemma {:induction false} SkippedAreBlanks(s: Bytes)
    ensures AllBlank(Blanks(s)) && s == Blanks(s) + SkipBlanks(s)
  {
    hide AllBlank;
    if |s| > 0 && (s[0] == SP || s[0] == TAB) {
      SkippedAreBlanks(s[1..]);
      OneBlankMore(s[0], Blanks(s[1..]), SkipBlanks(s[1..]));
      assert s == [s[0]] + s[1..];
    } else {
      NoBlanks();
    }
  }

  lemma OneBlankMore(c: Byte, blanks: Bytes, value: Bytes)
    requires c == 0x20 || c == 0x09
    requires AllBlank(blanks)
    ensures AllBlank([c] + blanks) && [c] + (blanks + value) == ([c] + blanks) + value
  {
  }

  lemma NoBlanks()
    ensures AllBlank([])
  {
  }

  lemma HeaderIsTaken(r: Request, l: Bytes, name: Bytes, blanks: Bytes, value: Bytes)
    requires IsHeaderLine(l, name, blanks, value) && |r.headers| < 32
    ensures HeaderLine(r, l) == r.(headers := r.headers + [Header(Hash(Lowered(name)), Lowered(name), value)])
  {
    hide IndexOf, Hash, Lowered, SkipBlanks;
    assert l == name + [COLON] + (blanks + value);
    Cut(name, COLON, blanks + value);
    BlanksSkipped(blanks, value);
  }

  lemma ColonSplits(l: Bytes)
    requires 0x3a in l
    ensures exists name, blanks, value :: IsHeaderLine(l, name, blanks, value)
  {
    hide IndexOf, SkipBlanks, Blanks, AllBlank;
    var c := IndexOf(l, COLON);
    var s := l[c + 1..];
    Uncut(l, COLON);
    SkippedAreBlanks(s);
    FrontAndRest(l[..c], Blanks(s), SkipBlanks(s));
    assert IsHeaderLine(l, l[..c], Blanks(s), SkipBlanks(s));
  }

  lemma FrontAndRest(name: Bytes, blanks: Bytes, value: Bytes)
    ensures name + [COLON] + (blanks + value) == name + [0x3a] + blanks + value
  {
  }

  lemma NotTaken(r: Request, l: Bytes)
    requires 0x3a !in l || |r.headers| >= 32
    ensures HeaderLine(r, l) == r.(state := INVALID)
  {
    hide IndexOf;
  }

  /**
   A line behind the first one that is not empty: if it has a colon, it splits in exactly one way, and becomes one
   header more with the name in lower case. Without a colon, or behind 32 headers, the request is refused, and the line
   is not used.
   */
  lemma NextLineIff(r: Request, l: Bytes, rest: Bytes)
    requires r.state == HEADER && Eol(l) == -1 && 0 < |l| < 1024
    ensures forall name, blanks, value | IsHeaderLine(l, name, blanks, value) && |r.headers| < 32 ::
      var r1 := r.(headers := r.headers + [Header(Hash(Lowered(name)), Lowered(name), value)]);
      Feed(r, l + EOL + rest) == (Feed(r1, rest).0, |l| + 2 + Feed(r1, rest).1)
    ensures 0x3a !in l || |r.headers| >= 32 ==> Feed(r, l + EOL + rest) == (r.(state := INVALID), 0)
    ensures 0x3a in l ==> exists name, blanks, value :: IsHeaderLine(l, name, blanks, value)
  {
    hide HeaderLine, Feed, IsHeaderLine, Eol, Hash, Lowered;
    forall name, blanks, value | IsHeaderLine(l, name, blanks, value) && |r.headers| < 32
      ensures HeaderLine(r, l) == r.(headers := r.headers + [Header(Hash(Lowered(name)), Lowered(name), value)])
      ensures 0x3a in l
    {
      HeaderIsTaken(r, l, name, blanks, value);
      HasColon(l, name, blanks, value);
    }
    if 0x3a !in l || |r.headers| >= 32 {
      NotTaken(r, l);
      FeedBadLine(r, l, rest);
    } else {
      ColonSplits(l);
      FeedWholeLine(r, l, rest);
    }
    if 0x3a in l {
      ColonSplits(l);
    }
  }

  lemma HasColon(l: Bytes, name: Bytes, blanks: Bytes, value: Bytes)
    requires IsHeaderLine(l, name, blanks, value)
    ensures 0x3a in l
  {
    assert l[|name|] == 0x3a;
  }

  // ----- A line that is too long -----

  lemma TakenWhole(r: Request, l: Bytes)
    requires (r.state == REQ_LINE || r.state == HEADER) && |l| > 0
    ensures TakeLine(r, l).1 == 0 || TakeLine(r, l).1 == |l| + 2
  {
    hide RequestLine, HeaderLine;
  }

  /** A line of 1024 bytes or more is read as if its bytes 1023 and 1024 were the line end. */
  lemma LongLineIsCut(r: Request, l: Bytes, rest: Bytes)
    requires (r.state == REQ_LINE || r.state == HEADER) && Eol(l) == -1 && |l| >= 1024
    ensures var d := l + EOL + rest;
      Feed(r, d) == Feed(r, d[..1023] + EOL + d[1025..])
  {
    hide TakeLine, Eol;
    var d, cut := l + EOL + rest, l[..1023];
    var e := cut + EOL + d[1025..];
    assert d[..1023] == cut;
    EolAt(l, rest);
    EolPrefix(l, 1023);
    EolAt(cut, d[1025..]);
    assert d[..|l|] == l && e[..1023] == cut;
    TakenWhole(r, cut);
    assert e[1025..] == d[1025..];
  }

  // ----- The empty line, and the body -----

  /** The value of the first header that has the hash of "content-length". */
  function FirstLength(hs: seq<Header>): Option<Bytes> {
    if |hs| == 0 then None else if hs[0].hash == 0x4df9451d then Some(hs[0].value) else FirstLength(hs[1..])
  }

  /** The empty line ends the headers: the request is complete, or a positive number of bytes is to come. */
  lemma EmptyLineIff(r: Request, rest: Bytes)
    requires r.state == HEADER
    ensures var n := match FirstLength(r.headers) case Some(v) => Atoi(CStr(v)) case None => 0;
      var r1 := r.(bodyRemaining := n, state := if n > 0 then BODY else DONE);
      Feed(r, EOL + rest) == (Feed(r1, rest).0, 2 + Feed(r1, rest).1)
  {
    hide Feed, Get, Atoi, CStr, FirstLength;
    LengthIs(r.headers);
    EmptyLine(r);
    FeedWholeLine(r, [], rest);
    assert [] + EOL + rest == EOL + rest;
  }

  lemma {:induction false} LengthIs(hs: seq<Header>)
    ensures Get(hs, CONTENT_LENGTH) == FirstLength(hs)
  {
    hide Hash, Lowered, From;
    Relay.HashContentLength();
    if |hs| > 0 && hs[0].hash != 0x4df9451d {
      LengthIs(hs[1..]);
    }
  }

  /** The body is counted off, and what follows it is left alone. */
  lemma BodyIff(r: Request, d: Bytes)
    requires r.state == BODY && r.bodyRemaining > 0
    ensures |d| < r.bodyRemaining ==> Feed(r, d) == (r.(bodyRemaining := r.bodyRemaining - |d|), |d|)
    ensures |d| >= r.bodyRemaining ==> Feed(r, d) == (r.(bodyRemaining := 0, state := DONE), r.bodyRemaining)
  {
    hide TakeLine;
    if |d| > 0 {
      var (r1, c) := Step(r, d);
      if |d| <= r.bodyRemaining {
        assert d[c..] == [];
      }
    }
  }

  // ----- Numbers -----

  /** The value of decimal digits behind a number. */
  function ValueFrom(acc: int, ds: Bytes): int {
    if |ds| == 0 then acc else 10 * ValueFrom(acc, ds[..|ds| - 1]) + (ds[|ds| - 1] as int - 0x30)
  }

  ghost predicate AllDigits(ds: Bytes) {
    forall c | c in ds :: 0x30 <= c <= 0x39
  }

  lemma {:induction false} ValueFromFront(acc: int, ds: Bytes)
    requires |ds| > 0
    ensures ValueFrom(acc, ds) == ValueFrom(10 * acc + (ds[0] as int - 0x30), ds[1..])
  {
    var n := |ds| - 1;
    if n > 0 {
      ValueFromFront(acc, ds[..n]);
      assert ds[..n][1..] == ds[1..][..n - 1];
    }
  }

  lemma DigitDifference(c: Byte)
    requires 0x30 <= c <= 0x39
    ensures (c - 0x30) as int == c as int - 0x30
  {
  }

  lemma {:induction false} DigitsRead(acc: int, ds: Bytes, junk: Bytes)
    requires AllDigits(ds) && (|junk| > 0 ==> !(0x30 <= junk[0] <= 0x39))
    ensures Digits(acc, ds + junk) == ValueFrom(acc, ds)
    decreases |ds|
  {
    if |ds| == 0 {
      assert ds + junk == junk;
    } else {
      assert ds[0] in ds && forall c | c in ds[1..] :: c in ds;
      assert (ds + junk)[1..] == ds[1..] + junk;
      DigitDifference(ds[0]);
      DigitsRead(10 * acc + (ds[0] as int - 0x30), ds[1..], junk);
      ValueFromFront(acc, ds);
    }
  }

  /** Blank, or one of tab, line feed, vertical tab, form feed and carriage return. */
  ghost predicate AllSpace(s: Bytes) {
    forall c | c in s :: c == 0x20 || 0x09 <= c <= 0x0d
  }

  lemma {:induction false} SpaceSkipped(space: Bytes, s: Bytes)
    requires AllSpace(space)
    ensures Atoi(space + s) == Atoi(s)
    decreases |space|
  {
    if |space| == 0 {
      assert space + s == s;
    } else {
      assert space[0] in space && forall c | c in space[1..] :: c in space;
      assert (space + s)[1..] == space[1..] + s;
      SpaceSkipped(space[1..], s);
    }
  }

  ghost predicate IsSign(sign: Bytes) {
    sign == [] || sign == [0x2b] || sign == [0x2d]
  }

  /** What atoi stops at: the end, or no digit; behind neither sign nor digits no space and no sign either. */
  ghost predicate StopsAt(sign: Bytes, ds: Bytes, junk: Bytes) {
    |junk| == 0 || (
      && !(0x30 <= junk[0] <= 0x39)
      && (sign + ds == [] ==> !AllSpace([junk[0]]) && junk[0] != 0x2b && junk[0] != 0x2d))
  }

  /**
   A number as atoi reads it: space, at most one sign, decimal digits; what follows does not matter, and no digits are
   read as 0.
   */
  lemma AtoiReads(space: Bytes, sign: Bytes, ds: Bytes, junk: Bytes)
    requires AllSpace(space) && IsSign(sign) && AllDigits(ds) && StopsAt(sign, ds, junk)
    ensures Atoi(space + (sign + (ds + junk))) == if sign == [0x2d] then -ValueFrom(0, ds) else ValueFrom(0, ds)
  {
    hide AllSpace, Digits;
    SpaceSkipped(space, sign + (ds + junk));
    DigitsRead(0, ds, junk);
    var s := sign + (ds + junk);
    if sign == [] {
      assert s == ds + junk;
      Unsigned(ds, junk);
    } else {
      assert s[0] == sign[0] && s[1..] == ds + junk;
    }
  }

  lemma Unsigned(ds: Bytes, junk: Bytes)
    requires AllDigits(ds) && StopsAt([], ds, junk)
    ensures Atoi(ds + junk) == Digits(0, ds + junk)
  {
    hide Digits;
    var s := ds + junk;
    if |ds| > 0 {
      assert s[0] == ds[0] && ds[0] in ds;
    } else if |junk| > 0 {
      assert s == junk && [] + ds == [];
      assert junk[0] in [junk[0]];
    } else {
      assert s == [];
      NoDigits();
    }
  }

  lemma NoDigits()
    ensures Digits(0, []) == 0
  {
  }

  function DecimalDigit(d: nat): (c: Byte)
    requires d < 10
    ensures 0x30 <= c <= 0x39 && c as int == 0x30 + d
  {
    var n := 0x30 + d;
    assert ((n as Byte) as int) == n;
    n as Byte
  }

  /** n in decimal. */
  function Decimal(n: nat): (ds: Bytes)
    ensures |ds| > 0
  {
    if n < 10 then [DecimalDigit(n)] else Decimal(n / 10) + [DecimalDigit(n % 10)]
  }

  lemma {:induction false} DecimalRead(n: nat)
    ensures AllDigits(Decimal(n)) && ValueFrom(0, Decimal(n)) == n
  {
    hide DecimalDigit;
    if n < 10 {
      assert Decimal(n)[..0] == [];
    } else {
      DecimalRead(n / 10);
      assert Decimal(n)[..|Decimal(n)| - 1] == Decimal(n / 10);
    }
  }

  /** Every length written in decimal is read back. */
  lemma AtoiOfDecimal(n: nat)
    ensures Atoi(Decimal(n)) == n
  {
    DecimalRead(n);
    assert AllSpace([]);
    AtoiReads([], [], Decimal(n), []);
    assert [] + ([] + (Decimal(n) + [])) == Decimal(n);
  }
}
