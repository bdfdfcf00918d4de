/** The printer is undone by the parser, and what the parser accepts is fit for the printer. */
module RoundTrip {
  import opened Bytes
  import opened Fnv
  import opened HeaderTable
  import opened HttpParser
  import opened HttpSerialize

  // ----- What a request must look like to survive -----

  ghost predicate GoodLine(verb: Bytes, path: Bytes, version: Bytes) {
    && |verb| < 16 && SP !in verb && NUL !in verb
    && |path| < 1024 && SP !in path && NUL !in path
    && (version == HTTP_10 || version == HTTP_11)
    && Eol(verb + [SP] + path + [SP] + version) == -1
  }

  /** What the parser stores of a header line, whatever bytes it is made of. */
  ghost predicate RawField(h: Header) {
    && h.hash == Hash(h.name) && h.name == Lowered(h.name) && COLON !in h.name
    && (|h.value| > 0 ==> h.value[0] != SP && h.value[0] != TAB)
    && Eol(h.name + [COLON, SP] + h.value) == -1
  }

  ghost predicate GoodField(h: Header) {
    RawField(h) && NUL !in h.name && NUL !in h.value
  }

  ghost predicate RawFields(hs: seq<Header>) {
    |hs| <= 32 && forall i | 0 <= i < |hs| :: RawField(hs[i])
  }

  ghost predicate GoodFields(hs: seq<Header>) {
    |hs| <= 32 && forall i | 0 <= i < |hs| :: GoodField(hs[i])
  }

  /** The header has a name, and its printed line fits the parser's line buffer. */
  predicate FitLine(h: Header) {
    |h.name| > 0 && |h.name| + 2 + |h.value| < 1024
  }

  ghost predicate FitLines(hs: seq<Header>) {
    forall i | 0 <= i < |hs| :: FitLine(hs[i])
  }

  /** Every line of the request fits. */
  ghost predicate Fits(r: Request) {
    |r.verb| + |r.path| + |r.version| + 2 < 1024 && FitLines(r.headers)
  }

  ghost predicate WellFormed(r: Request) {
    GoodLine(r.verb, r.path, r.version) && GoodFields(r.headers)
  }

  /** What the parser accepts: as a well-formed request, but headers may hold NUL. */
  ghost predicate Raw(r: Request) {
    GoodLine(r.verb, r.path, r.version) && RawFields(r.headers)
  }

  lemma WellFormedIsRaw(r: Request)
    ensures WellFormed(r) <==> Raw(r) && NulFree(r.headers)
  {
    hide RawField, GoodLine;
    if NulFree(r.headers) {
      assert forall i | 0 <= i < |r.headers| :: r.headers[i] in r.headers;
    }
  }

  // ----- Line ends -----

  lemma {:induction false} EolNone(s: Bytes)
    ensures Eol(s) == -1 <==> forall i | 0 <= i < |s| - 1 :: !(s[i] == CR && s[i + 1] == LF)
  {
    if |s| >= 2 && !(s[0] == CR && s[1] == LF) {
      EolNone(s[1..]);
      assert forall i | 1 <= i < |s| - 1 :: s[i] == s[1..][i - 1] && s[i + 1] == s[1..][i];
    }
  }

  lemma {:induction false} EolAt(l: Bytes, rest: Bytes)
    requires Eol(l) == -1
    ensures Eol(l + EOL + rest) == |l|
  {
    var d := l + EOL + rest;
    if |l| == 0 {
      assert d == EOL + rest;
    } else {
      assert d[1..] == l[1..] + EOL + rest;
      EolNone(l);
      EolNone(l[1..]);
      EolAt(l[1..], rest);
    }
  }

  // ----- One printed line -----

  /** A whole line in front of the rest is taken in one turn. */
  lemma FeedWholeLine(r: Request, l: Bytes, rest: Bytes)
    requires r.state == REQ_LINE || r.state == HEADER
    requires Eol(l) == -1 && |l| < 1024
    requires TakeLine(r, l).1 == |l| + 2
    ensures var r1 := TakeLine(r, l).0;
      Feed(r, l + EOL + rest) == (Feed(r1, rest).0, |l| + 2 + Feed(r1, rest).1)
  {
    hide TakeLine;
    var d := l + EOL + rest;
    EolAt(l, rest);
    assert d[..|l|] == l && d[|l| + 2..] == rest;
  }

  lemma Cut(a: Bytes, c: Byte, b: Bytes)
    requires c !in a
    ensures var s := a + [c] + b;
      IndexOf(s, c) == |a| && s[..|a|] == a && s[|a| + 1..] == b
  {
    hide IndexOf;
    IndexOfAt(a, c, b);
  }

  lemma NoNul(verb: Bytes, path: Bytes, version: Bytes)
    requires NUL !in verb && NUL !in path && (version == HTTP_10 || version == HTTP_11)
    ensures CStr(verb + [SP] + (path + [SP] + version)) == verb + [SP] + (path + [SP] + version)
    ensures CStr(version) == version
  {
    hide IndexOf;
    assert NUL !in version;
  }

  lemma RequestLineBack(r: Request, verb: Bytes, path: Bytes, version: Bytes)
    requires GoodLine(verb, path, version)
    ensures var l := verb + [SP] + (path + [SP] + version);
      RequestLine(r, CStr(l)) == (r.(verb := verb, path := path, version := version), true)
  {
    hide Eol, CStr, IndexOf;
    NoNul(verb, path, version);
    Cut(verb, SP, path + [SP] + version);
    Cut(path, SP, version);
  }

  lemma FieldParts(h: Header)
    requires GoodField(h)
    ensures COLON !in h.name && Made(h.name, SkipBlanks([SP] + h.value)) == h
  {
    hide Eol, Hash;
    assert ([SP] + h.value)[1..] == h.value;
    assert SkipBlanks(h.value) == h.value;
  }

  lemma HeaderLineBack(r: Request, h: Header)
    requires GoodField(h) && |r.headers| < 32
    ensures HeaderLine(r, h.name + [COLON, SP] + h.value) == r.(headers := r.headers + [h])
  {
    hide Eol, Hash, IndexOf, GoodField, SkipBlanks, Made;
    var l := h.name + [COLON, SP] + h.value;
    assert l == h.name + [COLON] + ([SP] + h.value);
    FieldParts(h);
    Cut(h.name, COLON, [SP] + h.value);
  }

  // ----- The whole request -----

  /** Feeding the printed headers from position k on completes the header list. */
  lemma {:induction false} FieldsBack(r: Request, hs: seq<Header>, k: nat, rest: Bytes)
    requires GoodFields(hs) && k <= |hs|
    requires r.state == HEADER && r.headers == hs[..k]
    requires FitLines(hs)
    ensures var d := Fields(hs[k..]) + EOL;
      var r1 := EndOfHeaders(r.(headers := hs));
      Feed(r, d + rest) == (Feed(r1, rest).0, |d| + Feed(r1, rest).1)
    decreases |hs| - k
  {
    hide EndOfHeaders, TakeLine, Eol, CStr, GoodField, Fields, FieldText, FieldLine, Feed;
    if k == |hs| {
      FieldsNone();
      assert hs[..k] == hs && hs[k..] == [];
      EmptyLine(r);
      FeedWholeLine(r, [], rest);
      assert [] + EOL + rest == Fields(hs[k..]) + EOL + rest;
      assert r.(headers := hs) == r;
    } else {
      FieldLineBack(r, hs[k]);
      var l, d := FieldText(hs[k]), Fields(hs[k + 1..]) + EOL;
      var r1 := r.(headers := r.headers + [hs[k]]);
      assert hs[..k + 1] == hs[..k] + [hs[k]];
      FeedWholeLine(r, l, d + rest);
      FieldsBack(r1, hs, k + 1, rest);
      FieldsFront(hs, k);
      assert l + EOL + (d + rest) == (l + EOL + Fields(hs[k + 1..])) + EOL + rest;
    }
  }

  lemma EmptyLine(r: Request)
    requires r.state == HEADER
    ensures Eol([]) == -1 && TakeLine(r, []) == (EndOfHeaders(r), 2)
  {
  }

  lemma OneFieldLine(h: Header)
    requires GoodField(h)
    ensures FieldLine(h) == if h.name == [] then [] else FieldText(h) + EOL
    ensures FieldText(h) == h.name + [COLON, SP] + h.value && Eol(FieldText(h)) == -1
    ensures COLON !in h.name && h.name == Lowered(h.name) && Made(h.name, h.value) == h
  {
    hide Eol, Hash;
    CStrOf(h.name);
    CStrOf(h.value);
  }

  lemma FieldLineBack(r: Request, h: Header)
    requires GoodField(h) && FitLine(h)
    requires r.state == HEADER && |r.headers| < 32
    ensures FieldLine(h) == FieldText(h) + EOL
    ensures Eol(FieldText(h)) == -1 && |FieldText(h)| < 1024
    ensures TakeLine(r, FieldText(h)) == (r.(headers := r.headers + [h]), |FieldText(h)| + 2)
  {
    hide Eol, EndOfHeaders, GoodField, FieldText, FieldLine, Made, HeaderLine;
    OneFieldLine(h);
    HeaderLineBack(r, h);
  }

  /** What the parser ends up with after the printed request q. */
  function Received(q: Request): Request {
    EndOfHeaders(q.(state := HEADER, bodyRemaining := 0))
  }

  /**
   Print, then parse: a well-formed request comes back field by field, every byte is used, and the parser is
   DONE, or in BODY with exactly the announced Content-Length to come. Whatever follows is the body.
   */
  lemma PrintThenParse(q: Request, rest: Bytes)
    requires WellFormed(q) && Fits(q)
    ensures Feed(INIT, Print(q) + rest) == (Feed(Received(q), rest).0, |Print(q)| + Feed(Received(q), rest).1)
  {
    hide Eol, EndOfHeaders, RequestLineText, Fields, GoodField, GoodLine, TakeLine, Print, Feed;
    var l := RequestLineText(q.verb, q.path, q.version);
    var r1 := INIT.(state := HEADER, verb := q.verb, path := q.path, version := q.version);
    var d := Fields(q.headers) + EOL;
    RequestLineParts(q);
    FeedWholeLine(INIT, l, d + rest);
    assert q.headers[0..] == q.headers && q.headers[..0] == [];
    FieldsBack(r1, q.headers, 0, rest);
    PrintParts(q, rest);
  }

  lemma PrintParts(q: Request, rest: Bytes)
    ensures var l, d := RequestLineText(q.verb, q.path, q.version), Fields(q.headers) + EOL;
      Print(q) + rest == l + EOL + (d + rest) && |Print(q)| == |l| + 2 + |d|
  {
    hide RequestLineText, Fields;
    var l, f := RequestLineText(q.verb, q.path, q.version), Fields(q.headers);
    assert l + EOL + f + EOL + rest == l + EOL + (f + EOL + rest);
  }

  lemma RequestLineParts(q: Request)
    requires WellFormed(q) && Fits(q)
    ensures var l := RequestLineText(q.verb, q.path, q.version);
      && Eol(l) == -1 && |l| < 1024
      && TakeLine(INIT, l) == (INIT.(state := HEADER, verb := q.verb, path := q.path, version := q.version), |l| + 2)
  {
    hide Eol, RequestLine, CStr, GoodField;
    NoNul(q.verb, q.path, q.version);
    CStrOf(q.verb);
    CStrOf(q.path);
    var l := q.verb + [SP] + q.path + [SP] + q.version;
    assert l == q.verb + [SP] + (q.path + [SP] + q.version);
    RequestLineBack(INIT, q.verb, q.path, q.version);
  }

  lemma CStrOf(s: Bytes)
    requires NUL !in s
    ensures CStr(s) == s
  {
  }

  // ----- The parser only accepts well-formed requests -----

  lemma {:induction false} EolFirst(d: Bytes)
    requires Eol(d) >= 0
    ensures Eol(d[..Eol(d)]) == -1
  {
    var e := Eol(d);
    EolNone(d[..e]);
    if e > 0 {
      EolFirst(d[1..]);
      EolNone(d[1..][..e - 1]);
      forall i | 0 <= i < e - 1 ensures !(d[i] == CR && d[i + 1] == LF) {
        if i > 0 {
          assert d[i] == d[1..][..e - 1][i - 1] && d[i + 1] == d[1..][..e - 1][i];
        }
      }
    }
  }

  lemma EolPrefix(s: Bytes, n: nat)
    requires Eol(s) == -1 && n <= |s|
    ensures Eol(s[..n]) == -1
  {
    EolNone(s);
    EolNone(s[..n]);
  }

  lemma Uncut(s: Bytes, c: Byte)
    requires IndexOf(s, c) >= 0
    ensures s == s[..IndexOf(s, c)] + [c] + s[IndexOf(s, c) + 1..]
    ensures c !in s[..IndexOf(s, c)]
  {
  }

  /** An accepted request line is put together from what is stored of it. */
  lemma AcceptedParts(r: Request, line: CString)
    requires RequestLine(r, line).1
    ensures var q := RequestLine(r, line).0;
      && q.verb + [SP] + (q.path + [SP] + q.version) == line
      && |q.verb| < 16 && SP !in q.verb && |q.path| < 1024 && SP !in q.path
      && (q.version == HTTP_10 || q.version == HTTP_11)
  {
    hide IndexOf, Eol, CStr;
    var p := line[IndexOf(line, SP) + 1..];
    Uncut(line, SP);
    Uncut(p, SP);
    var q := RequestLine(r, line).0;
    assert line == q.verb + [SP] + p && p == q.path + [SP] + q.version;
  }

  lemma AcceptedLine(r: Request, line: CString)
    requires Eol(line) == -1 && RequestLine(r, line).1
    ensures var q := RequestLine(r, line).0; GoodLine(q.verb, q.path, q.version)
  {
    hide IndexOf, Eol, CStr, RequestLine;
    AcceptedParts(r, line);
    var q := RequestLine(r, line).0;
    Reassociate(q.verb, q.path, q.version);
    PartsOf(q.verb, q.path, q.version, line);
  }

  lemma PartsOf(a: Bytes, b: Bytes, c: Bytes, s: CString)
    requires s == a + [SP] + (b + [SP] + c)
    ensures NUL !in a && NUL !in b
  {
    assert a == s[..|a|] && b == s[|a| + 1..|a| + 1 + |b|];
  }

  lemma Reassociate(a: Bytes, b: Bytes, c: Bytes)
    ensures a + [SP] + (b + [SP] + c) == a + [SP] + b + [SP] + c
  {
  }

  /** A header line without CR LF, re-printed with its name lowered and its blanks normalised, has none either. */
  lemma EolReprinted(name: Bytes, l: Bytes, value: Bytes)
    requires Eol(l) == -1 && |name| + 1 + |value| <= |l|
    requires name == l[..|name|] && value == l[|l| - |value|..]
    ensures Eol(Lowered(name) + [COLON, SP] + value) == -1
  {
    var m := Lowered(name) + [COLON, SP] + value;
    EolNone(l);
    EolNone(m);
    var n, v := |name|, |l| - |value|;
    forall i | 0 <= i < |m| - 1 ensures !(m[i] == CR && m[i + 1] == LF) {
      if i < n - 1 {
        assert m[i] == Lower(l[i]) && m[i + 1] == Lower(l[i + 1]);
        LowerLineEnds(l[i]);
        LowerLineEnds(l[i + 1]);
      } else if i >= n + 2 {
        assert m[i] == l[v + i - n - 2] && m[i + 1] == l[v + i - n - 1];
      }
    }
  }

  lemma LowerLineEnds(c: Byte)
    ensures Lower(c) == CR ==> c == CR
    ensures Lower(c) == LF ==> c == LF
    ensures Lower(c) == COLON ==> c == COLON
  {
  }

  lemma LoweredHasNoColon(name: Bytes)
    requires COLON !in name
    ensures COLON !in Lowered(name)
  {
    forall k | 0 <= k < |name| ensures Lowered(name)[k] != COLON {
      LowerLineEnds(name[k]);
    }
  }

  lemma FieldFromLine(l: Bytes)
    requires Eol(l) == -1 && IndexOf(l, COLON) >= 0
    ensures RawField(Made(l[..IndexOf(l, COLON)], SkipBlanks(l[IndexOf(l, COLON) + 1..])))
  {
    hide IndexOf, Eol, Hash;
    var colon := IndexOf(l, COLON);
    var name, value := l[..colon], SkipBlanks(l[colon + 1..]);
    Uncut(l, COLON);
    assert value == l[|l| - |value|..];
    EolReprinted(name, l, value);
    LoweredTwice(name);
    LoweredHasNoColon(name);
  }

  lemma AcceptedField(r: Request, l: Bytes)
    requires Eol(l) == -1 && r.state == HEADER && HeaderLine(r, l).state != INVALID
    requires RawFields(r.headers)
    ensures RawFields(HeaderLine(r, l).headers)
  {
    hide IndexOf, Eol, Hash, RawField, SkipBlanks, Made;
    FieldFromLine(l);
  }

  ghost predicate Sound(r: Request) {
    && (r.state == HEADER || r.state == BODY || r.state == DONE ==> GoodLine(r.verb, r.path, r.version))
    && RawFields(r.headers)
  }

  lemma TakeLineStaysSound(r: Request, l: Bytes)
    requires Sound(r) && (r.state == REQ_LINE || r.state == HEADER) && Eol(l) == -1
    ensures Sound(TakeLine(r, l).0)
  {
    hide RequestLine, HeaderLine, GoodLine, RawFields, Eol, IndexOf, CStr;
    if r.state == REQ_LINE {
      assert CStr(l) == l[..|CStr(l)|];
      EolPrefix(l, |CStr(l)|);
      if RequestLine(r, CStr(l)).1 {
        AcceptedLine(r, CStr(l));
      }
    } else if |l| > 0 {
      HeaderLineKeeps(r, l);
      if HeaderLine(r, l).state != INVALID {
        AcceptedField(r, l);
      }
    }
  }

  lemma HeaderLineKeeps(r: Request, l: Bytes)
    requires r.state == HEADER
    ensures var q := HeaderLine(r, l);
      && q.verb == r.verb && q.path == r.path && q.version == r.version
      && (q.state == INVALID ==> q.headers == r.headers) && (q.state == INVALID || q.state == HEADER)
  {
  }

  lemma StepStaysSound(r: Request, d: Bytes)
    requires Sound(r) && !Terminal(r)
    ensures Sound(Step(r, d).0)
  {
    hide TakeLine, GoodLine, RawFields, Eol;
    if r.state != BODY && Eol(d) >= 0 {
      var l := Truncated(d[..Eol(d)], 1024);
      EolFirst(d);
      EolPrefix(d[..Eol(d)], |l|);
      TakeLineStaysSound(r, l);
    }
  }

  /** From any bytes the parser only ever builds such requests, however long the lines were. */
  lemma {:induction false} FeedStaysSound(r: Request, d: Bytes)
    requires Sound(r)
    ensures Sound(Feed(r, d).0)
    decreases |d|
  {
    hide Step, Sound;
    if |d| > 0 && !Terminal(r) {
      StepStaysSound(r, d);
      var (r1, c) := Step(r, d);
      if c > 0 {
        FeedStaysSound(r1, d[c..]);
      }
    }
  }

  predicate Accepts(d: Bytes) {
    Feed(INIT, d).0.state == BODY || Feed(INIT, d).0.state == DONE
  }

  /** What is accepted is well formed, exactly when no header holds a NUL. */
  lemma AcceptedIsWellFormed(d: Bytes)
    requires Accepts(d)
    ensures Raw(Feed(INIT, d).0)
    ensures WellFormed(Feed(INIT, d).0) <==> NulFree(Feed(INIT, d).0.headers)
  {
    hide Feed, GoodLine, RawField, WellFormed, NulFree;
    FeedStaysSound(INIT, d);
    WellFormedIsRaw(Feed(INIT, d).0);
  }

  lemma HeaderLineHasNoNul(r: Request, l: Bytes)
    requires NulFree(r.headers) && NUL !in l
    ensures NulFree(HeaderLine(r, l).headers)
  {
    hide Hash, IndexOf, Lowered;
    var colon := IndexOf(l, COLON);
    if colon >= 0 && |r.headers| < 32 {
      var v := SkipBlanks(l[colon + 1..]);
      var e := Made(l[..colon], v);
      assert NUL !in l[..colon] && NUL !in l[colon + 1..];
      assert NUL !in e.name && NUL !in e.value;
    }
  }

  lemma StepHasNoNul(r: Request, d: Bytes)
    requires NulFree(r.headers) && NUL !in d
    ensures NulFree(Step(r, d).0.headers)
  {
    hide Eol, HeaderLine, RequestLine, Get, Atoi, CStr, NulFree;
    if r.state != BODY && Eol(d) >= 0 {
      var l := Truncated(d[..Eol(d)], 1024);
      assert NUL !in l;
      HeaderLineHasNoNul(r, l);
    }
  }

  lemma {:induction false} FeedHasNoNul(r: Request, d: Bytes)
    requires NulFree(r.headers) && NUL !in d
    ensures NulFree(Feed(r, d).0.headers)
    decreases |d|
  {
    hide Step, NulFree;
    if |d| > 0 && !Terminal(r) {
      StepHasNoNul(r, d);
      var (r1, c) := Step(r, d);
      if c > 0 {
        FeedHasNoNul(r1, d[c..]);
      }
    }
  }

  lemma RoundTripOf(q: Request)
    requires WellFormed(q) && Fits(q)
    ensures Feed(INIT, Print(q)) == (Received(q), |Print(q)|)
  {
    hide Feed, Print, Received, WellFormed, Fits;
    PrintThenParse(q, []);
    assert Print(q) + [] == Print(q);
    FeedStuck(Received(q), []);
  }

  /** Among requests whose lines fit, exactly the well-formed ones survive printing and parsing. */
  lemma RoundTripIffWellFormed(q: Request)
    requires Fits(q)
    ensures Feed(INIT, Print(q)) == (Received(q), |Print(q)|) <==> WellFormed(q)
  {
    hide Feed, Print, GoodLine, GoodField, Fits;
    if WellFormed(q) {
      RoundTripOf(q);
    }
    if Feed(INIT, Print(q)) == (Received(q), |Print(q)|) {
      PrintHasNoNul(q);
      FeedHasNoNul(INIT, Print(q));
      AcceptedIsWellFormed(Print(q));
    }
  }

  lemma {:induction false} FieldsHaveNoNul(hs: seq<Header>)
    ensures NUL !in Fields(hs)
  {
    hide CStr;
    if |hs| > 0 {
      FieldsHaveNoNul(hs[1..]);
    }
  }

  lemma PrintHasNoNul(q: Request)
    ensures NUL !in Print(q)
  {
    hide CStr, Fields;
    FieldsHaveNoNul(q.headers);
  }

  /** A printed request carries no body: the receiver waits for one exactly when Content-Length is positive. */
  lemma ReceiverWaitsForBody(q: Request)
    requires WellFormed(q) && Fits(q)
    ensures var n := match Get(q.headers, CONTENT_LENGTH) case Some(v) => Atoi(CStr(v)) case None => 0;
      && (n > 0 <==> Feed(INIT, Print(q)).0.state == BODY)
      && (n > 0 ==> Feed(INIT, Print(q)).0.bodyRemaining == n)
      && (n <= 0 <==> Feed(INIT, Print(q)).0.state == DONE)
  {
    hide Print, WellFormed, Fits;
    RoundTripOf(q);
  }
}
