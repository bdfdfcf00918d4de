/** The line buffer is the only other limit of the round trip: a request with too long a line never comes back. */
module LineLimit {
  import opened Bytes
  import opened Fnv
  import opened HeaderTable
  import opened HttpParser
  import opened HttpSerialize
  import opened RoundTrip

  // ----- The parser only adds headers -----

  lemma StepExtends(r: Request, d: Bytes)
    ensures r.headers <= Step(r, d).0.headers
  {
  }

  lemma {:induction false} FeedExtends(r: Request, d: Bytes)
    ensures r.headers <= Feed(r, d).0.headers
    decreases |d|
  {
    hide Step;
    if |d| > 0 && !Terminal(r) {
      StepExtends(r, d);
      var (r1, c) := Step(r, d);
      if c > 0 {
        FeedExtends(r1, d[c..]);
      }
    }
  }

  // ----- The next printed line -----

  /** The first header from k on that has a name. */
  function NextNamed(hs: seq<Header>, k: nat): (j: nat)
    requires k <= |hs|
    ensures k <= j <= |hs|
    ensures forall i | k <= i < j :: hs[i].name == []
    ensures j < |hs| ==> hs[j].name != []
    decreases |hs| - k
  {
    if k == |hs| || hs[k].name != [] then k else NextNamed(hs, k + 1)
  }

  lemma {:induction false} FirstLine(hs: seq<Header>, k: nat)
    requires GoodFields(hs) && k <= |hs|
    ensures var j := NextNamed(hs, k);
      Fields(hs[k..]) == if j == |hs| then [] else FieldText(hs[j]) + EOL + Fields(hs[j + 1..])
    decreases |hs| - k
  {
    hide GoodField, Fields, FieldText;
    if k == |hs| {
      FieldsNone();
      assert hs[k..] == [];
    } else {
      FieldsFront(hs, k);
      OneFieldLine(hs[k]);
      if hs[k].name == [] {
        FirstLine(hs, k + 1);
      }
    }
  }

  lemma StrayIsNoLineEnd(stray: Bytes, l: Bytes)
    requires (stray == [] || stray == [LF]) && Eol(l) == -1
    ensures Eol(stray + l) == -1
  {
    if stray == [] {
      assert stray + l == l;
    } else {
      assert (stray + l)[1..] == l;
    }
  }

  lemma PrefixOf(a: Bytes, b: Bytes, n: nat)
    requires n <= |a + b|
    ensures n <= |a| ==> (a + b)[..n] == a[..n]
    ensures n > |a| ==> (a + b)[..n] == a + b[..n - |a|]
  {
  }

  /** Feeding a line that is cut off at the buffer's size. */
  lemma FeedCutLine(r: Request, l: Bytes, rest: Bytes)
    requires (r.state == REQ_LINE || r.state == HEADER) && Eol(l) == -1
    ensures var (r1, c) := TakeLine(r, Truncated(l, LINE_SIZE));
      Feed(r, l + EOL + rest).0 == if c == 0 then r1 else Feed(r1, (l + EOL + rest)[c..]).0
  {
    hide TakeLine;
    var d := l + EOL + rest;
    EolAt(l, rest);
    assert d[..|l|] == l;
  }

  lemma NamedLine(r: Request, name: Bytes, after: Bytes, rest: Bytes)
    requires r.state == HEADER && |r.headers| < 32 && COLON !in name && name != [] && Lowered(name) == name
    requires Eol(name + [COLON] + after) == -1
    ensures var q := Feed(r, name + [COLON] + after + EOL + rest).0;
      q.state == INVALID || (|q.headers| > |r.headers| && q.headers[|r.headers|].name == name)
  {
    hide Eol, Hash, IndexOf, CStr, Feed, TakeLine, SkipBlanks, Lowered;
    var l := name + [COLON] + after;
    var line := Truncated(l, LINE_SIZE);
    var (r1, c) := TakeLine(r, line);
    FeedCutLine(r, l, rest);
    CutHeader(r, name, after, line);
    if c > 0 {
      FeedExtends(r1, (l + EOL + rest)[c..]);
    }
  }

  /** What comes of a header line, with or without a stray line feed in front: its whole name, or the end. */
  lemma NameComesThrough(r: Request, stray: Bytes, h: Header, rest: Bytes)
    requires r.state == HEADER && |r.headers| < 32
    requires (stray == [] || stray == [LF]) && GoodField(h) && h.name != []
    ensures var q := Feed(r, stray + FieldText(h) + EOL + rest).0;
      q.state == INVALID || (|q.headers| > |r.headers| && q.headers[|r.headers|].name == stray + h.name)
  {
    hide *;
    NameIsKept(stray, h);
    NamedLine(r, stray + h.name, [SP] + h.value, rest);
  }

  lemma NameIsKept(stray: Bytes, h: Header)
    requires (stray == [] || stray == [LF]) && GoodField(h)
    ensures COLON !in stray + h.name && Lowered(stray + h.name) == stray + h.name
    ensures stray + FieldText(h) == stray + h.name + [COLON] + ([SP] + h.value)
    ensures Eol(stray + h.name + [COLON] + ([SP] + h.value)) == -1
  {
    hide Eol, FieldText, Lowered, GoodField, FieldLine, Made;
    OneFieldLine(h);
    LowerStray(stray, h.name);
    StrayIsNoLineEnd(stray, FieldText(h));
    assert stray + (h.name + [COLON, SP] + h.value) == stray + h.name + [COLON] + ([SP] + h.value);
  }

  lemma LowerStray(stray: Bytes, name: Bytes)
    requires (stray == [] || stray == [LF]) && name == Lowered(name)
    ensures Lowered(stray + name) == stray + name
  {
    forall i | 0 <= i < |stray + name| ensures Lowered(stray + name)[i] == (stray + name)[i] {
      if i >= |stray| {
        assert Lowered(name)[i - |stray|] == Lower(name[i - |stray|]);
      }
    }
  }

  /** What is left of the text after a name, when the line is cut to the buffer. */
  function Kept(name: Bytes, after: Bytes): Bytes
    requires |name| < LINE_SIZE - 1
  {
    if |name| + 1 + |after| < LINE_SIZE then after else after[..LINE_SIZE - 2 - |name|]
  }

  lemma CutText(name: Bytes, after: Bytes)
    ensures var line := Truncated(name + [COLON] + after, LINE_SIZE);
      if |name| < LINE_SIZE - 1 then line == name + [COLON] + Kept(name, after) else line == name[..LINE_SIZE - 1]
  {
    PrefixOf(name + [COLON], after, |Truncated(name + [COLON] + after, LINE_SIZE)|);
  }

  lemma TakeNamed(r: Request, name: Bytes, v: Bytes)
    requires r.state == HEADER && |r.headers| < 32 && COLON !in name
    ensures var line := name + [COLON] + v;
      TakeLine(r, line) == (r.(headers := r.headers + [Made(name, SkipBlanks(v))]), |line| + 2)
  {
    hide Hash, IndexOf, SkipBlanks, Made;
    Cut(name, COLON, v);
  }

  lemma TakeUnnamed(r: Request, line: Bytes)
    requires r.state == HEADER && COLON !in line && line != []
    ensures TakeLine(r, line) == (r.(state := INVALID), 0)
  {
    hide SkipBlanks, Add;
  }

  /** A header line of which only a front part was taken. */
  lemma CutHeader(r: Request, name: Bytes, after: Bytes, line: Bytes)
    requires r.state == HEADER && |r.headers| < 32 && COLON !in name && name != []
    requires line == Truncated(name + [COLON] + after, LINE_SIZE)
    ensures TakeLine(r, line) ==
      if |name| < LINE_SIZE - 1
      then (r.(headers := r.headers + [Made(name, SkipBlanks(Kept(name, after)))]), |line| + 2)
      else (r.(state := INVALID), 0)
  {
    hide TakeLine, SkipBlanks, Made, Kept, Truncated;
    CutText(name, after);
    if |name| < LINE_SIZE - 1 {
      TakeNamed(r, name, Kept(name, after));
    } else {
      TakeUnnamed(r, line);
    }
  }

  /** After the last header: a stray line feed spoils the empty line. */
  lemma EndComesThrough(r: Request, stray: Bytes)
    requires r.state == HEADER && (stray == [] || stray == [LF])
    ensures var q := Feed(r, stray + EOL).0;
      if stray == [] then q.headers == r.headers else q.state == INVALID
  {
    hide EndOfHeaders, Feed, Eol;
    EmptyLine(r);
    StrayIsNoLineEnd(stray, []);
    assert stray + [] == stray;
    FeedCutLine(r, stray, []);
    assert stray + EOL + [] == stray + EOL;
    if stray == [] {
      assert (stray + EOL)[2..] == [];
      FeedStuck(EndOfHeaders(r), []);
      EndKeepsHeaders(r);
    } else {
      TakeUnnamed(r, [LF]);
    }
  }

  lemma EndKeepsHeaders(r: Request)
    ensures EndOfHeaders(r).headers == r.headers
  {
  }

  /** The value that is left when only the blank and the first n - 1 bytes of it were taken. */
  lemma ShorterValue(value: Bytes, n: nat)
    requires n <= |value|
    ensures var v := SkipBlanks(([SP] + value)[..n]);
      if value == [] then v == [] else |v| < |value|
  {
    var v := ([SP] + value)[..n];
    if n > 0 {
      assert v[0] == SP;
      assert |SkipBlanks(v)| <= |v[1..]|;
    }
  }

  lemma TruncatedLong(l: Bytes)
    requires |l| >= LINE_SIZE
    ensures |Truncated(l, LINE_SIZE)| == LINE_SIZE - 1
  {
  }

  lemma LongLineTaken(r: Request, h: Header)
    requires r.state == HEADER && |r.headers| < 32
    requires GoodField(h) && h.name != [] && !FitLine(h)
    ensures var (r1, c) := TakeLine(r, Truncated(FieldText(h), LINE_SIZE));
      || (r1.state == INVALID && c == 0)
      || (r1.state == HEADER && c == LINE_SIZE + 1 && exists e ::
            (e == h || |e.value| < |h.value|) && (e == h ==> |h.name| == LINE_SIZE - 2 && h.value == [])
            && r1 == r.(headers := r.headers + [e]))
  {
    hide Eol, Hash, FieldText, FieldLine, TakeLine, SkipBlanks, Lowered, GoodField, Truncated;
    OneFieldLine(h);
    TruncatedLong(FieldText(h));
    var after, n := [SP] + h.value, LINE_SIZE - 2 - |h.name|;
    assert FieldText(h) == h.name + [COLON] + after;
    CutHeader(r, h.name, after, Truncated(FieldText(h), LINE_SIZE));
    if n >= 0 {
      ShorterValue(h.value, n);
      var e := Made(h.name, SkipBlanks(after[..n]));
      assert |r.headers + [e]| == |r.headers| + 1;
      assert h.value == [] ==> e == h;
    }
  }

  lemma AfterLongLine(l: Bytes, rest: Bytes)
    requires |l| == LINE_SIZE
    ensures (l + EOL + rest)[LINE_SIZE + 1..] == [LF] + rest
  {
  }

  /** A header line that does not fit: the parse ends, a shorter value is stored, or a stray line feed is left over. */
  lemma LongLine(r: Request, h: Header, rest: Bytes)
    requires r.state == HEADER && |r.headers| < 32
    requires GoodField(h) && h.name != [] && !FitLine(h)
    ensures var q := Feed(r, FieldText(h) + EOL + rest).0;
      || q.state == INVALID
      || (|q.headers| > |r.headers| && |q.headers[|r.headers|].value| < |h.value|)
      || q == Feed(r.(headers := r.headers + [h]), [LF] + rest).0
  {
    hide Eol, FieldText, FieldLine, TakeLine, Feed, Truncated, GoodField, Made, Lowered;
    var l := FieldText(h);
    OneFieldLine(h);
    LongLineTaken(r, h);
    FeedCutLine(r, l, rest);
    var (r1, c) := TakeLine(r, Truncated(l, LINE_SIZE));
    if c > 0 {
      FeedExtends(r1, (l + EOL + rest)[c..]);
      if |l| == LINE_SIZE {
        AfterLongLine(l, rest);
      }
    }
  }

  // ----- Up to the first line that does not fit -----

  lemma {:induction false} FieldsUpTo(r: Request, hs: seq<Header>, k: nat, i: nat, rest: Bytes)
    requires GoodFields(hs) && k <= i <= |hs|
    requires r.state == HEADER && r.headers == hs[..k]
    requires forall n | k <= n < i :: FitLine(hs[n])
    ensures Feed(r, Fields(hs[k..]) + rest).0 == Feed(r.(headers := hs[..i]), Fields(hs[i..]) + rest).0
    decreases i - k
  {
    hide TakeLine, Eol, CStr, GoodField, Fields, FieldText, FieldLine, Feed;
    if k == i {
      assert r.(headers := hs[..i]) == r;
    } else {
      FieldLineBack(r, hs[k]);
      var l, d := FieldText(hs[k]), Fields(hs[k + 1..]);
      var r1 := r.(headers := r.headers + [hs[k]]);
      assert hs[..k + 1] == hs[..k] + [hs[k]];
      FeedWholeLine(r, l, d + rest);
      FieldsUpTo(r1, hs, k + 1, i, rest);
      FieldsFront(hs, k);
      assert l + EOL + (d + rest) == (l + EOL + d) + rest;
    }
  }

  /** From header i on, which is the first that does not fit, the header list cannot come back. */
  lemma UnfitField(r: Request, hs: seq<Header>, i: nat)
    requires GoodFields(hs) && i < |hs| && !FitLine(hs[i])
    requires r.state == HEADER && r.headers == hs[..i]
    ensures var q := Feed(r, Fields(hs[i..]) + EOL).0; q.state == INVALID || q.headers != hs
  {
    hide Eol, GoodField, Fields, FieldText, FieldLine, Feed;
    FirstLine(hs, i);
    var q := Feed(r, Fields(hs[i..]) + EOL).0;
    if hs[i].name == [] {
      assert [] + Fields(hs[i..]) + EOL == Fields(hs[i..]) + EOL;
      NextIsWrong(r, [], hs, i);
    } else {
      var rest := Fields(hs[i + 1..]) + EOL;
      assert Fields(hs[i..]) + EOL == FieldText(hs[i]) + EOL + rest;
      LongLine(r, hs[i], rest);
      var r1 := r.(headers := r.headers + [hs[i]]);
      if q == Feed(r1, [LF] + rest).0 {
        assert hs[..i] + [hs[i]] == hs[..i + 1];
        assert [LF] + rest == [LF] + Fields(hs[i + 1..]) + EOL;
        NextIsWrong(r1, [LF], hs, i + 1);
      }
    }
  }

  /** Header i was not printed, or a stray line feed is in front of it. */
  lemma NextIsWrong(r: Request, stray: Bytes, hs: seq<Header>, i: nat)
    requires GoodFields(hs) && i <= |hs|
    requires stray == [LF] || (stray == [] && i < |hs| && hs[i].name == [])
    requires r.state == HEADER && r.headers == hs[..i]
    ensures var q := Feed(r, stray + Fields(hs[i..]) + EOL).0; q.state == INVALID || q.headers != hs
  {
    hide Eol, GoodField, Fields, FieldText, FieldLine, Feed;
    var j := NextNamed(hs, i);
    FirstLine(hs, i);
    if j == |hs| {
      assert stray + [] + EOL == stray + EOL;
      EndComesThrough(r, stray);
    } else {
      var rest := Fields(hs[j + 1..]) + EOL;
      assert stray + (FieldText(hs[j]) + EOL + Fields(hs[j + 1..])) + EOL == stray + FieldText(hs[j]) + EOL + rest;
      NameComesThrough(r, stray, hs[j], rest);
    }
  }

  // ----- The request line -----

  lemma NoVersion(verb: Bytes, p: Bytes, line: CString)
    requires SP !in verb && SP !in p && line == verb + [SP] + p
    ensures !RequestLine(INIT, line).1
  {
    hide IndexOf;
    Cut(verb, SP, p);
  }

  lemma CutVersion(verb: Bytes, path: Bytes, v: Bytes, line: CString)
    requires SP !in verb && SP !in path && v != HTTP_10 && v != HTTP_11
    requires line == verb + [SP] + (path + [SP] + v)
    ensures !RequestLine(INIT, line).1
  {
    hide IndexOf;
    var p := path + [SP] + v;
    Cut(verb, SP, p);
    assert line[|verb| + 1..] == p;
    Cut(path, SP, v);
    assert p[|path| + 1..] == v;
  }

  lemma ShortVersion(v: Bytes)
    requires |v| < 8
    ensures v != HTTP_10 && v != HTTP_11
  {
  }

  lemma LongRequestLine(verb: Bytes, path: Bytes, version: Bytes, line: CString)
    requires GoodLine(verb, path, version) && |verb| + |path| + |version| + 2 >= LINE_SIZE
    requires line == (verb + [SP] + (path + [SP] + version))[..LINE_SIZE - 1]
    ensures !RequestLine(INIT, line).1
  {
    hide Eol, RequestLine;
    var p, n := path + [SP] + version, LINE_SIZE - 2 - |verb|;
    PrefixOf(verb + [SP], p, LINE_SIZE - 1);
    assert line == verb + [SP] + p[..n];
    PrefixOf(path + [SP], version, n);
    if n > |path| {
      assert p[..n] == path + [SP] + version[..n - |path| - 1];
      ShortVersion(version[..n - |path| - 1]);
      CutVersion(verb, path, version[..n - |path| - 1], line);
    } else {
      assert p[..n] == path[..n];
      NoVersion(verb, p[..n], line);
    }
  }

  lemma UnfitRequestLine(q: Request, rest: Bytes)
    requires WellFormed(q) && |q.verb| + |q.path| + |q.version| + 2 >= LINE_SIZE
    ensures Feed(INIT, RequestLineText(q.verb, q.path, q.version) + EOL + rest).0.state == INVALID
  {
    hide Eol, RequestLine, GoodField, Feed, CStr;
    var l := q.verb + [SP] + (q.path + [SP] + q.version);
    NoNul(q.verb, q.path, q.version);
    CStrOf(q.verb);
    CStrOf(q.path);
    assert l == RequestLineText(q.verb, q.path, q.version);
    FeedCutLine(INIT, l, rest);
    assert NUL !in l;
    var line := l[..LINE_SIZE - 1];
    CStrOf(line);
    LongRequestLine(q.verb, q.path, q.version, line);
  }

  // ----- The exact condition -----

  lemma FirstUnfit(hs: seq<Header>) returns (i: nat)
    ensures i <= |hs| && forall n | 0 <= n < i :: FitLine(hs[n])
    ensures i < |hs| ==> !FitLine(hs[i])
  {
    i := 0;
    while i < |hs| && FitLine(hs[i])
      invariant i <= |hs| && forall n | 0 <= n < i :: FitLine(hs[n])
    {
      i := i + 1;
    }
  }

  lemma UnfitIsLost(q: Request)
    requires WellFormed(q) && !Fits(q)
    ensures Feed(INIT, Print(q)).0 != Received(q)
  {
    hide Eol, EndOfHeaders, RequestLineText, Fields, GoodField, GoodLine, TakeLine, Print, Feed;
    var l := RequestLineText(q.verb, q.path, q.version);
    var d := Fields(q.headers) + EOL;
    PrintParts(q, []);
    assert Print(q) + [] == Print(q) && d + [] == d;
    ReceivedFacts(q);
    if |q.verb| + |q.path| + |q.version| + 2 >= LINE_SIZE {
      UnfitRequestLine(q, d);
    } else {
      var i := FirstUnfit(q.headers);
      var r1 := INIT.(state := HEADER, verb := q.verb, path := q.path, version := q.version);
      FittingRequestLine(q);
      FeedWholeLine(INIT, l, d);
      assert q.headers[0..] == q.headers && q.headers[..0] == [];
      FieldsUpTo(r1, q.headers, 0, i, EOL);
      UnfitField(r1.(headers := q.headers[..i]), q.headers, i);
    }
  }

  lemma ReceivedFacts(q: Request)
    ensures Received(q).headers == q.headers && Received(q).state != INVALID
  {
  }

  lemma FittingRequestLine(q: Request)
    requires WellFormed(q) && |q.verb| + |q.path| + |q.version| + 2 < LINE_SIZE
    ensures var l := RequestLineText(q.verb, q.path, q.version);
      && Eol(l) == -1 && |l| < LINE_SIZE
      && TakeLine(INIT, l) == (INIT.(state := HEADER, verb := q.verb, path := q.path, version := q.version), |l| + 2)
  {
    hide GoodField, Eol, TakeLine, RequestLineText;
    RequestLineParts(q.(headers := []));
  }

  /** Exactly the well-formed requests whose lines fit survive printing and parsing. */
  lemma RoundTripIff(q: Request)
    ensures Feed(INIT, Print(q)) == (Received(q), |Print(q)|) <==> WellFormed(q) && Fits(q)
  {
    hide Feed, Print, WellFormed, Received, Fits;
    if Fits(q) {
      RoundTripIffWellFormed(q);
    } else if Feed(INIT, Print(q)) == (Received(q), |Print(q)|) {
      PrintHasNoNul(q);
      FeedHasNoNul(INIT, Print(q));
      ReceivedFacts(q);
      ReceivedIsAccepted(q);
      AcceptedIsWellFormed(Print(q));
      SameWellFormed(q);
      UnfitIsLost(q);
    }
  }

  lemma ReceivedIsAccepted(q: Request)
    ensures Received(q).state == BODY || Received(q).state == DONE
  {
  }

  lemma SameWellFormed(q: Request)
    ensures WellFormed(Received(q)) <==> WellFormed(q)
  {
    hide GoodLine, GoodFields, Get;
  }
}
