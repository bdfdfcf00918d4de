/**
 The resumable request parser: a request line, header lines, then as many body bytes as Content-Length announces.
 The grammar is a subset of RFC 9112: section 3 (request line), section 5 (field lines), section 6.3 (body length).
 */
module HttpParser {
  import opened Bytes
  import opened HeaderTable

  const METHOD_SIZE: nat := 16
  const PATH_SIZE: nat := 1024
  const VERSION_SIZE: nat := 16
  const LINE_SIZE: nat := 1024

  // "HTTP/", "HTTP/1.0", "HTTP/1.1", "content-length"
  const HTTP: CString := [0x48, 0x54, 0x54, 0x50, 0x2f]
  const HTTP_10: CString := HTTP + [0x31, 0x2e, 0x30]
  const HTTP_11: CString := HTTP + [0x31, 0x2e, 0x31]
  const CONTENT_LENGTH: CString := [0x63, 0x6f, 0x6e, 0x74, 0x65, 0x6e, 0x74, 0x2d, 0x6c, 0x65, 0x6e, 0x67, 0x74, 0x68]

  datatype State = REQ_LINE | HEADER | BODY | DONE | INVALID

  datatype Request = Request(state: State, verb: Bytes, path: Bytes, version: Bytes,
                             headers: seq<Header>, bodyRemaining: int)

  const INIT: Request := Request(REQ_LINE, [], [], [], [], 0)

  predicate Terminal(r: Request) {
    r.state == DONE || r.state == INVALID
  }

  ghost predicate ReqValid(r: Request) {
    && Tagged(r.headers) && |r.headers| <= HEADER_MAX
    && (r.state == BODY ==> r.bodyRemaining > 0)
  }

  /** The position of the first CR LF in d, -1 if there is none. */
  function Eol(d: Bytes): (e: int)
    ensures e == -1 || 0 <= e <= |d| - 2
  {
    if |d| < 2 then -1
    else if d[0] == CR && d[1] == LF then 0
    else
      var e := Eol(d[1..]);
      if e == -1 then -1 else e + 1
  }

  function SkipBlanks(s: Bytes): (r: Bytes)
    ensures |r| <= |s| && r == s[|s| - |r|..]
    ensures |r| > 0 ==> r[0] != SP && r[0] != TAB
    decreases |s|
  {
    if |s| > 0 && (s[0] == SP || s[0] == TAB) then SkipBlanks(s[1..]) else s
  }

  predicate IsSpace(c: Byte) {
    c == SP || TAB <= c <= CR
  }

  predicate IsDigit(c: Byte) {
    0x30 <= c <= 0x39
  }

  function Digits(acc: int, s: Bytes): int
    decreases |s|
  {
    if |s| > 0 && IsDigit(s[0]) then Digits(10 * acc + (s[0] - 0x30) as int, s[1..]) else acc
  }

  /** atoi, on numbers that fit an int. */
  function Atoi(s: Bytes): int
    decreases |s|
  {
    if |s| == 0 then 0
    else if IsSpace(s[0]) then Atoi(s[1..])
    else if s[0] == 0x2d then -Digits(0, s[1..])
    else if s[0] == 0x2b then Digits(0, s[1..])
    else Digits(0, s)
  }

  /** The request line: on failure the fields already copied stay. */
  function RequestLine(r: Request, line: CString): (q: (Request, bool))
    ensures q.0 == r.(verb := q.0.verb, path := q.0.path, version := q.0.version)
  {
    var sp1 := IndexOf(line, SP);
    if sp1 == -1 || sp1 >= METHOD_SIZE then (r, false) else
    var r1, p := r.(verb := line[..sp1]), line[sp1 + 1..];
    var sp2 := IndexOf(p, SP);
    if sp2 == -1 || sp2 >= PATH_SIZE then (r1, false) else
    var r2, v := r1.(path := p[..sp2]), p[sp2 + 1..];
    if v == HTTP_10 || v == HTTP_11 then (r2.(version := v), true) else (r2, false)
  }

  /** A header line that is not empty. */
  function HeaderLine(r: Request, line: Bytes): Request {
    var colon := IndexOf(line, COLON);
    if colon == -1 || |r.headers| >= HEADER_MAX then r.(state := INVALID)
    else r.(headers := Add(r.headers, line[..colon], SkipBlanks(line[colon + 1..])))
  }

  /** The empty line: Content-Length decides whether a body follows. */
  function EndOfHeaders(r: Request): Request {
    var cl := Get(r.headers, CONTENT_LENGTH);
    var n := match cl case Some(v) => Atoi(CStr(v)) case None => 0;
    r.(bodyRemaining := n, state := if n > 0 then BODY else DONE)
  }

  /** One line, cut to what the line buffer holds, and how many bytes it uses up. */
  function TakeLine(r: Request, line: Bytes): (q: (Request, nat))
    ensures q.1 <= |line| + 2
  {
    if r.state == REQ_LINE then
      var (r1, ok) := RequestLine(r, CStr(line));
      if ok then (r1.(state := HEADER), |line| + 2) else (r1.(state := INVALID), 0)
    else if |line| == 0 then (EndOfHeaders(r), 2)
    else
      var r1 := HeaderLine(r, line);
      (r1, if r1.state == INVALID then 0 else |line| + 2)
  }

  function TakeBody(r: Request, available: nat): (q: (Request, nat))
    ensures q.1 <= available
  {
    var take := if r.bodyRemaining < 0 || available < r.bodyRemaining then available else r.bodyRemaining;
    var left := r.bodyRemaining - take;
    (r.(bodyRemaining := left, state := if left == 0 then DONE else BODY), take)
  }

  /** One turn of the parsing loop on the unread bytes d; no bytes are used when the line is incomplete or bad. */
  function Step(r: Request, d: Bytes): (q: (Request, nat))
    ensures q.1 <= |d|
  {
    if r.state == BODY then TakeBody(r, |d|)
    else
      var e := Eol(d);
      if e == -1 then (r, 0) else TakeLine(r, Truncated(d[..e], LINE_SIZE))
  }

  function Feed(r: Request, d: Bytes): (q: (Request, nat))
    ensures q.1 <= |d|
    decreases |d|
  {
    if |d| == 0 || Terminal(r) then (r, 0)
    else
      var (r1, c) := Step(r, d);
      if c == 0 then (r1, 0)
      else
        var (r2, c2) := Feed(r1, d[c..]);
        (r2, c + c2)
  }

  // ----- Chunks -----

  lemma {:induction false} EolAppend(x: Bytes, y: Bytes)
    requires Eol(x) >= 0
    ensures Eol(x + y) == Eol(x)
  {
    if !(x[0] == CR && x[1] == LF) {
      EolAppend(x[1..], y);
      assert (x + y)[1..] == x[1..] + y;
    }
  }

  /** A turn that makes progress does not look past the bytes it was given, except in the body. */
  lemma StepAppend(r: Request, x: Bytes, y: Bytes)
    requires r.state != BODY && Eol(x) >= 0
    ensures Step(r, x + y) == Step(r, x)
  {
    hide TakeLine;
    EolAppend(x, y);
    assert (x + y)[..Eol(x)] == x[..Eol(x)];
  }

  /** Feeding x, and then the unread rest of x with y appended, is feeding both at once. */
  ghost predicate FeedsInTwo(r: Request, x: Bytes, y: Bytes) {
    var (r1, c1) := Feed(r, x);
    var (r2, c2) := Feed(r1, x[c1..] + y);
    Feed(r, x + y) == (r2, c1 + c2)
  }

  lemma NothingRead(r: Request, x: Bytes, y: Bytes)
    requires Feed(r, x) == (r, 0)
    ensures FeedsInTwo(r, x, y)
  {
    hide Step;
    assert x[0..] + y == x + y;
  }

  /** In the body only the number of bytes matters. */
  lemma BodyInTwo(r: Request, x: Bytes, y: Bytes)
    requires r.state == BODY && r.bodyRemaining > |x| > 0
    ensures FeedsInTwo(r, x, y)
  {
    hide TakeLine;
    var (r1, c) := Step(r, x);
    assert x[c..] == [] && Feed(r, x) == (r1, |x|);
    assert x[|x|..] + y == y;
    if |y| == 0 {
      assert x + y == x;
    } else {
      var (r2, t) := Step(r1, y);
      assert Step(r, x + y) == (r2, |x| + t);
      assert (x + y)[|x| + t..] == y[t..];
    }
  }

  lemma StepInTwo(r: Request, x: Bytes, y: Bytes)
    requires |x| > 0 && !Terminal(r)
    requires Step(r, x + y) == Step(r, x)
    requires Step(r, x).1 > 0 ==> FeedsInTwo(Step(r, x).0, x[Step(r, x).1..], y)
    requires Step(r, x).1 == 0 ==> Terminal(Step(r, x).0)
    ensures FeedsInTwo(r, x, y)
  {
    hide Step;
    var (r1, c) := Step(r, x);
    if c > 0 {
      var c1 := Feed(r1, x[c..]).1;
      assert (x + y)[c..] == x[c..] + y;
      assert x[c..][c1..] == x[c + c1..];
    }
  }

  lemma LineFacts(r: Request, l: Bytes)
    requires r.state != BODY
    ensures TakeLine(r, l).0.state == BODY ==> TakeLine(r, l).0.bodyRemaining > 0
    ensures TakeLine(r, l).1 == 0 ==> TakeLine(r, l).0.state == INVALID
  {
    hide IndexOf, CStr, Get, Atoi, SkipBlanks, Add;
  }

  lemma StepFacts(r: Request, d: Bytes)
    requires r.state == BODY ==> r.bodyRemaining > 0
    ensures Step(r, d).0.state == BODY ==> Step(r, d).0.bodyRemaining > 0
    ensures |d| > 0 && !Terminal(r) && Step(r, d).1 == 0 ==> Step(r, d).0.state == INVALID || Step(r, d).0 == r
    ensures r.state != BODY && Eol(d) >= 0 && Step(r, d).1 == 0 ==> Step(r, d).0.state == INVALID
  {
    hide TakeLine, Eol;
    if r.state != BODY && Eol(d) >= 0 {
      LineFacts(r, Truncated(d[..Eol(d)], LINE_SIZE));
    }
  }

  lemma {:induction false} FeedAppend(r: Request, x: Bytes, y: Bytes)
    requires r.state == BODY ==> r.bodyRemaining > 0
    ensures FeedsInTwo(r, x, y)
    decreases |x|
  {
    hide TakeLine, FeedsInTwo, Feed;
    if |x| == 0 || Terminal(r) || (r.state != BODY && Eol(x) == -1) {
      FeedStuck(r, x);
      NothingRead(r, x, y);
    } else if r.state == BODY && r.bodyRemaining > |x| {
      BodyInTwo(r, x, y);
    } else {
      if r.state != BODY {
        StepAppend(r, x, y);
      }
      StepFacts(r, x);
      if Step(r, x).1 > 0 {
        FeedAppend(Step(r, x).0, x[Step(r, x).1..], y);
      }
      StepInTwo(r, x, y);
    }
  }

  lemma FeedStuck(r: Request, x: Bytes)
    requires |x| == 0 || Terminal(r) || (r.state != BODY && Eol(x) == -1)
    ensures Feed(r, x) == (r, 0)
  {
  }

  function Concat(chunks: seq<Bytes>): Bytes {
    if |chunks| == 0 then [] else chunks[0] + Concat(chunks[1..])
  }

  /** What a caller does that gets the bytes in pieces: feed each with the unread tail in front of it. */
  function FeedChunks(r: Request, tail: Bytes, chunks: seq<Bytes>): (q: (Request, Bytes, nat))
    decreases |chunks|
  {
    if |chunks| == 0 then (r, tail, 0)
    else
      var d := tail + chunks[0];
      var (r1, c) := Feed(r, d);
      var (r2, rest, c2) := FeedChunks(r1, d[c..], chunks[1..]);
      (r2, rest, c + c2)
  }

  lemma {:induction false} FeedKeepsBody(r: Request, d: Bytes)
    requires r.state == BODY ==> r.bodyRemaining > 0
    ensures Feed(r, d).0.state == BODY ==> Feed(r, d).0.bodyRemaining > 0
    decreases |d|
  {
    hide Step;
    if |d| > 0 && !Terminal(r) {
      StepFacts(r, d);
      var (r1, c) := Step(r, d);
      if c > 0 {
        FeedKeepsBody(r1, d[c..]);
      }
    }
  }

  /** Chunk independence: however the bytes are cut up, the request, the bytes used and the unread tail are the same. */
  lemma {:induction false} ChunksDoNotMatter(r: Request, tail: Bytes, chunks: seq<Bytes>)
    requires r.state == BODY ==> r.bodyRemaining > 0
    requires Feed(r, tail) == (r, 0)
    ensures var d := tail + Concat(chunks);
      FeedChunks(r, tail, chunks) == (Feed(r, d).0, d[Feed(r, d).1..], Feed(r, d).1)
    decreases |chunks|
  {
    hide Step, Feed;
    if |chunks| == 0 {
      assert tail + Concat(chunks) == tail;
    } else {
      var d := tail + chunks[0];
      var (r1, c) := Feed(r, d);
      var y := Concat(chunks[1..]);
      FeedKeepsBody(r, d);
      FeedAppend(r, d, []);
      assert d + [] == d && d[c..] + [] == d[c..];
      ChunksDoNotMatter(r1, d[c..], chunks[1..]);
      FeedAppend(r, d, y);
      assert tail + Concat(chunks) == d + y;
      assert (d + y)[c..] == d[c..] + y;
      var c2 := Feed(r1, d[c..] + y).1;
      assert (d + y)[c + c2..] == (d[c..] + y)[c2..];
    }
  }

  /** The verdict is final: once the bytes x led to DONE or INVALID, what follows them changes nothing. */
  lemma VerdictIsFinal(r: Request, x: Bytes, y: Bytes)
    requires r.state == BODY ==> r.bodyRemaining > 0
    requires Terminal(Feed(r, x).0)
    ensures Feed(r, x + y) == Feed(r, x)
  {
    hide Step;
    FeedAppend(r, x, y);
  }

  lemma AnyTwoChunkingsAgree(r: Request, a: seq<Bytes>, b: seq<Bytes>)
    requires r.state == BODY ==> r.bodyRemaining > 0
    requires Concat(a) == Concat(b)
    ensures FeedChunks(r, [], a) == FeedChunks(r, [], b)
  {
    hide Step;
    assert [] + Concat(a) == [] + Concat(b);
    ChunksDoNotMatter(r, [], a);
    ChunksDoNotMatter(r, [], b);
  }
}
