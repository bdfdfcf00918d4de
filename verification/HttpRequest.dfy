/** The parser as the program runs it: one request object, updated line by line. */
module HttpRequest {
  import opened Bytes
  import opened HeaderTable
  import P = HttpParser

  class HttpReq {
    var state: P.State
    var verb: Bytes
    var path: Bytes
    var version: Bytes
    const headers: Table
    var bodyRemaining: int

    ghost predicate Valid()
      reads this, headers, headers.headers
    {
      headers.Valid() && (state == P.BODY ==> bodyRemaining > 0)
    }

    ghost function Value(): (r: P.Request)
      requires Valid()
      reads this, headers, headers.headers
      ensures P.ReqValid(r)
    {
      P.Request(state, verb, path, version, headers.Contents(), bodyRemaining)
    }

    constructor ()
      ensures Valid() && fresh(headers) && fresh(headers.headers)
      ensures Value() == P.INIT
    {
      state, verb, path, version, bodyRemaining := P.REQ_LINE, [], [], [], 0;
      headers := new Table();
    }

    method ParseRequestLine(line: CString) returns (ok: bool)
      requires Valid()
      modifies this`verb, this`path, this`version
      ensures Valid()
      ensures (Value(), ok) == P.RequestLine(old(Value()), line)
    {
      hide IndexOf, Tagged;
      var sp1 := IndexOf(line, SP);
      if sp1 == -1 || sp1 >= P.METHOD_SIZE {
        return false;
      }
      verb := line[..sp1];
      var p := line[sp1 + 1..];
      var sp2 := IndexOf(p, SP);
      if sp2 == -1 || sp2 >= P.PATH_SIZE {
        return false;
      }
      path := p[..sp2];
      p := p[sp2 + 1..];
      if !(P.HTTP <= p) || |p| >= P.VERSION_SIZE {
        return false;
      }
      if p != P.HTTP_10 && p != P.HTTP_11 {
        return false;
      }
      version := p;
      return true;
    }

    static method FindEol(data: Bytes, start: nat) returns (eol: int)
      requires start <= |data|
      ensures eol == var e := P.Eol(data[start..]); if e == -1 then -1 else start + e
    {
      var i := start;
      while i + 1 < |data|
        invariant start <= i <= |data|
        invariant P.Eol(data[start..]) == var e := P.Eol(data[i..]); if e == -1 then -1 else i - start + e
      {
        if data[i] == CR && data[i + 1] == LF {
          return i;
        }
        assert data[i..][1..] == data[i + 1..];
        i := i + 1;
      }
      return -1;
    }

    static method SkipBlanks(s: Bytes) returns (v: Bytes)
      ensures v == P.SkipBlanks(s)
    {
      v := s;
      while |v| > 0 && (v[0] == SP || v[0] == TAB)
        invariant P.SkipBlanks(v) == P.SkipBlanks(s)
      {
        v := v[1..];
      }
    }

    method FinishHeaders()
      requires Valid()
      modifies this`state, this`bodyRemaining
      ensures Valid()
      ensures Value() == P.EndOfHeaders(old(Value()))
    {
      var cl := headers.GetValue(P.CONTENT_LENGTH);
      bodyRemaining := match cl case Some(v) => P.Atoi(CStr(v)) case None => 0;
      state := if bodyRemaining > 0 then P.BODY else P.DONE;
    }

    method ParseHeaderLine(line: Bytes)
      requires Valid()
      modifies this`state, headers, headers.headers
      ensures Valid()
      ensures Value() == P.HeaderLine(old(Value()), line)
    {
      var colon := IndexOf(line, COLON);
      if colon == -1 {
        state := P.INVALID;
        return;
      }
      var v := SkipBlanks(line[colon + 1..]);
      var ok := headers.AddHeader(line[..colon], v);
      if !ok {
        state := P.INVALID;
      }
    }

    /** One line as the line buffer holds it; `used` is 0 when the line ends the parse. */
    method FeedLine(line: Bytes) returns (used: nat)
      requires Valid() && (state == P.REQ_LINE || state == P.HEADER)
      modifies this, headers, headers.headers
      ensures Valid()
      ensures (Value(), used) == P.TakeLine(old(Value()), line)
    {
      hide P.RequestLine, P.HeaderLine, P.EndOfHeaders, Tagged, CStr;
      if state == P.REQ_LINE {
        var ok := ParseRequestLine(CStr(line));
        if !ok {
          state := P.INVALID;
          return 0;
        }
        state := P.HEADER;
      } else if |line| == 0 {
        FinishHeaders();
      } else {
        ParseHeaderLine(line);
        if state == P.INVALID {
          return 0;
        }
      }
      return |line| + 2;
    }

    method FeedBody(available: nat) returns (take: nat)
      requires Valid() && state == P.BODY
      modifies this`state, this`bodyRemaining
      ensures Valid()
      ensures (Value(), take) == P.TakeBody(old(Value()), available)
    {
      take := if available < bodyRemaining then available else bodyRemaining;
      bodyRemaining := bodyRemaining - take;
      if bodyRemaining == 0 {
        state := P.DONE;
      }
    }

    /** One turn of the loop: body bytes, or the next line if it is complete. */
    method FeedOnce(data: Bytes, start: nat) returns (used: nat)
      requires Valid() && start <= |data| && !P.Terminal(Value())
      modifies this, headers, headers.headers
      ensures Valid()
      ensures (Value(), used) == P.Step(old(Value()), data[start..])
    {
      hide P.TakeLine, P.TakeBody, Tagged, P.Eol;
      if state == P.BODY {
        used := FeedBody(|data| - start);
        return;
      }
      var eol := FindEol(data, start);
      if eol == -1 {
        return 0;
      }
      assert data[start..eol] == data[start..][..eol - start];
      used := FeedLine(Truncated(data[start..eol], P.LINE_SIZE));
    }

    method Feed(data: Bytes) returns (consumed: nat)
      requires Valid()
      modifies this, headers, headers.headers
      ensures Valid()
      ensures (Value(), consumed) == P.Feed(old(Value()), data)
    {
      hide P.Step, Tagged;
      consumed := 0;
      while consumed < |data| && state != P.DONE && state != P.INVALID
        invariant Valid() && consumed <= |data|
        invariant P.Feed(old(Value()), data)
               == (P.Feed(Value(), data[consumed..]).0, consumed + P.Feed(Value(), data[consumed..]).1)
        decreases |data| - consumed
      {
        ghost var v, rest := Value(), data[consumed..];
        var used := FeedOnce(data, consumed);
        if used == 0 {
          return;
        }
        assert data[consumed + used..] == rest[used..];
        consumed := consumed + used;
      }
    }
  }
}
