/** Printing a request back to bytes, in two passes: measure, then fill. */
module HttpSerialize {
  import opened Bytes
  import opened HeaderTable
  import P = HttpParser
  import opened HttpRequest

  const EOL: Bytes := [CR, LF]

  function RequestLineText(verb: Bytes, path: Bytes, version: Bytes): (t: Bytes) {
    CStr(verb) + [SP] + CStr(path) + [SP] + CStr(version)
  }

  function FieldText(h: Header): (t: Bytes) {
    CStr(h.name) + [COLON, SP] + CStr(h.value)
  }

  /** Headers without a name are left out. */
  function FieldLine(h: Header): (t: Bytes) {
    if CStr(h.name) == [] then [] else FieldText(h) + EOL
  }

  function Fields(hs: seq<Header>): (t: Bytes) {
    if |hs| == 0 then []
    else FieldLine(hs[0]) + Fields(hs[1..])
  }

  /** The printed request: request line, header lines, empty line. No body is printed. */
  function Print(r: P.Request): (t: Bytes)
    ensures |t| >= 2
  {
    RequestLineText(r.verb, r.path, r.version) + EOL + Fields(r.headers) + EOL
  }

  /** A bounded print of s at out[pos..]: cut off to fit, ended by a terminator, and the full length is returned. */
  method Snprintf(out: array<Byte>, pos: nat, s: Bytes) returns (n: nat)
    requires pos <= out.Length
    modifies out
    ensures n == |s|
    ensures out[..pos] == old(out[..pos])
    ensures pos + |s| < out.Length ==>
      out[pos..pos + |s|] == s && out[pos + |s|] == NUL && out[pos + |s| + 1..] == old(out[pos + |s| + 1..])
    ensures pos < out.Length <= pos + |s| ==>
      out[pos..out.Length - 1] == s[..out.Length - 1 - pos] && out[out.Length - 1] == NUL
  {
    n := |s|;
    if pos == out.Length {
      return;
    }
    var kept := if |s| < out.Length - pos then |s| else out.Length - pos - 1;
    for i := 0 to kept
      invariant forall k | 0 <= k < i :: out[pos + k] == s[k]
      invariant forall k | 0 <= k < pos || pos + i <= k < out.Length :: out[k] == old(out[k])
    {
      out[pos + i] := s[i];
    }
    out[pos + kept] := NUL;
  }

  /** The first pass: the length of the printed request. */
  method Needed(r: HttpReq) returns (needed: nat)
    requires r.Valid()
    ensures needed == |Print(r.Value())|
  {
    hide CStr, FieldText, Fields, RequestLineText;
    ghost var hs := r.headers.Contents();
    FieldsNone();
    needed := |RequestLineText(r.verb, r.path, r.version)| + 2;
    ghost var first := needed;
    for i := 0 to r.headers.count
      invariant needed + |Fields(hs[i..])| == first + |Fields(hs)|
    {
      FieldsFront(hs, i);
      var h := r.headers.headers[i];
      if CStr(h.name) != [] {
        needed := needed + |FieldText(h)| + 2;
      }
    }
    assert hs[|hs|..] == [] && hs[0..] == hs;
    needed := needed + 2;
  }

  /** Appends s to the bytes printed so far, for which there is room. */
  method Emit(out: array<Byte>, pos: nat, s: Bytes) returns (next: nat)
    requires pos + |s| < out.Length
    modifies out
    ensures next == pos + |s|
    ensures out[..next] == old(out[..pos]) + s
    ensures out[next] == NUL
  {
    var n := Snprintf(out, pos, s);
    next := pos + n;
    assert out[..next] == out[..pos] + out[pos..next];
  }

  lemma FieldsFront(hs: seq<Header>, i: nat)
    requires i < |hs|
    ensures Fields(hs[i..]) == FieldLine(hs[i]) + Fields(hs[i + 1..])
  {
    hide CStr, FieldText;
    assert hs[i..][1..] == hs[i + 1..];
  }

  /** The header lines of the second pass. */
  method EmitFields(hs: seq<Header>, out: array<Byte>, start: nat) returns (pos: nat)
    requires start + |Fields(hs)| < out.Length
    modifies out
    ensures pos == start + |Fields(hs)|
    ensures out[..pos] == old(out[..start]) + Fields(hs)
  {
    hide CStr, FieldText, Fields;
    pos := start;
    ghost var goal := out[..start] + Fields(hs);
    for i := 0 to |hs|
      invariant pos <= |goal| < out.Length
      invariant out[..pos] + Fields(hs[i..]) == goal
    {
      FieldsFront(hs, i);
      ghost var done, line, rest := out[..pos], FieldLine(hs[i]), Fields(hs[i + 1..]);
      assert goal == (done + line) + rest;
      if CStr(hs[i].name) != [] {
        pos := Emit(out, pos, FieldText(hs[i]) + EOL);
        assert out[..pos] == done + line;
      } else {
        assert done + line == done;
      }
    }
    FieldsNone();
    assert hs[|hs|..] == [];
    assert out[..pos] == goal;
  }

  lemma FieldsNone()
    ensures Fields([]) == []
  {
  }

  /** Prints r into out and returns the length, or leaves out alone and returns -1 if text and terminator do not fit. */
  method Serialize(r: HttpReq, out: array<Byte>) returns (n: int)
    requires r.Valid()
    modifies out
    ensures |Print(old(r.Value()))| >= out.Length ==> n == -1 && out[..] == old(out[..])
    ensures |Print(old(r.Value()))| < out.Length ==>
      n == |Print(old(r.Value()))| && out[..n] == Print(old(r.Value())) && out[n] == NUL
  {
    hide CStr, RequestLineText, Fields;
    var hs := r.headers.headers[..r.headers.count];
    var line := RequestLineText(r.verb, r.path, r.version) + EOL;
    ghost var text := Print(r.Value());
    assert text == (line + Fields(hs)) + EOL;
    var needed := Needed(r);
    if needed >= out.Length {
      return -1;
    }
    var pos := Emit(out, 0, line);
    assert out[..pos] == line;
    pos := EmitFields(hs, out, pos);
    n := Emit(out, pos, EOL);
  }
}
