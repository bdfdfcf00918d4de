/**
 What a printed request shows of headers that hold NUL bytes: names and values end at the first NUL, and a header
 without a name is left out. The table may know such a header by another hash than its printed name has.
 */
module AsPrinted {
  import opened Bytes
  import opened Fnv
  import opened HeaderTable
  import opened HeaderSets
  import opened HttpParser
  import opened HttpSerialize
  import opened LineLimit
  import opened Options
  import opened RoundTrip

  function Shown(h: Header): Header {
    Header(Hash(CStr(h.name)), CStr(h.name), CStr(h.value))
  }

  function Seen(hs: seq<Header>): (r: seq<Header>)
    ensures |r| <= |hs|
  {
    if |hs| == 0 then []
    else if CStr(hs[0].name) == [] then Seen(hs[1..])
    else [Shown(hs[0])] + Seen(hs[1..])
  }

  function SeenRequest(q: Request): Request {
    q.(headers := Seen(q.headers))
  }

  // ----- Printing shows no more than that -----

  lemma {:induction false} FieldsSeen(hs: seq<Header>)
    ensures Fields(hs) == Fields(Seen(hs))
  {
    hide Hash, CStr, FieldText;
    if |hs| > 0 {
      FieldsSeen(hs[1..]);
      LineSeen(hs[0]);
      if CStr(hs[0].name) == [] {
        assert [] + Fields(hs[1..]) == Fields(hs[1..]);
      } else {
        assert ([Shown(hs[0])] + Seen(hs[1..]))[1..] == Seen(hs[1..]);
      }
    }
  }

  lemma LineSeen(h: Header)
    ensures CStr(h.name) == [] ==> FieldLine(h) == []
    ensures FieldLine(Shown(h)) == FieldLine(h)
  {
    hide Hash;
  }

  lemma PrintSeen(q: Request)
    ensures Print(q) == Print(SeenRequest(q))
  {
    hide Fields, RequestLineText;
    FieldsSeen(q.headers);
  }

  // ----- What is shown is well formed -----

  lemma EolSplit(name: Bytes, v: Bytes)
    ensures Eol(name + [COLON, SP] + v) == -1 <==> Eol(name) == -1 && Eol(v) == -1
  {
    hide Eol;
    var l, n := name + [COLON, SP] + v, |name| + 2;
    EolNone(l);
    EolNone(name);
    EolNone(v);
    assert forall i | n <= i < |l| :: l[i] == v[i - n];
    assert forall i | 0 <= i < |v| :: v[i] == l[n + i];
    assert forall i | 0 <= i < |name| :: l[i] == name[i];
  }

  lemma LoweredPrefix(s: Bytes, n: nat)
    requires s == Lowered(s) && n <= |s|
    ensures s[..n] == Lowered(s[..n])
  {
    forall i | 0 <= i < n ensures s[..n][i] == Lower(s[..n][i]) {
      assert s[i] == Lowered(s)[i];
    }
  }

  lemma ShownIsGood(h: Header)
    requires RawField(h)
    ensures GoodField(Shown(h))
  {
    hide Eol, Hash, CStr, Lowered;
    var name, value := CStr(h.name), CStr(h.value);
    assert name == h.name[..|name|] && value == h.value[..|value|];
    EolSplit(h.name, h.value);
    EolPrefix(h.name, |name|);
    EolPrefix(h.value, |value|);
    EolSplit(name, value);
    LoweredPrefix(h.name, |name|);
  }

  lemma {:induction false} SeenIsGood(hs: seq<Header>)
    requires forall i | 0 <= i < |hs| :: RawField(hs[i])
    ensures forall i | 0 <= i < |Seen(hs)| :: GoodField(Seen(hs)[i]) && Seen(hs)[i].name != []
  {
    hide RawField, GoodField, CStr;
    if |hs| > 0 {
      SeenIsGood(hs[1..]);
      ShownIsGood(hs[0]);
    }
  }

  lemma SeenIsWellFormed(q: Request)
    requires Raw(q)
    ensures WellFormed(SeenRequest(q))
  {
    hide RawField, GoodField, GoodLine, Seen;
    SeenIsGood(q.headers);
  }

  /** Headers that have a name and hold no NUL are shown as they are. */
  lemma {:induction false} SeenAsIs(hs: seq<Header>)
    requires forall i | 0 <= i < |hs| :: GoodField(hs[i]) && hs[i].name != []
    ensures Seen(hs) == hs
  {
    hide Eol, Hash, CStr, Lowered;
    if |hs| > 0 {
      SeenAsIs(hs[1..]);
      CStrOf(hs[0].name);
      CStrOf(hs[0].value);
      assert hs == [hs[0]] + hs[1..];
    }
  }

  /**
   What was accepted, printed and parsed again is what was shown, exactly when every line shown fits the line buffer.
   This is so for any bytes: a NUL in a header, or in the body, is no obstacle.
   */
  lemma ParseThenPrintThenParse(d: Bytes)
    requires Accepts(d)
    ensures var q := Feed(INIT, d).0;
      Feed(INIT, Print(q)) == (Received(SeenRequest(q)), |Print(q)|) <==> Fits(SeenRequest(q))
  {
    hide Feed, Print, Received, Fits, Raw, WellFormed;
    var q := Feed(INIT, d).0;
    AcceptedIsWellFormed(d);
    ShownReadBackIff(q);
  }

  lemma ShownReadBackIff(q: Request)
    requires Raw(q)
    ensures Feed(INIT, Print(q)) == (Received(SeenRequest(q)), |Print(q)|) <==> Fits(SeenRequest(q))
  {
    hide Feed, Print, Received, Fits, Raw, WellFormed;
    PrintSeen(q);
    SeenIsWellFormed(q);
    RoundTripIff(SeenRequest(q));
  }

  // ----- Printed names -----

  /** The entries that are printed under this name, in their order. */
  function Printed(hs: seq<Header>, name: Bytes): (r: seq<Header>) {
    if |hs| == 0 then []
    else
      var r := Printed(hs[..|hs| - 1], name);
      if CStr(hs[|hs| - 1].name) == name then r + [hs[|hs| - 1]] else r
  }

  /** The entry is printed under this name, but its hash is another: no lookup or removal by the name finds it. */
  predicate Stray(e: Header, name: Bytes) {
    CStr(e.name) == name && e.hash != Hash(name)
  }

  function Strays(hs: seq<Header>, name: Bytes): (r: seq<Header>) {
    if |hs| == 0 then []
    else
      var r := Strays(hs[..|hs| - 1], name);
      if Stray(hs[|hs| - 1], name) then r + [hs[|hs| - 1]] else r
  }

  /** In a table the parser built, a stray is an entry whose name goes on behind a NUL and has another hash. */
  lemma StrayMeansNul(hs: seq<Header>, e: Header, name: Bytes)
    requires Tagged(hs) && e in hs && CStr(e.name) == name
    ensures Stray(e, name) <==> NUL in e.name && Hash(e.name) != Hash(name)
  {
    hide Hash, Lowered;
  }

  lemma {:induction false} StraysMembers(hs: seq<Header>, name: Bytes, e: Header)
    ensures e in Strays(hs, name) <==> e in hs && Stray(e, name)
  {
    hide Stray;
    if |hs| > 0 {
      StraysMembers(hs[..|hs| - 1], name, e);
      assert hs == hs[..|hs| - 1] + [hs[|hs| - 1]];
    }
  }

  lemma {:induction false} PrintedAppend(a: seq<Header>, b: seq<Header>, name: Bytes)
    ensures Printed(a + b, name) == Printed(a, name) + Printed(b, name)
    ensures Strays(a + b, name) == Strays(a, name) + Strays(b, name)
  {
    hide Stray, CStr;
    if |b| == 0 {
      assert a + b == a;
    } else {
      assert (a + b)[..|a + b| - 1] == a + b[..|b| - 1];
      PrintedAppend(a, b[..|b| - 1], name);
    }
  }

  /** Removing names takes no stray away; what is printed under a removed name afterwards are the strays. */
  lemma {:induction false} PrintedOutside(hs: seq<Header>, names: set<Bytes>, name: Bytes)
    ensures Strays(Outside(hs, names), name) == Strays(hs, name)
    ensures Printed(Outside(hs, names), name) == if name in names then Strays(hs, name) else Printed(hs, name)
  {
    hide Hash, CStr;
    if |hs| > 0 {
      var front, e := hs[..|hs| - 1], hs[|hs| - 1];
      var r := Outside(front, names);
      PrintedOutside(front, names, name);
      assert (r + [e])[..|r|] == r;
    }
  }

  lemma PrintedOne(p: Pair, name: Bytes)
    ensures var e := [Made(p.name, p.value)];
      Strays(e, name) == [] && Printed(e, name) == if name == Key(p) then e else []
  {
    hide Hash, CStr, Key, Made;
    var e := [Made(p.name, p.value)];
    MadeIsCalled(p);
    assert e[..0] == [];
  }

  /** What is printed under the name are its strays, and then the entries that go by it. */
  ghost predicate Apart(hs: seq<Header>, name: Bytes) {
    Printed(hs, name) == Strays(hs, name) + Named(hs, name)
  }

  lemma SetToPrinted(hs: seq<Header>, p: Pair, name: Bytes)
    requires Sized(hs) && (name == Key(p) || Apart(hs, name))
    ensures Strays(SetTo(hs, p.name, p.value), name) == Strays(hs, name)
    ensures Apart(SetTo(hs, p.name, p.value), name)
  {
    hide SetTo, Named, Outside, Printed, Strays, Key, Made, Called;
    var kept, e := Outside(hs, {Key(p)}), Made(p.name, p.value);
    SetToIs(hs, p);
    SetToNamed(hs, p, name);
    PrintedOutside(hs, {Key(p)}, name);
    PrintedAppend(kept, [e], name);
    PrintedOne(p, name);
  }

  lemma {:induction false} SetAllPrinted(hs: seq<Header>, sets: seq<Pair>, name: Bytes)
    requires Sized(hs) && (name in Names(sets) || Apart(hs, name))
    ensures Strays(SetAll(hs, sets), name) == Strays(hs, name)
    ensures Apart(SetAll(hs, sets), name)
  {
    hide Sized, Apart, SetTo, Key;
    if |sets| > 0 {
      var n := |sets| - 1;
      SetAllSized(hs, sets[..n]);
      if name in Names(sets[..n]) || Apart(hs, name) {
        SetAllPrinted(hs, sets[..n], name);
      } else {
        SetAllStrays(hs, sets[..n], name);
      }
      SetToPrinted(SetAll(hs, sets[..n]), sets[n], name);
    }
  }

  lemma {:induction false} SetAllStrays(hs: seq<Header>, sets: seq<Pair>, name: Bytes)
    requires Sized(hs)
    ensures Strays(SetAll(hs, sets), name) == Strays(hs, name)
  {
    hide Sized, SetTo, Strays, Outside, Made;
    if |sets| > 0 {
      var n := |sets| - 1;
      var t, p := SetAll(hs, sets[..n]), sets[n];
      SetAllSized(hs, sets[..n]);
      SetAllStrays(hs, sets[..n], name);
      SetToIs(t, p);
      PrintedOutside(t, {Key(p)}, name);
      PrintedAppend(Outside(t, {Key(p)}), [Made(p.name, p.value)], name);
      PrintedOne(p, name);
    }
  }

  // ----- Printed names, as the receiver finds them -----

  lemma {:induction false} SeenAppend(a: seq<Header>, b: seq<Header>)
    ensures Seen(a + b) == Seen(a) + Seen(b)
  {
    hide CStr, Shown;
    if |a| == 0 {
      assert a + b == b;
    } else {
      assert (a + b)[1..] == a[1..] + b;
      SeenAppend(a[1..], b);
    }
  }

  lemma SeenOne(e: Header)
    ensures Seen([e]) == if CStr(e.name) == [] then [] else [Shown(e)]
  {
    hide CStr, Shown;
    assert [e][1..] == [];
  }

  /** What the receiver holds under a name is what is printed under it. */
  lemma {:induction false} NamedSeen(hs: seq<Header>, name: Bytes)
    requires name != []
    ensures Named(Seen(hs), name) == Seen(Printed(hs, name)) && |Seen(Printed(hs, name))| == |Printed(hs, name)|
  {
    hide CStr, Hash;
    if |hs| > 0 {
      var front, e := hs[..|hs| - 1], hs[|hs| - 1];
      NamedSeen(front, name);
      assert hs == front + [e];
      SeenAppend(front, [e]);
      SeenOne(e);
      SeenAppend(Printed(front, name), [e]);
      if CStr(e.name) != [] {
        ShownName(e);
        NamedAppend(Seen(front), Shown(e), name);
      } else {
        assert Seen(front) + [] == Seen(front);
      }
    }
  }

  lemma ShownName(e: Header)
    ensures CStr(Shown(e).name) == CStr(e.name) && Called(Shown(e), CStr(e.name))
  {
    hide Hash;
  }

  lemma {:induction false} GetSeenOutside(hs: seq<Header>, names: set<Bytes>, name: CString)
    requires OtherHash(names, name)
    ensures Get(Seen(Outside(hs, names)), name) == Get(Seen(hs), name)
  {
    hide Hash, CStr, Get, Shown, Seen, Called;
    if |hs| > 0 {
      var front, e := hs[..|hs| - 1], hs[|hs| - 1];
      GetSeenOutside(front, names, name);
      assert hs == front + [e];
      GetSeenOneMore(front, e, name);
      GetSeenOneMore(Outside(front, names), e, name);
    }
  }

  lemma GetSeenOneMore(hs: seq<Header>, e: Header, name: CString)
    ensures Get(Seen(hs + [e]), name) ==
      if Get(Seen(hs), name).Some? || CStr(e.name) == [] || Hash(CStr(e.name)) != Hash(Lowered(name)) then
        Get(Seen(hs), name)
      else
        Some(CStr(e.value))
  {
    hide Hash, CStr, Get, Seen;
    SeenAppend(hs, [e]);
    SeenOne(e);
    if CStr(e.name) == [] {
      assert Seen(hs) + [] == Seen(hs);
    } else {
      GetAppend(Seen(hs), Shown(e), name);
    }
  }

  lemma GetAppend(hs: seq<Header>, e: Header, name: CString)
    ensures Get(hs + [e], name)
         == if Get(hs, name).Some? then Get(hs, name) else if e.hash == Hash(Lowered(name)) then Some(e.value) else None
  {
    hide Hash;
    TagIndexAppend(hs, e, name);
  }

  /** Setting names of another hash does not change what the receiver's lookup finds. */
  lemma {:induction false} GetSeenAfterSets(hs: seq<Header>, sets: seq<Pair>, name: CString)
    requires Sized(hs) && OtherHash(Names(sets), name)
    ensures Get(Seen(SetAll(hs, sets)), name) == Get(Seen(hs), name)
  {
    hide Hash, CStr, Get, Seen, SetTo, Outside, Shown, Made, Key, Called;
    if |sets| > 0 {
      var n := |sets| - 1;
      var t, p := SetAll(hs, sets[..n]), sets[n];
      var kept, e := Outside(t, {Key(p)}), Made(p.name, p.value);
      SetAllSized(hs, sets[..n]);
      GetSeenAfterSets(hs, sets[..n], name);
      SetToIs(t, p);
      GetSeenOutside(t, {Key(p)}, name);
      GetSeenOneMore(kept, e, name);
      MadeIsCalled(p);
    }
  }

  /** Names without NUL: the receiver looks up what the table would look up. */
  lemma {:induction false} GetSeenSame(hs: seq<Header>, name: CString)
    requires Hash([]) != Hash(Lowered(name))
    requires forall e | e in hs :: e.hash == Hash(CStr(e.name))
    ensures Get(Seen(hs), name) == AsString(Get(hs, name))
  {
    hide Hash, CStr, Get, Shown;
    if |hs| == 0 {
      NoneInNone(name);
    } else {
      var front, e := hs[..|hs| - 1], hs[|hs| - 1];
      assert hs == front + [e];
      assert e in hs;
      GetSeenSame(front, name);
      GetAppend(front, e, name);
      GetSeenOneMore(front, e, name);
    }
  }

  lemma NoneInNone(name: CString)
    ensures Get([], name) == None
  {
  }
}

