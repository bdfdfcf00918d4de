/** Sequences of set operations on the header table: what they keep, what they leave behind, when they all fit. */
module HeaderSets {
  import opened Bytes
  import opened Fnv
  import opened HeaderTable

  datatype Pair = Pair(name: CString, value: CString)

  function Key(p: Pair): Bytes {
    Lowered(p.name)
  }

  function Names(sets: seq<Pair>): (r: set<Bytes>) {
    if |sets| == 0 then {} else Names(sets[..|sets| - 1]) + {Key(sets[|sets| - 1])}
  }

  /** The table after setting each pair in turn; pairs for which there is no room are dropped. */
  function SetAll(hs: seq<Header>, sets: seq<Pair>): seq<Header> {
    if |sets| == 0 then hs
    else SetTo(SetAll(hs, sets[..|sets| - 1]), sets[|sets| - 1].name, sets[|sets| - 1].value)
  }

  /** Every one of the set operations reported success. */
  ghost predicate Accepted(hs: seq<Header>, sets: seq<Pair>) {
    |sets| == 0 || (
      var n := |sets| - 1;
      Accepted(hs, sets[..n]) && |Without(SetAll(hs, sets[..n]), sets[n].name)| < 32)
  }

  /** The entry goes by one of these names. */
  predicate Dropped(e: Header, names: set<Bytes>) {
    CStr(e.name) in names && Called(e, CStr(e.name))
  }

  /** The entries that go by none of these names, in their order. */
  function Outside(hs: seq<Header>, names: set<Bytes>): (r: seq<Header>)
    ensures |r| <= |hs|
  {
    if |hs| == 0 then []
    else
      var r := Outside(hs[..|hs| - 1], names);
      if Dropped(hs[|hs| - 1], names) then r else r + [hs[|hs| - 1]]
  }

  /** The entries that go by this name, in their order. */
  function Named(hs: seq<Header>, name: Bytes): (r: seq<Header>)
    ensures |r| <= |hs|
  {
    if |hs| == 0 then []
    else
      var r := Named(hs[..|hs| - 1], name);
      if Called(hs[|hs| - 1], name) then r + [hs[|hs| - 1]] else r
  }

  /** One entry for each name, where it was set last and with the value it was set to last. */
  function Last(sets: seq<Pair>): seq<Header> {
    if |sets| == 0 then []
    else
      var p := sets[|sets| - 1];
      Outside(Last(sets[..|sets| - 1]), {Key(p)}) + [Made(p.name, p.value)]
  }

  function LastValue(sets: seq<Pair>, name: Bytes): (p: Pair)
    requires name in Names(sets)
    ensures Key(p) == name && p in sets
  {
    var n := |sets| - 1;
    if Key(sets[n]) == name then sets[n] else LastValue(sets[..n], name)
  }

  /** The table never holds more. */
  ghost predicate Sized(hs: seq<Header>) {
    |hs| <= 32
  }

  // ----- Filters -----

  lemma {:induction false} OutsideAppend(a: seq<Header>, b: seq<Header>, names: set<Bytes>)
    ensures Outside(a + b, names) == Outside(a, names) + Outside(b, names)
  {
    hide Dropped;
    if |b| == 0 {
      assert a + b == a;
    } else {
      assert (a + b)[..|a + b| - 1] == a + b[..|b| - 1];
      OutsideAppend(a, b[..|b| - 1], names);
    }
  }

  lemma {:induction false} OutsideTwice(hs: seq<Header>, m: set<Bytes>, n: set<Bytes>)
    ensures Outside(Outside(hs, m), n) == Outside(hs, m + n)
  {
    hide Hash, CStr;
    if |hs| > 0 {
      var e := hs[|hs| - 1];
      OutsideTwice(hs[..|hs| - 1], m, n);
      OutsideAppend(Outside(hs[..|hs| - 1], m), [e], n);
    }
  }

  lemma {:induction false} OutsideOne(hs: seq<Header>, name: CString)
    ensures Outside(hs, {Lowered(name)}) == Without(hs, name)
  {
    hide Hash, CStr, Lowered;
    if |hs| > 0 {
      OutsideOne(hs[..|hs| - 1], name);
    }
  }

  lemma {:induction false} OutsideMembers(hs: seq<Header>, names: set<Bytes>, e: Header)
    ensures e in Outside(hs, names) <==> e in hs && !Dropped(e, names)
  {
    hide Dropped;
    if |hs| > 0 {
      OutsideMembers(hs[..|hs| - 1], names, e);
      assert hs == hs[..|hs| - 1] + [hs[|hs| - 1]];
    }
  }

  lemma {:induction false} OutsideIsAll(hs: seq<Header>, names: set<Bytes>)
    requires forall e | e in hs :: !Dropped(e, names)
    ensures Outside(hs, names) == hs
  {
    hide Dropped;
    if |hs| > 0 {
      OutsideIsAll(hs[..|hs| - 1], names);
      assert hs == hs[..|hs| - 1] + [hs[|hs| - 1]];
    }
  }

  lemma MadeIsCalled(p: Pair)
    ensures var e := Made(p.name, p.value);
      CStr(e.name) == e.name == Key(p) && Called(e, Key(p)) && CStr(e.value) == p.value
  {
    hide Hash;
    LoweredTwice(p.name);
  }

  /** Filtering out one more name loses exactly the entries of that name. */
  lemma {:induction false} OutsideCount(hs: seq<Header>, names: set<Bytes>, name: Bytes)
    requires name !in names
    ensures |Outside(hs, names)| == |Outside(hs, names + {name})| + |Named(hs, name)|
  {
    hide Hash, CStr;
    if |hs| > 0 {
      OutsideCount(hs[..|hs| - 1], names, name);
    }
  }

  lemma {:induction false} NamedOutside(hs: seq<Header>, names: set<Bytes>, name: Bytes)
    ensures Named(Outside(hs, names), name) == if name in names then [] else Named(hs, name)
  {
    hide Hash, CStr;
    if |hs| > 0 {
      var r := Outside(hs[..|hs| - 1], names);
      NamedOutside(hs[..|hs| - 1], names, name);
      if !Dropped(hs[|hs| - 1], names) {
        NamedAppend(r, hs[|hs| - 1], name);
      }
    }
  }

  lemma NamedAppend(hs: seq<Header>, e: Header, name: Bytes)
    ensures Named(hs + [e], name) == if Called(e, name) then Named(hs, name) + [e] else Named(hs, name)
  {
    hide Called;
    assert (hs + [e])[..|hs|] == hs;
  }

  lemma {:induction false} NamedMembers(hs: seq<Header>, name: Bytes, e: Header)
    ensures e in Named(hs, name) <==> e in hs && Called(e, name)
  {
    hide Called;
    if |hs| > 0 {
      NamedMembers(hs[..|hs| - 1], name, e);
      assert hs == hs[..|hs| - 1] + [hs[|hs| - 1]];
    }
  }

  // ----- One set operation -----

  lemma RemovedKey(hs: seq<Header>, p: Pair)
    ensures Outside(hs, {Key(p)}) == Without(hs, p.name)
  {
    OutsideOne(hs, p.name);
  }

  /** Either there is room for the pair, or the full table does not hold the name and stays as it is. */
  lemma SetToIs(hs: seq<Header>, p: Pair)
    requires Sized(hs)
    ensures var kept := Outside(hs, {Key(p)});
      && Sized(SetTo(hs, p.name, p.value))
      && (|kept| < 32 ==> SetTo(hs, p.name, p.value) == kept + [Made(p.name, p.value)])
      && (|kept| >= 32 ==> SetTo(hs, p.name, p.value) == hs == kept && |kept| == 32)
  {
    hide Without, SetTo, Made, Matches;
    SetIsAllOrNothing(hs, p.name, p.value);
    WithoutSame(hs, p.name);
    RemovedKey(hs, p);
  }

  // ----- Any number of them -----

  lemma {:induction false} SetAllSized(hs: seq<Header>, sets: seq<Pair>)
    requires Sized(hs)
    ensures Sized(SetAll(hs, sets))
  {
    hide SetTo;
    if |sets| > 0 {
      SetAllSized(hs, sets[..|sets| - 1]);
      SetToIs(SetAll(hs, sets[..|sets| - 1]), sets[|sets| - 1]);
    }
  }

  /** Whether or not there was room, entries of other names all survive, in their order. */
  lemma {:induction false} SetAllKeepsOthers(hs: seq<Header>, sets: seq<Pair>, names: set<Bytes>)
    requires Sized(hs) && Names(sets) <= names
    ensures Outside(SetAll(hs, sets), names) == Outside(hs, names)
  {
    hide SetTo, Outside;
    if |sets| > 0 {
      var t, p := SetAll(hs, sets[..|sets| - 1]), sets[|sets| - 1];
      SetAllKeepsOthers(hs, sets[..|sets| - 1], names);
      SetAllSized(hs, sets[..|sets| - 1]);
      SetToKeepsOthers(t, p, names);
    }
  }

  lemma SetToKeepsOthers(hs: seq<Header>, p: Pair, names: set<Bytes>)
    requires Sized(hs) && Key(p) in names
    ensures Outside(SetTo(hs, p.name, p.value), names) == Outside(hs, names)
  {
    hide SetTo, Made, Key, Outside;
    var kept, e := Outside(hs, {Key(p)}), Made(p.name, p.value);
    SetToIs(hs, p);
    OutsideTwice(hs, {Key(p)}, names);
    assert {Key(p)} + names == names;
    OutsideAppend(kept, [e], names);
    OutsideSingle(p, names);
  }

  lemma SetToNamed(hs: seq<Header>, p: Pair, name: Bytes)
    requires Sized(hs)
    ensures var r := Named(SetTo(hs, p.name, p.value), name);
      if name == Key(p) then
        r == (if |Outside(hs, {name})| < 32 then [Made(p.name, p.value)] else [])
      else r == Named(hs, name)
  {
    hide SetTo, Named, Outside, Made, Key, CStr, Hash;
    var kept, e := Outside(hs, {Key(p)}), Made(p.name, p.value);
    SetToIs(hs, p);
    MadeIsCalled(p);
    NamedOutside(hs, {Key(p)}, name);
    NamedAppend(kept, e, name);
  }

  /** A name that was set occurs at most once, and only with the value it was set to last. */
  lemma {:induction false} SetAllNamed(hs: seq<Header>, sets: seq<Pair>, name: Bytes)
    requires Sized(hs)
    ensures var r := Named(SetAll(hs, sets), name);
      if name in Names(sets) then
        r == [] || r == [Made(LastValue(sets, name).name, LastValue(sets, name).value)]
      else r == Named(hs, name)
  {
    hide SetTo, Named, Made, Key;
    if |sets| > 0 {
      var n := |sets| - 1;
      SetAllSized(hs, sets[..n]);
      SetAllNamed(hs, sets[..n], name);
      SetToNamed(SetAll(hs, sets[..n]), sets[n], name);
    }
  }

  // ----- When everything fits -----

  /** If every pair was accepted, the table is what was not named, then the pairs in the order they were last set. */
  lemma {:induction false} SetAllShape(hs: seq<Header>, sets: seq<Pair>)
    requires Sized(hs) && Accepted(hs, sets)
    ensures SetAll(hs, sets) == Outside(hs, Names(sets)) + Last(sets)
  {
    hide SetTo, Outside, Made, Key, Without;
    if |sets| == 0 {
      OutsideNothing(hs);
    } else {
      var n := |sets| - 1;
      var t, p, m := SetAll(hs, sets[..n]), sets[n], Names(sets[..n]);
      SetAllShape(hs, sets[..n]);
      SetAllSized(hs, sets[..n]);
      SetToIs(t, p);
      RemovedKey(t, p);
      OutsideAppend(Outside(hs, m), Last(sets[..n]), {Key(p)});
      OutsideTwice(hs, m, {Key(p)});
      Associate(Outside(hs, m + {Key(p)}), Outside(Last(sets[..n]), {Key(p)}), [Made(p.name, p.value)]);
    }
  }

  lemma Associate(a: seq<Header>, b: seq<Header>, c: seq<Header>)
    ensures (a + b) + c == a + (b + c)
  {
  }

  lemma OutsideNothing(hs: seq<Header>)
    ensures Outside(hs, {}) == hs
  {
    OutsideIsAll(hs, {});
  }

  lemma {:induction false} LastSize(sets: seq<Pair>, names: set<Bytes>)
    ensures |Outside(Last(sets), names)| == |Names(sets) - names|
  {
    hide Outside, Key;
    if |sets| == 0 {
      OutsideEmpty(names);
    } else {
      var n := |sets| - 1;
      var p, before := sets[n], Names(sets[..n]);
      var kept := Outside(Last(sets[..n]), {Key(p)});
      LastSize(sets[..n], {Key(p)} + names);
      OutsideTwice(Last(sets[..n]), {Key(p)}, names);
      OutsideAppend(kept, [Made(p.name, p.value)], names);
      OutsideSingle(p, names);
      Counting(before, Key(p), names);
    }
  }

  lemma OutsideEmpty(names: set<Bytes>)
    ensures Outside([], names) == []
  {
  }

  lemma OutsideSingle(p: Pair, names: set<Bytes>)
    ensures |Outside([Made(p.name, p.value)], names)| == if Key(p) in names then 0 else 1
    ensures Outside([Made(p.name, p.value)], names) == if Key(p) in names then [] else [Made(p.name, p.value)]
  {
    hide Called, Made, Key;
    MadeIsCalled(p);
  }

  lemma Counting(m: set<Bytes>, k: Bytes, names: set<Bytes>)
    ensures |(m + {k}) - names| == |m - ({k} + names)| + if k in names then 0 else 1
  {
    if k in names {
      assert (m + {k}) - names == m - ({k} + names);
    } else {
      assert (m + {k}) - names == (m - ({k} + names)) + {k};
    }
  }

  /** One more pair fits exactly when the entries of other names, plus one for each name set so far, fit. */
  lemma AcceptedOneMore(hs: seq<Header>, sets: seq<Pair>)
    requires Sized(hs) && |sets| > 0
    ensures Accepted(hs, sets) <==>
      && Accepted(hs, sets[..|sets| - 1])
      && |Outside(hs, Names(sets))| + |Names(sets)| <= 32
  {
    hide SetTo, Outside, Made, Key, Without, Last;
    var n := |sets| - 1;
    if Accepted(hs, sets[..n]) {
      var t, p, m := SetAll(hs, sets[..n]), sets[n], Names(sets[..n]);
      SetAllShape(hs, sets[..n]);
      SetAllSized(hs, sets[..n]);
      RemovedKey(t, p);
      OutsideAppend(Outside(hs, m), Last(sets[..n]), {Key(p)});
      OutsideTwice(hs, m, {Key(p)});
      LastSize(sets[..n], {Key(p)});
      assert |Names(sets)| == |m - {Key(p)}| + 1 by {
        assert Names(sets) == (m - {Key(p)}) + {Key(p)};
      }
    }
  }

  /** The exact capacity condition for a whole sequence of set operations. */
  lemma {:induction false} AcceptedIff(hs: seq<Header>, sets: seq<Pair>)
    requires Sized(hs)
    ensures Accepted(hs, sets) <==>
      forall i | 1 <= i <= |sets| :: |Outside(hs, Names(sets[..i]))| + |Names(sets[..i])| <= 32
  {
    hide Outside, Names, Accepted;
    if |sets| == 0 {
      AcceptedNone(hs);
    } else {
      var n := |sets| - 1;
      AcceptedIff(hs, sets[..n]);
      AcceptedOneMore(hs, sets);
      assert forall i | 1 <= i <= n :: sets[..n][..i] == sets[..i];
      assert sets[..|sets|] == sets;
    }
  }

  lemma AcceptedNone(hs: seq<Header>)
    ensures Accepted(hs, [])
  {
  }

  /** Names that are all in the table take up at least one entry each. */
  lemma {:induction false} PresentNamesTakeRoom(hs: seq<Header>, names: set<Bytes>)
    requires forall n | n in names :: Named(hs, n) != []
    ensures |Outside(hs, names)| + |names| <= |hs|
    decreases |names|
  {
    hide Named, Outside;
    if names != {} {
      var n :| n in names;
      PresentNamesTakeRoom(hs, names - {n});
      OutsideCount(hs, names - {n}, n);
      assert names - {n} + {n} == names;
    }
  }

  ghost predicate Distinct(sets: seq<Pair>) {
    forall i, j | 0 <= i < j < |sets| :: Key(sets[i]) != Key(sets[j])
  }

  ghost predicate AllThere(hs: seq<Header>, sets: seq<Pair>) {
    forall i | 0 <= i < |sets| :: Named(hs, Key(sets[i])) == [Made(sets[i].name, sets[i].value)]
  }

  /** For pairwise different names: all were accepted exactly when all are in the table at the end. */
  lemma {:induction false} AcceptedIffAllThere(hs: seq<Header>, sets: seq<Pair>)
    requires Sized(hs) && Distinct(sets)
    ensures Accepted(hs, sets) <==> AllThere(SetAll(hs, sets), sets)
  {
    hide Outside, Named, Key, Made, SetTo, Without;
    if |sets| > 0 {
      var n := |sets| - 1;
      var t, p := SetAll(hs, sets[..n]), sets[n];
      SetAllSized(hs, sets[..n]);
      AcceptedIffAllThere(hs, sets[..n]);
      RemovedKey(t, p);
      forall i | 0 <= i < n
        ensures Named(SetAll(hs, sets), Key(sets[i])) == Named(t, Key(sets[i])) && sets[..n][i] == sets[i]
      {
        SetToNamed(t, p, Key(sets[i]));
      }
      SetToNamed(t, p, Key(p));
    }
  }

  /** For pairwise different names the entries left behind are the pairs themselves, in order. */
  lemma {:induction false} LastDistinct(sets: seq<Pair>)
    requires Distinct(sets)
    ensures |Last(sets)| == |sets|
    ensures forall i | 0 <= i < |sets| :: Last(sets)[i] == Made(sets[i].name, sets[i].value)
  {
    hide Key, Made, Outside, Called, CStr;
    if |sets| > 0 {
      var n := |sets| - 1;
      LastDistinct(sets[..n]);
      var before, p := Last(sets[..n]), sets[n];
      forall e | e in before ensures !Dropped(e, {Key(p)}) {
        var i :| 0 <= i < n && before[i] == e;
        MadeIsCalled(sets[i]);
      }
      OutsideIsAll(before, {Key(p)});
    }
  }

  // ----- Lookups by hash -----

  ghost predicate OtherHash(names: set<Bytes>, name: CString) {
    forall n | n in names :: Hash(n) != Hash(Lowered(name))
  }

  lemma {:induction false} TagIndexAppend(hs: seq<Header>, e: Header, name: CString)
    ensures TagIndex(hs + [e], name)
         == if TagIndex(hs, name) != -1 then TagIndex(hs, name)
            else if e.hash == Hash(Lowered(name)) then |hs| else -1
  {
    hide Hash;
    if |hs| > 0 {
      TagIndexAppend(hs[1..], e, name);
      assert (hs + [e])[1..] == hs[1..] + [e];
    }
  }

  lemma {:induction false} GetOutside(hs: seq<Header>, names: set<Bytes>, name: CString)
    requires OtherHash(names, name)
    ensures Get(Outside(hs, names), name) == Get(hs, name)
  {
    hide Hash, TagIndex, CStr;
    if |hs| > 0 {
      var front, e := hs[..|hs| - 1], hs[|hs| - 1];
      GetOutside(front, names, name);
      TagIndexAppend(front, e, name);
      TagIndexAppend(Outside(front, names), e, name);
      assert hs == front + [e];
    }
  }

  /** Setting names of another hash does not change what a lookup finds. */
  lemma {:induction false} GetAfterSets(hs: seq<Header>, sets: seq<Pair>, name: CString)
    requires Sized(hs) && OtherHash(Names(sets), name)
    ensures Get(SetAll(hs, sets), name) == Get(hs, name)
  {
    hide Hash, TagIndex, SetTo, Outside;
    if |sets| > 0 {
      var n := |sets| - 1;
      var t, p := SetAll(hs, sets[..n]), sets[n];
      SetAllSized(hs, sets[..n]);
      GetAfterSets(hs, sets[..n], name);
      SetToIs(t, p);
      GetOutside(t, {Key(p)}, name);
      TagIndexAppend(Outside(t, {Key(p)}), Made(p.name, p.value), name);
    }
  }
}
