/** The ordered header table: names lower-cased and tagged with their hash, at most 32 entries. */
module HeaderTable {
  import opened Bytes
  import opened Fnv
  import opened Options

  const HEADER_MAX: nat := 32

  datatype Header = Header(hash: bv32, name: Bytes, value: Bytes)

  function Made(name: Bytes, value: Bytes): Header {
    Header(Hash(Lowered(name)), Lowered(name), value)
  }

  function Add(hs: seq<Header>, name: Bytes, value: Bytes): seq<Header> {
    if |hs| >= HEADER_MAX then hs else hs + [Made(name, value)]
  }

  /** The first entry whose hash is the wanted one, -1 if there is none; the names are not compared. */
  function TagIndex(hs: seq<Header>, name: CString): (i: int)
    ensures -1 <= i < |hs|
  {
    if |hs| == 0 then -1
    else if hs[0].hash == Hash(Lowered(name)) then 0
    else
      var i := TagIndex(hs[1..], name);
      if i == -1 then -1 else i + 1
  }

  function Get(hs: seq<Header>, name: CString): Option<Bytes> {
    var i := TagIndex(hs, name);
    if i == -1 then None else Some(hs[i].value)
  }

  /** What a caller reads of a value it was given as a C string. */
  function AsString(v: Option<Bytes>): Option<Bytes> {
    match v
    case None => None
    case Some(b) => var s: Bytes := CStr(b); Some(s)
  }

  /** The entry goes by this (lower-case) name: its hash is that of the name, its stored name reads so as a C string. */
  predicate Called(e: Header, lower: Bytes) {
    e.hash == Hash(lower) && CStr(e.name) == lower
  }

  /** What a removal looks at. */
  predicate Matches(e: Header, name: CString) {
    Called(e, Lowered(name))
  }

  function Without(hs: seq<Header>, name: CString): (r: seq<Header>)
    ensures |r| <= |hs|
  {
    if |hs| == 0 then []
    else
      var r := Without(hs[..|hs| - 1], name);
      if Matches(hs[|hs| - 1], name) then r else r + [hs[|hs| - 1]]
  }

  function SetTo(hs: seq<Header>, name: CString, value: CString): seq<Header> {
    Add(Without(hs, name), name, value)
  }

  /** The first entry of that name, whatever its letter case; -1 if there is none. */
  function NameIndex(hs: seq<Header>, name: CString): (i: int)
    ensures -1 <= i < |hs|
  {
    if |hs| == 0 then -1
    else if hs[0].name == Lowered(name) then 0
    else
      var i := NameIndex(hs[1..], name);
      if i == -1 then -1 else i + 1
  }

  function Lookup(hs: seq<Header>, name: CString): Option<Bytes> {
    var i := NameIndex(hs, name);
    if i == -1 then None else Some(hs[i].value)
  }

  /** The entries that do not have this (lower-case) name, in their order. */
  function Others(hs: seq<Header>, lower: Bytes): (r: seq<Header>)
    ensures |r| <= |hs|
  {
    if |hs| == 0 then []
    else
      var r := Others(hs[..|hs| - 1], lower);
      if hs[|hs| - 1].name == lower then r else r + [hs[|hs| - 1]]
  }

  ghost predicate Tagged(hs: seq<Header>) {
    forall e | e in hs :: e.hash == Hash(e.name) && e.name == Lowered(e.name)
  }

  /** The entry has the hash of the name but is not called that. */
  ghost predicate Collides(e: Header, name: CString) {
    e.hash == Hash(Lowered(name)) && e.name != Lowered(name)
  }

  ghost predicate Clear(hs: seq<Header>, name: CString) {
    forall e | e in hs :: !Collides(e, name)
  }

  ghost predicate NulFree(hs: seq<Header>) {
    forall e | e in hs :: NUL !in e.name && NUL !in e.value
  }

  // ----- The table as the program updates it -----

  class Table {
    const headers: array<Header>
    var count: nat

    ghost predicate Valid()
      reads this, headers
    {
      headers.Length == HEADER_MAX && count <= HEADER_MAX && Tagged(headers[..count])
    }

    ghost function Contents(): (hs: seq<Header>)
      requires Valid()
      reads this, headers
      ensures Tagged(hs) && |hs| <= HEADER_MAX
    {
      headers[..count]
    }

    constructor ()
      ensures Valid() && fresh(headers)
      ensures Contents() == []
    {
      headers := new Header[HEADER_MAX](_ => Header(0, [], []));
      count := 0;
    }

    static method NormalizeLower(s: Bytes) returns (p: Bytes)
      ensures p == Lowered(s)
    {
      p := [];
      for i := 0 to |s|
        invariant |p| == i
        invariant forall k | 0 <= k < i :: p[k] == Lower(s[k])
      {
        p := p + [Lower(s[i])];
      }
    }

    method AddHeader(name: Bytes, value: Bytes) returns (ok: bool)
      requires Valid()
      modifies this`count, headers
      ensures Valid()
      ensures Contents() == Add(old(Contents()), name, value)
      ensures ok == (old(count) < HEADER_MAX)
    {
      if count >= HEADER_MAX {
        return false;
      }
      var n := NormalizeLower(name);
      var h := HashFnv1a(n);
      LoweredTwice(name);
      headers[count] := Header(h, n, value);
      count := count + 1;
      assert headers[..count] == old(headers[..count]) + [Made(name, value)];
      return true;
    }

    method GetValue(name: CString) returns (v: Option<Bytes>)
      requires Valid()
      ensures v == Get(Contents(), name)
    {
      var lower := NormalizeLower(name);
      var target := HashFnv1a(lower);
      for i := 0 to count
        invariant TagIndex(headers[..count], name)
               == (var k := TagIndex(headers[i..count], name); if k == -1 then -1 else i + k)
      {
        if headers[i].hash == target {
          return Some(headers[i].value);
        }
        assert headers[i..count][1..] == headers[i + 1..count];
      }
      return None;
    }

    /** Drops entry i by shifting the entries after it one place down. */
    method DropAt(i: nat)
      requires headers.Length == HEADER_MAX && i < count <= HEADER_MAX
      modifies this`count, headers
      ensures count == old(count) - 1
      ensures headers[..count] == old(headers[..count])[..i] + old(headers[..count])[i + 1..]
    {
      for j := i to count - 1
        invariant count == old(count)
        invariant forall k | 0 <= k < i :: headers[k] == old(headers[k])
        invariant forall k | i <= k < j :: headers[k] == old(headers[k + 1])
        invariant forall k | j <= k < count :: headers[k] == old(headers[k])
      {
        headers[j] := headers[j + 1];
      }
      count := count - 1;
    }

    method Remove(name: CString)
      requires Valid()
      modifies this`count, headers
      ensures Valid()
      ensures Contents() == Without(old(Contents()), name)
    {
      hide Hash, CStr, Tagged, Without;
      var lower := NormalizeLower(name);
      var target := HashFnv1a(lower);
      ghost var was, kept, rest := headers[..count], [], headers[..count];
      WithoutKeepsTags(was, name);
      WithoutEmpty(name);
      var i := 0;
      while i < count
        invariant count <= HEADER_MAX && i == |kept|
        invariant headers[..count] == kept + rest
        invariant kept + Without(rest, name) == Without(was, name)
        decreases count - i
      {
        assert headers[i] == headers[..count][i] == rest[0];
        CutAfter(kept, rest, name);
        if headers[i].hash == target && CStr(headers[i].name) == lower {
          DropAt(i);
        } else {
          kept := kept + [rest[0]];
          i := i + 1;
        }
        rest := rest[1..];
      }
      assert rest == [];
    }

    method Set(name: CString, value: CString) returns (ok: bool)
      requires Valid()
      modifies this`count, headers
      ensures Valid()
      ensures Contents() == SetTo(old(Contents()), name, value)
      ensures ok == (|Without(old(Contents()), name)| < HEADER_MAX)
    {
      Remove(name);
      ok := AddHeader(name, value);
    }
  }

  // ----- What the operations mean -----

  lemma WithoutEmpty(name: CString)
    ensures Without([], name) == []
  {
  }

  lemma {:induction false} WithoutFront(hs: seq<Header>, name: CString)
    requires |hs| > 0
    ensures Without(hs, name) == (if Matches(hs[0], name) then [] else [hs[0]]) + Without(hs[1..], name)
  {
    hide Matches;
    var n := |hs| - 1;
    if n > 0 {
      WithoutFront(hs[..n], name);
      assert hs[..n][1..] == hs[1..][..n - 1];
    }
  }

  /** Moving past the first of the rest, whether it is dropped or kept. */
  lemma CutAfter(kept: seq<Header>, rest: seq<Header>, name: CString)
    requires |rest| > 0
    ensures (kept + rest)[..|kept|] + (kept + rest)[|kept| + 1..] == kept + rest[1..]
    ensures kept + rest == (kept + [rest[0]]) + rest[1..]
    ensures kept + Without(rest, name)
         == (if Matches(rest[0], name) then kept else kept + [rest[0]]) + Without(rest[1..], name)
  {
    hide Matches, Without;
    WithoutFront(rest, name);
    assert kept + ([rest[0]] + Without(rest[1..], name)) == (kept + [rest[0]]) + Without(rest[1..], name);
  }

  lemma {:induction false} WithoutKeepsTags(hs: seq<Header>, name: CString)
    requires Tagged(hs)
    ensures Tagged(Without(hs, name))
    ensures forall e | e in Without(hs, name) :: e in hs && !Matches(e, name)
  {
    if |hs| > 0 {
      WithoutKeepsTags(hs[..|hs| - 1], name);
    }
  }

  lemma {:induction false} TagIndexIsFirst(hs: seq<Header>, name: CString)
    ensures var i := TagIndex(hs, name);
      && (i >= 0 ==> hs[i].hash == Hash(Lowered(name)))
      && forall k | 0 <= k < if i == -1 then |hs| else i :: hs[k].hash != Hash(Lowered(name))
  {
    hide Hash;
    if |hs| > 0 && hs[0].hash != Hash(Lowered(name)) {
      TagIndexIsFirst(hs[1..], name);
      assert forall k | 1 <= k < |hs| :: hs[k] == hs[1..][k - 1];
    }
  }

  lemma {:induction false} NameIndexIsFirst(hs: seq<Header>, name: CString)
    ensures var i := NameIndex(hs, name);
      && (i >= 0 ==> hs[i].name == Lowered(name))
      && forall k | 0 <= k < if i == -1 then |hs| else i :: hs[k].name != Lowered(name)
  {
    if |hs| > 0 && hs[0].name != Lowered(name) {
      NameIndexIsFirst(hs[1..], name);
      assert forall k | 1 <= k < |hs| :: hs[k] == hs[1..][k - 1];
    }
  }

  /** A lookup by hash finds the entry a lookup by name would, exactly when no colliding entry comes before it. */
  lemma GetIsLookupIff(hs: seq<Header>, name: CString)
    requires Tagged(hs)
    ensures TagIndex(hs, name) == NameIndex(hs, name) <==>
      forall k | 0 <= k < |hs| && Collides(hs[k], name) :: 0 <= NameIndex(hs, name) < k
  {
    hide Hash;
    TagIndexIsFirst(hs, name);
    NameIndexIsFirst(hs, name);
    var i, j := TagIndex(hs, name), NameIndex(hs, name);
    if j >= 0 {
      assert hs[j] in hs;
    }
    if i >= 0 && i != j {
      assert Collides(hs[i], name);
    }
  }

  lemma GetIsLookup(hs: seq<Header>, name: CString)
    requires Tagged(hs) && Clear(hs, name)
    ensures Get(hs, name) == Lookup(hs, name)
  {
    hide Hash;
    GetIsLookupIff(hs, name);
  }

  /** The hypothesis is needed: a table with one header answers for a name it does not hold. */
  lemma GetConfusesCollidingNames(v: Bytes)
    ensures var hs := [Made(COSTARRI + NG, v)];
      Tagged(hs) && Lookup(hs, LIQUID) == None && Get(hs, LIQUID) == Some(v)
  {
    hide Hash;
    CollidingNames();
    assert Lowered(COSTARRI + NG) == COSTARRI + NG && Lowered(LIQUID) == LIQUID;
  }

  ghost predicate OneByteApart(s: Bytes, t: Bytes) {
    && |s| == |t|
    && exists i: nat ::
      && i < |s| && s[i] != t[i]
      && forall j | 0 <= j < |s| && j != i :: s[j] == t[j]
  }

  /** Names of one length that differ from the wanted one in a single byte are never confused with it. */
  lemma NeighboursAreClear(hs: seq<Header>, name: CString)
    requires Tagged(hs)
    requires forall e | e in hs && e.name != Lowered(name) :: OneByteApart(e.name, Lowered(name))
    ensures Get(hs, name) == Lookup(hs, name)
  {
    hide Hash;
    forall e | e in hs ensures !Collides(e, name) {
      if e.name != Lowered(name) {
        var i: nat :| i < |name| && e.name[i] != Lowered(name)[i]
          && forall j | 0 <= j < |name| && j != i :: e.name[j] == Lowered(name)[j];
        OneByteNeverCollides(e.name, Lowered(name), i);
      }
    }
    GetIsLookup(hs, name);
  }

  lemma {:induction false} OthersMembers(hs: seq<Header>, lower: Bytes, e: Header)
    ensures e in Others(hs, lower) <==> e in hs && e.name != lower
  {
    if |hs| > 0 {
      OthersMembers(hs[..|hs| - 1], lower, e);
      assert hs == hs[..|hs| - 1] + [hs[|hs| - 1]];
    }
  }

  /** The name goes on behind a NUL, and yet the hash of the whole is the hash of the front. */
  ghost predicate Disguised(e: Header, name: CString) {
    Matches(e, name) && e.name != Lowered(name)
  }

  lemma {:induction false} RemoveIsFilter(hs: seq<Header>, name: CString)
    requires Tagged(hs) && forall e | e in hs :: !Disguised(e, name)
    ensures Without(hs, name) == Others(hs, Lowered(name))
  {
    hide Hash, CStr;
    if |hs| > 0 {
      var e := hs[|hs| - 1];
      assert e in hs;
      CStrOfLowered(name);
      RemoveIsFilter(hs[..|hs| - 1], name);
    }
  }

  lemma CStrOfLowered(name: CString)
    ensures CStr(Lowered(name)) == Lowered(name)
  {
  }

  /**
   Removal is the order-preserving filter on the lower-case name, exactly when no entry has a name that goes on behind
   a NUL and collides with its own front. Other collisions cannot make it drop anything else.
   */
  lemma RemoveIsFilterIff(hs: seq<Header>, name: CString)
    requires Tagged(hs)
    ensures Without(hs, name) == Others(hs, Lowered(name)) <==> forall e | e in hs :: !Disguised(e, name)
  {
    hide Hash, CStr, Without, Others, Matches, Lowered;
    if forall e | e in hs :: !Disguised(e, name) {
      RemoveIsFilter(hs, name);
    } else {
      var e :| e in hs && Disguised(e, name);
      OthersMembers(hs, Lowered(name), e);
      WithoutKeepsTags(hs, name);
    }
  }

  lemma {:induction false} WithoutSame(hs: seq<Header>, name: CString)
    ensures |Without(hs, name)| == |hs| <==> Without(hs, name) == hs
    ensures Without(hs, name) == hs <==> forall e | e in hs :: !Matches(e, name)
  {
    hide Matches;
    if |hs| > 0 {
      var n := |hs| - 1;
      WithoutSame(hs[..n], name);
      assert hs == hs[..n] + [hs[n]];
    }
  }

  /** Setting is all or nothing: the pair replaces every entry of that name, or the full table is left alone. */
  lemma SetIsAllOrNothing(hs: seq<Header>, name: CString, value: CString)
    requires |hs| <= 32
    ensures |Without(hs, name)| < 32 ==> SetTo(hs, name, value) == Without(hs, name) + [Made(name, value)]
    ensures |Without(hs, name)| >= 32 ==>
      SetTo(hs, name, value) == hs && forall e | e in hs :: !Matches(e, name)
  {
    hide Matches, Made;
    WithoutSame(hs, name);
  }
}
