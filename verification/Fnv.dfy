/** The 32-bit FNV-1a hash that tags header names. */
module Fnv {
  import opened Bytes

  const OFFSET: bv32 := 2166136261

  function TimesPrime(h: bv32): bv32 {
    h * 16777619
  }

  function Mix(h: bv32, c: Byte): bv32 {
    TimesPrime(h ^ (c as bv32))
  }

  /** The running state after hashing s from state h. */
  function Fold(h: bv32, s: Bytes): bv32 {
    if |s| == 0 then h else Mix(Fold(h, s[..|s| - 1]), s[|s| - 1])
  }

  function Hash(s: Bytes): bv32 {
    Fold(OFFSET, s)
  }

  method HashFnv1a(s: Bytes) returns (h: bv32)
    ensures h == Hash(s)
  {
    hide TimesPrime;
    h := OFFSET;
    for i := 0 to |s|
      invariant h == Fold(OFFSET, s[..i])
    {
      assert s[..i + 1][..i] == s[..i];
      h := h ^ (s[i] as bv32);
      h := TimesPrime(h);
    }
    assert s[..|s|] == s;
  }

  // ----- Each step can be undone -----

  /** The inverse of the prime modulo 2^32. */
  function OverPrime(h: bv32): bv32 {
    h * 899433627
  }

  lemma ProductUndone(h: bv32)
    ensures OverPrime(h * 16777619) == h
  {
  }

  lemma TimesPrimeUndone(h: bv32)
    ensures OverPrime(TimesPrime(h)) == h
  {
    hide OverPrime;
    ProductUndone(h);
  }

  lemma TimesPrimeInjective(g: bv32, h: bv32)
    requires TimesPrime(g) == TimesPrime(h)
    ensures g == h
  {
    hide TimesPrime, OverPrime;
    TimesPrimeUndone(g);
    TimesPrimeUndone(h);
  }

  lemma XorRight(g: bv32, b: Byte, c: Byte)
    requires g ^ (b as bv32) == g ^ (c as bv32)
    ensures b == c
  {
  }

  /** The same byte mixed into two states: equal results mean equal states. */
  lemma MixInState(g: bv32, h: bv32, c: Byte)
    requires Mix(g, c) == Mix(h, c)
    ensures g == h
  {
    hide TimesPrime;
    TimesPrimeInjective(g ^ (c as bv32), h ^ (c as bv32));
  }

  /** Two bytes mixed into the same state: equal results mean equal bytes. */
  lemma MixInByte(g: bv32, b: Byte, c: Byte)
    requires Mix(g, b) == Mix(g, c)
    ensures b == c
  {
    hide TimesPrime;
    TimesPrimeInjective(g ^ (b as bv32), g ^ (c as bv32));
    XorRight(g, b, c);
  }

  /** For a fixed suffix the hash is injective in the state it starts from. */
  lemma {:induction false} SuffixInjective(g: bv32, h: bv32, s: Bytes)
    requires Fold(g, s) == Fold(h, s)
    ensures g == h
  {
    hide Mix;
    if |s| > 0 {
      var n := |s| - 1;
      MixInState(Fold(g, s[..n]), Fold(h, s[..n]), s[n]);
      SuffixInjective(g, h, s[..n]);
    }
  }

  lemma {:induction false} FoldAppend(h: bv32, a: Bytes, b: Bytes)
    ensures Fold(h, a + b) == Fold(Fold(h, a), b)
  {
    hide Mix;
    if |b| == 0 {
      assert a + b == a;
    } else {
      var n := |b| - 1;
      FoldAppend(h, a, b[..n]);
      assert (a + b)[..|a + b| - 1] == a + b[..n];
    }
  }

  /** Two names of one length that differ in exactly one byte never collide. */
  lemma OneByteNeverCollides(s: Bytes, t: Bytes, i: nat)
    requires |s| == |t| && i < |s| && s[i] != t[i]
    requires forall j | 0 <= j < |s| && j != i :: s[j] == t[j]
    ensures Hash(s) != Hash(t)
  {
    hide Mix;
    var a, z := s[..i], s[i + 1..];
    var b, c := [s[i]], [t[i]];
    assert s == a + b + z && t == a + c + z;
    FoldAppend(OFFSET, a + b, z);
    FoldAppend(OFFSET, a + c, z);
    FoldAppend(OFFSET, a, b);
    FoldAppend(OFFSET, a, c);
    if Hash(s) == Hash(t) {
      SuffixInjective(Fold(OFFSET, a + b), Fold(OFFSET, a + c), z);
      var h := Fold(OFFSET, a);
      assert Fold(h, b) == Mix(h, s[i]) && Fold(h, c) == Mix(h, t[i]);
      MixInByte(h, s[i], t[i]);
    }
  }

  // ----- Hashes of fixed names -----

  /** The same state, computed from the front. */
  function From(h: bv32, s: Bytes): bv32
    decreases |s|
  {
    if |s| == 0 then h else From(Mix(h, s[0]), s[1..])
  }

  lemma {:induction false} FromIsFold(h: bv32, s: Bytes)
    ensures From(h, s) == Fold(h, s)
    decreases |s|
  {
    hide TimesPrime;
    if |s| > 0 {
      assert s == s[..1] + s[1..];
      FoldAppend(h, s[..1], s[1..]);
      assert Fold(h, s[..1]) == Mix(h, s[0]);
      FromIsFold(Mix(h, s[0]), s[1..]);
    }
  }

  lemma HashOfParts(a: Bytes, b: Bytes, g: bv32)
    requires From(OFFSET, a) == g
    ensures Hash(a + b) == From(g, b)
  {
    hide Mix;
    FoldAppend(OFFSET, a, b);
    FromIsFold(OFFSET, a);
    FromIsFold(g, b);
  }

  // "costarring" and "liquid", two lower-case names with one hash.
  const COSTARRI: CString := [0x63, 0x6f, 0x73, 0x74, 0x61, 0x72, 0x72, 0x69]
  const NG: CString := [0x6e, 0x67]
  const LIQUID: CString := [0x6c, 0x69, 0x71, 0x75, 0x69, 0x64]

  lemma CollidingNames()
    ensures COSTARRI + NG != LIQUID
    ensures Hash(COSTARRI + NG) == Hash(LIQUID) == 0x5e4daa9d
  {
    assert From(OFFSET, COSTARRI) == 0x572c7996;
    HashOfParts(COSTARRI, NG, 0x572c7996);
    assert From(0x572c7996, NG) == 0x5e4daa9d;
    HashOfParts([], LIQUID, OFFSET);
    assert [] + LIQUID == LIQUID;
    assert From(OFFSET, LIQUID) == 0x5e4daa9d;
  }

  /** Published values: the hashes of nothing, of "a" and of "foobar". */
  lemma PublishedValues()
    ensures Hash([]) == 0x811c9dc5 && Hash([0x61]) == 0xe40c292c
    ensures Hash([0x66, 0x6f, 0x6f, 0x62, 0x61, 0x72]) == 0xbf9cf968
  {
    var a: Bytes, foobar: Bytes := [0x61], [0x66, 0x6f, 0x6f, 0x62, 0x61, 0x72];
    HashOfParts([], a, OFFSET);
    HashOfParts([], foobar, OFFSET);
    assert [] + a == a && [] + foobar == foobar;
    assert From(OFFSET, a) == 0xe40c292c;
    assert From(OFFSET, foobar) == 0xbf9cf968;
  }
}
