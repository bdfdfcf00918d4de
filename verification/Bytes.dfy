/** Bytes, C strings and the few string functions of the C library the gateway relies on. */
module Bytes {
  type Byte = bv8
  type Bytes = seq<Byte>

  const NUL: Byte := 0x00
  const TAB: Byte := 0x09
  const LF: Byte := 0x0a
  const CR: Byte := 0x0d
  const SP: Byte := 0x20
  const COLON: Byte := 0x3a

  /** What a `const char *` argument denotes: the bytes before the terminator. */
  type CString = s: Bytes | NUL !in s

  /** The position of the first c in s, -1 if there is none (strchr, memchr). */
  function IndexOf(s: Bytes, c: Byte): (i: int)
    ensures -1 <= i < |s|
    ensures i >= 0 ==> s[i] == c && c !in s[..i]
    ensures i == -1 <==> c !in s
  {
    if |s| == 0 then -1
    else if s[0] == c then 0
    else
      var i := IndexOf(s[1..], c);
      if i == -1 then -1 else
      assert s[..i + 1] == [s[0]] + s[1..][..i];
      i + 1
  }

  /** The C string that starts a buffer. */
  function CStr(s: Bytes): (r: CString)
    ensures r <= s
    ensures NUL !in s ==> r == s
  {
    var i := IndexOf(s, NUL);
    if i == -1 then s else s[..i]
  }

  lemma {:induction false} IndexOfAt(a: Bytes, c: Byte, b: Bytes)
    requires c !in a
    ensures IndexOf(a + [c] + b, c) == |a|
  {
    var s := a + [c] + b;
    if a == [] {
      assert s == [c] + b;
    } else {
      IndexOfAt(a[1..], c, b);
      assert s[1..] == a[1..] + [c] + b;
    }
  }

  /** tolower in the C locale. */
  function Lower(c: Byte): Byte {
    if 0x41 <= c <= 0x5a then c + 0x20 else c
  }

  function Lowered(s: Bytes): (r: Bytes)
    ensures |r| == |s|
    ensures forall i | 0 <= i < |s| :: r[i] == Lower(s[i])
    ensures NUL !in s ==> NUL !in r
  {
    seq(|s|, i requires 0 <= i < |s| => Lower(s[i]))
  }

  lemma LoweredTwice(s: Bytes)
    ensures Lowered(Lowered(s)) == Lowered(s)
  {
  }

  /** The same byte, or the two cases of one letter of the English alphabet. */
  ghost predicate SameLetter(a: Byte, b: Byte) {
    a == b || (0x41 <= a <= 0x5a && b as int == a as int + 0x20) || (0x41 <= b <= 0x5a && a as int == b as int + 0x20)
  }

  lemma LowerIs(c: Byte)
    ensures Lower(c) as int == if 0x41 <= c <= 0x5a then c as int + 0x20 else c as int
  {
  }

  lemma SameLetterIff(a: Byte, b: Byte)
    ensures Lower(a) == Lower(b) <==> SameLetter(a, b)
  {
    hide Lower;
    LowerIs(a);
    LowerIs(b);
  }

  /** Two names are equal in lower case exactly when they are equal but for the case of letters. */
  lemma LoweredSameIff(s: Bytes, t: Bytes)
    ensures Lowered(s) == Lowered(t) <==> |s| == |t| && forall i | 0 <= i < |s| :: SameLetter(s[i], t[i])
  {
    hide Lower, SameLetter, Lowered;
    if |s| == |t| {
      forall i | 0 <= i < |s| ensures Lowered(s)[i] == Lowered(t)[i] <==> SameLetter(s[i], t[i]) {
        SameLetterIff(s[i], t[i]);
      }
    }
  }

  /** The first n - 1 bytes, which is what a bounded copy into a buffer of n bytes keeps. */
  function Truncated(s: Bytes, n: nat): Bytes
    requires n > 0
  {
    if |s| < n then s else s[..n - 1]
  }
}
