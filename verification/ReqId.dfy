/** The request identifier: a 64-bit number written in base 36, right-aligned in a buffer. */
module ReqId {
  import opened Bytes
  import opened Division

  const TWO_32: nat := 0x1_0000_0000

  /** (timestamp << 32) | random in 64 bits. */
  function Id(timestamp: nat, random: nat): nat {
    (timestamp % TWO_32) * TWO_32 + random
  }

  /** '0' .. '9', 'a' .. 'z' */
  function Digit(d: nat): (c: Byte)
    requires d < 36
  {
    if d < 10 then (0x30 + d) as Byte else (0x57 + d) as Byte
  }

  function DigitValue(c: Byte): int {
    if c <= 0x39 then (c as int) - 0x30 else (c as int) - 0x57
  }

  lemma DigitBack(d: nat)
    requires d < 36
    ensures DigitValue(Digit(d)) == d
    ensures Digit(d) != NUL
  {
    var n := if d < 10 then 0x30 + d else 0x57 + d;
    assert ((n as Byte) as int) == n;
  }

  /** The last `room` base-36 digits of id, at least one and without leading zeros unless cut. */
  function Encoded(id: nat, room: nat): (s: Bytes)
    requires room > 0
    ensures 1 <= |s| <= room
  {
    if id < 36 || room == 1 then [Digit(id % 36)] else Encoded(id / 36, room - 1) + [Digit(id % 36)]
  }

  function Decoded(s: Bytes): int {
    if |s| == 0 then 0 else 36 * Decoded(s[..|s| - 1]) + DigitValue(s[|s| - 1])
  }

  function Pow36(n: nat): (p: nat)
    ensures p > 0
  {
    if n == 0 then 1 else 36 * Pow36(n - 1)
  }

  /** One more digit in front of those written so far. */
  lemma Prepend(was: Bytes, p: nat, c: Byte, digits: Bytes)
    requires p < |was|
    ensures (was[..p + 1] + digits + [NUL])[p := c] == was[..p] + ([c] + digits) + [NUL]
  {
  }

  /** What is still to be written when id is left and p + 1 places are free. */
  ghost function Rest(id: nat, p: int): Bytes {
    if id > 0 && p >= 0 then Encoded(id, p + 1) else []
  }

  lemma OneDigit(id: nat, p: nat)
    ensures Encoded(id, p + 1) == Rest(id / 36, p - 1) + [Digit(id % 36)]
  {
    hide Digit;
    assert id < 36 ==> id / 36 == 0;
    assert id >= 36 ==> id / 36 > 0;
  }

  /**
   Writes the digits of the id from the end of buf backwards; `start` is where the string begins.
   The program needs room for one digit and the terminator.
   */
  method GenerateReqId(buf: array<Byte>, timestamp: nat, random: nat) returns (start: nat)
    requires buf.Length >= 2 && random < TWO_32
    modifies buf
    ensures start < buf.Length - 1
    ensures buf[..] == old(buf[..start]) + Encoded(Id(timestamp, random), buf.Length - 1) + [NUL]
  {
    hide Digit, Encoded, Rest;
    var id := Id(timestamp, random);
    var p := buf.Length - 1;
    ghost var was, goal, digits: Bytes := buf[..], Encoded(id, p), [];
    buf[p] := NUL;
    p := p - 1;
    assert buf[..] == was[..p + 1] + digits + [NUL];
    OneDigit(id, p);
    id, p, digits := WriteDigit(buf, id, p, was, digits);
    while id > 0 && p >= 0
      invariant -1 <= p < buf.Length - 2 == |was| - 2
      invariant buf[..] == was[..p + 1] + digits + [NUL]
      invariant goal == Rest(id, p) + digits
      decreases p
    {
      RestIs(id, p);
      OneDigit(id, p);
      Associate(Rest(id / 36, p - 1), Digit(id % 36), digits);
      id, p, digits := WriteDigit(buf, id, p, was, digits);
    }
    RestIs(id, p);
    start := p + 1;
  }

  /** The body of the loop: the last digit of id goes to place p. */
  method WriteDigit(buf: array<Byte>, id: nat, p: nat, ghost was: Bytes, ghost digits: Bytes)
    returns (id': nat, p': int, ghost digits': Bytes)
    requires p + 1 < buf.Length == |was|
    requires buf[..] == was[..p + 1] + digits + [NUL]
    modifies buf
    ensures id' == id / 36 && p' == p - 1 && digits' == [Digit(id % 36)] + digits
    ensures buf[..] == was[..p] + digits' + [NUL]
  {
    Prepend(was, p, Digit(id % 36), digits);
    buf[p] := Digit(id % 36);
    return id / 36, p - 1, [Digit(id % 36)] + digits;
  }

  lemma Associate(front: Bytes, c: Byte, digits: Bytes)
    ensures (front + [c]) + digits == front + ([c] + digits)
  {
  }

  lemma RestIs(id: nat, p: int)
    ensures Rest(id, p) == if id > 0 && p >= 0 then Encoded(id, p + 1) else []
  {
  }

  // ----- What the string says -----

  lemma ModSplit(id: nat, q: nat)
    requires q > 0
    ensures id % (36 * q) == 36 * ((id / 36) % q) + id % 36
  {
    var a, b := id / 36, id % 36;
    var c, d := a / q, a % q;
    assert a == q * c + d;
    assert id == (36 * q) * c + (36 * d + b);
    assert 0 <= 36 * d + b < 36 * q;
    RemainderUnique(id, 36 * q, c, 36 * d + b);
  }

  /** Decoding gives the id back, modulo what the buffer has room for. */
  lemma {:induction false} DecodeEncoded(id: nat, room: nat)
    requires room > 0
    ensures Decoded(Encoded(id, room)) == id % Pow36(room)
  {
    hide Digit, DigitValue;
    DigitBack(id % 36);
    var s := Encoded(id, room);
    if id < 36 || room == 1 {
      assert s[..0] == [];
      ModSplit(id, Pow36(room - 1));
      SmallQuotient(id, room);
    } else {
      DecodeEncoded(id / 36, room - 1);
      assert s[..|s| - 1] == Encoded(id / 36, room - 1);
      ModSplit(id, Pow36(room - 1));
    }
  }

  lemma SmallQuotient(id: nat, room: nat)
    requires room > 0 && (id < 36 || room == 1)
    ensures (id / 36) % Pow36(room - 1) == 0
  {
    if id < 36 {
      assert id / 36 == 0;
    }
  }

  /** Thirteen digits hold any 64-bit number. */
  lemma SixtyFourBitsFit(room: nat)
    requires room >= 13
    ensures Pow36(room) >= TWO_32 * TWO_32
  {
    if room == 13 {
      assert Pow36(4) == 1679616;
      assert Pow36(8) == 1679616 * 1679616;
      assert Pow36(12) == 1679616 * 1679616 * 1679616;
    } else {
      SixtyFourBitsFit(room - 1);
    }
  }

  lemma IdIsUnique(t: nat, r: nat, u: nat, s: nat)
    requires r < TWO_32 && s < TWO_32
    ensures Id(t, r) == Id(u, s) <==> t % TWO_32 == u % TWO_32 && r == s
    ensures Id(t, r) < TWO_32 * TWO_32
  {
  }

  /** In a buffer of 14 bytes or more two identifiers are equal exactly when both their parts are. */
  lemma SameStringIffSameParts(t: nat, r: nat, u: nat, s: nat, room: nat)
    requires r < TWO_32 && s < TWO_32 && room >= 13
    ensures Encoded(Id(t, r), room) == Encoded(Id(u, s), room) <==> t % TWO_32 == u % TWO_32 && r == s
    ensures Decoded(Encoded(Id(t, r), room)) == Id(t, r)
  {
    hide Id, Encoded, Decoded, Pow36;
    IdIsUnique(t, r, u, s);
    IdIsUnique(u, s, t, r);
    SixtyFourBitsFit(room);
    DecodeEncoded(Id(t, r), room);
    DecodeEncoded(Id(u, s), room);
    RemainderUnique(Id(t, r), Pow36(room), 0, Id(t, r));
    RemainderUnique(Id(u, s), Pow36(room), 0, Id(u, s));
  }

  /** No identifier is longer than 13 digits. */
  lemma {:induction false} LengthBound(id: nat, room: nat, k: nat)
    requires room > 0 && k > 0 && id < Pow36(k)
    ensures |Encoded(id, room)| <= k
  {
    if id >= 36 && room > 1 {
      LengthBound(id / 36, room - 1, k - 1);
    }
  }

  lemma AtMostThirteenDigits(t: nat, r: nat, room: nat)
    requires r < TWO_32 && room > 0
    ensures |Encoded(Id(t, r), room)| <= 13
  {
    hide Id, Encoded, Pow36;
    IdIsUnique(t, r, t, r);
    SixtyFourBitsFit(13);
    LengthBound(Id(t, r), room, 13);
  }

  lemma {:induction false} EncodedHasNoNul(id: nat, room: nat)
    requires room > 0
    ensures NUL !in Encoded(id, room)
  {
    hide Digit;
    DigitBack(id % 36);
    if id >= 36 && room > 1 {
      EncodedHasNoNul(id / 36, room - 1);
    }
  }
}
