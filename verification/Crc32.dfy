/**
 The hash of dnscache.c: a table-driven CRC that eats four bits at a time, and the bit-at-a-time
 reflected CRC-32 (section 8 of RFC 1952) that it must agree with.
 */
module BitSteps {

  const POLYNOMIAL: bv32 := 0xEDB88320

  function Xor(a: bv32, b: bv32): bv32 { a ^ b }

  function Low(c: bv32): bv32 { c & 0xf }

  function High(c: bv32): bv32 { c >> 4 }

  function Upper(c: bv32): bv32 { c & 0xfffffff0 }

  function Half(x: bv32): bv32 { x >> 1 }

  predicate Odd(x: bv32) { x & 1 == 1 }

  /** One step of the reference. */
  function Bit(x: bv32): bv32
  {
    if Odd(x) then Xor(Half(x), POLYNOMIAL) else Half(x)
  }

  /** Four single bits, written out. */
  function Bits4(x: bv32): bv32
  {
    Bit(Bit(Bit(Bit(x))))
  }

  lemma XorParts(a: bv32, b: bv32)
    ensures Half(Xor(a, b)) == Xor(Half(a), Half(b))
    ensures Odd(Xor(a, b)) <==> Odd(a) != Odd(b)
  {}

  lemma XorAssociates(a: bv32, b: bv32, c: bv32)
    ensures Xor(Xor(a, b), c) == Xor(a, Xor(b, c))
  {
    assert (a ^ b) ^ c == a ^ (b ^ c);
  }

  lemma XorBasics(a: bv32, b: bv32)
    ensures Xor(a, b) == Xor(b, a)
    ensures Xor(a, a) == 0 && Xor(a, 0) == a
  {}

  lemma XorTwice(a: bv32, b: bv32, p: bv32)
    ensures Xor(Xor(a, p), b) == Xor(Xor(a, b), p) == Xor(a, Xor(b, p))
    ensures Xor(Xor(a, p), Xor(b, p)) == Xor(a, b)
  {
    hide Xor;
    XorBasics(p, b);
    XorBasics(Xor(a, b), 0);
    XorAssociates(a, p, b);
    XorAssociates(a, b, p);
    XorAssociates(Xor(a, p), b, p);
    XorAssociates(Xor(a, b), p, p);
  }

  /** One bit step distributes over exclusive or. */
  lemma BitLinear(a: bv32, b: bv32)
    ensures Bit(Xor(a, b)) == Xor(Bit(a), Bit(b))
  {
    hide Xor, Half, Odd;
    XorParts(a, b);
    XorTwice(Half(a), Half(b), POLYNOMIAL);
  }

  lemma Bits4Linear(a: bv32, b: bv32)
    ensures Bits4(Xor(a, b)) == Xor(Bits4(a), Bits4(b))
  {
    hide Bit, Xor;
    BitLinear(a, b);
    BitLinear(Bit(a), Bit(b));
    BitLinear(Bit(Bit(a)), Bit(Bit(b)));
    BitLinear(Bit(Bit(Bit(a))), Bit(Bit(Bit(b))));
  }

  lemma UpperZeros(c: bv32)
    ensures var x := Upper(c);
      !Odd(x) && !Odd(Half(x)) && !Odd(Half(Half(x))) && !Odd(Half(Half(Half(x))))
    ensures Half(Half(Half(Half(Upper(c))))) == High(c)
  {}

  /** Four zero bits are only shifted out. */
  lemma UpperShifts(c: bv32)
    ensures Bits4(Upper(c)) == High(c)
  {
    hide Xor, Half, Odd, Upper, High;
    UpperZeros(c);
  }

  lemma LowAndUpper(c: bv32)
    ensures c == Xor(Low(c), Upper(c)) && Low(c) < 16
  {}

  lemma SameHigh(crc: bv32, nibble: bv32)
    requires nibble < 16
    ensures High(Xor(crc, nibble)) == High(crc)
  {}
}

module Crc32 {
  import opened BitSteps

  const TABLE16: seq<bv32> := [
    0x00000000, 0x1db71064, 0x3b6e20c8, 0x26d930ac,
    0x76dc4190, 0x6b6b51f4, 0x4db26158, 0x5005713c,
    0xedb88320, 0xf00f9344, 0xd6d6a3e8, 0xcb61b38c,
    0x9b64c2b0, 0x86d3d2d4, 0xa00ae278, 0xbdbdf21c]

  // ---- the reference: one bit at a time ----

  function Bits(x: bv32, n: nat): bv32
    decreases n
  {
    if n == 0 then x else Bits(Bit(x), n - 1)
  }

  /** The register after the bytes of `s`, starting from `crc`. */
  function Register(crc: bv32, s: seq<bv8>): bv32
    decreases s
  {
    if s == [] then crc else Register(Bits(Xor(crc, s[0] as bv32), 8), s[1..])
  }

  function Crc(s: seq<bv8>): bv32
  {
    Xor(Register(0xffffffff, s), 0xffffffff)
  }

  // ---- the table ----

  function Table(n: bv32): bv32
  {
    if n < 16 then TABLE16[n as nat] else 0
  }

  function Nibble(crc: bv32, nibble: bv32): bv32
  {
    Xor(Table(Low(Xor(crc, nibble))), High(crc))
  }

  lemma TableIsBits4(n: bv32)
    requires n < 16
    ensures Table(n) == Bits4(n)
  {}

  lemma HighNibbleShifts(crc: bv32, c: bv32)
    ensures Bits4(Xor(crc, c)) == Xor(Bits4(Xor(crc, Low(c))), High(c))
  {
    hide Bits4, Xor, Low, High, Upper;
    LowAndUpper(c);
    XorAssociates(crc, Low(c), Upper(c));
    Bits4Linear(Xor(crc, Low(c)), Upper(c));
    UpperShifts(c);
  }

  lemma NibbleIsBits4(crc: bv32, nibble: bv32)
    requires nibble < 16
    ensures Nibble(crc, nibble) == Bits4(Xor(crc, nibble))
  {
    hide Bits4, Table, Xor, Low, High, Upper;
    var x := Xor(crc, nibble);
    LowAndUpper(x);
    Bits4Linear(Low(x), Upper(x));
    UpperShifts(x);
    TableIsBits4(Low(x));
    SameHigh(crc, nibble);
  }

  lemma EightBits(x: bv32)
    ensures Bits(x, 8) == Bits4(Bits4(x))
  {}

  lemma ByteNibbles(c: bv32)
    requires c < 0x100
    ensures Low(c) < 16 && High(c) < 16
  {}

  /** Two table steps are eight bit steps. */
  lemma TwoNibbles(crc: bv32, c: bv32)
    requires c < 0x100
    ensures Nibble(Nibble(crc, Low(c)), High(c)) == Bits(Xor(crc, c), 8)
  {
    hide Nibble, Table, Bits4, Bits, Bit, Xor, Low, High;
    ByteNibbles(c);
    NibbleIsBits4(crc, Low(c));
    NibbleIsBits4(Nibble(crc, Low(c)), High(c));
    HighNibbleShifts(crc, c);
    EightBits(Xor(crc, c));
  }

  lemma OneByte(crc: bv32, s: seq<bv8>, next: bv32, rest: seq<bv8>)
    requires s != [] && s[1..] == rest && next == Bits4(Bits4(Xor(crc, s[0] as bv32)))
    ensures Register(crc, s) == Register(next, rest)
  {
    hide Bits4, Bits, Xor;
    EightBits(Xor(crc, s[0] as bv32));
  }

  /** Two byte strings with one checksum: they differ by the generator polynomial. */
  lemma Collision()
    ensures Crc([0, 0, 0, 0, 0, 0]) == Crc([0, 65, 6, 113, 219, 1])
  {
    CollisionZeros();
    CollisionOther();
  }

  lemma CollisionZeros()
    ensures Register(0xffffffff, [0, 0, 0, 0, 0, 0]) == 0x4e3d5e5c
  {
    hide Register;
    OneByte(0xffffffff, [0, 0, 0, 0, 0, 0], 0x2dfd1072, [0, 0, 0, 0, 0]);
    OneByte(0x2dfd1072, [0, 0, 0, 0, 0], 0xbe26ed00, [0, 0, 0, 0]);
    OneByte(0xbe26ed00, [0, 0, 0, 0], 0x00be26ed, [0, 0, 0]);
    OneByte(0x00be26ed, [0, 0, 0], 0xdebb20e3, [0, 0]);
    OneByte(0xdebb20e3, [0, 0], 0x39dd08e2, [0]);
    OneByte(0x39dd08e2, [0], 0x4e3d5e5c, []);
    NoByte(0x4e3d5e5c);
  }

  lemma CollisionOther()
    ensures Register(0xffffffff, [0, 65, 6, 113, 219, 1]) == 0x4e3d5e5c
  {
    hide Register;
    OneByte(0xffffffff, [0, 65, 6, 113, 219, 1], 0x2dfd1072, [65, 6, 113, 219, 1]);
    OneByte(0x2dfd1072, [65, 6, 113, 219, 1], 0xbffd9c06, [6, 113, 219, 1]);
    OneByte(0xbffd9c06, [6, 113, 219, 1], 0x00bffd9c, [113, 219, 1]);
    OneByte(0x00bffd9c, [113, 219, 1], 0xdebb2138, [219, 1]);
    OneByte(0xdebb2138, [219, 1], 0x39dd08e3, [1]);
    OneByte(0x39dd08e3, [1], 0x4e3d5e5c, []);
    NoByte(0x4e3d5e5c);
  }

  lemma NoByte(crc: bv32)
    ensures Register(crc, []) == crc
  {}

  lemma ByteRange(b: bv8)
    ensures (b as bv32) < 0x100
  {}

  /** crc32_short: the nibble-table loop computes the CRC-32 of every byte string. */
  method Crc32Short(p: seq<bv8>) returns (hash: bv32)
    ensures hash == Crc(p)
  {
    hide Table, Bits4, Bits, Bit, Xor, Low, High;
    var crc: bv32 := 0xffffffff;
    var i := 0;
    while i < |p|
      invariant 0 <= i <= |p|
      invariant Register(crc, p[i..]) == Register(0xffffffff, p)
    {
      var c := p[i] as bv32;
      ByteRange(p[i]);
      TwoNibbles(crc, c);
      assert p[i..][0] == p[i] && p[i..][1..] == p[i + 1..];
      crc := Xor(Table(Low(Xor(crc, Low(c)))), High(crc));
      crc := Xor(Table(Low(Xor(crc, High(c)))), High(crc));
      i := i + 1;
    }
    assert p[i..] == [];
    return Xor(crc, 0xffffffff);
  }
}
