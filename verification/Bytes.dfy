/** Bytes and words, the numbers they stand for, and numbers written as bytes. */
module Bytes {

  const U32: nat := 0x1_0000_0000
  const U64: nat := 0x1_0000_0000_0000_0000

  type Byte = bv8

  /** A 32-bit word, as the number it stands for. */
  type Word = x: nat | x < U32

  // The bits of a word.
  function Bits(x: Word): bv32 {
    x as bv32
  }

  function Number(x: bv32): Word {
    x as Word
  }

  // Addition modulo 2^32.
  function Add(x: Word, y: Word): Word {
    (x + y) % U32
  }

  lemma LeftSum(a: Word, b: Word, c: Word)
    ensures Add(Add(a, b), c) == (a + b + c) % U32
  {}

  function ByteOf(n: nat): Byte
    requires n < 256
  {
    n as Byte
  }

  function NumberOf(b: Byte): (n: nat)
    ensures n < 256
  {
    b as nat
  }

  // ----- bytes and numbers correspond -----

  lemma NextByte(b: bv8)
    requires b < 255
    ensures (b + 1) as nat == (b as nat) + 1
  {}

  lemma SmallByte(b: bv8)
    requires (b as nat) < 255
    ensures b < 255
  {}

  lemma {:induction false} ByteFor(n: nat) returns (b: Byte)
    requires n < 256
    ensures NumberOf(b) == n
  {
    if n == 0 {
      b := 0;
    } else {
      var c := ByteFor(n - 1);
      SmallByte(c);
      NextByte(c);
      b := c + 1;
    }
  }

  lemma ByteOfNumber(b: Byte)
    ensures ByteOf(NumberOf(b)) == b
  {}

  lemma NumberOfByte(n: nat)
    requires n < 256
    ensures NumberOf(ByteOf(n)) == n
  {
    var b := ByteFor(n);
    ByteOfNumber(b);
  }

  function Power256(width: nat): nat {
    if width == 0 then 1 else 256 * Power256(width - 1)
  }

  // ----- numbers in a fixed number of bytes, the most significant first -----

  function BigEndian(n: nat, width: nat): (s: seq<Byte>)
    ensures |s| == width
  {
    if width == 0 then [] else BigEndian(n / 256, width - 1) + [ByteOf(n % 256)]
  }

  function FromBigEndian(s: seq<Byte>): nat {
    if s == [] then 0 else 256 * FromBigEndian(s[..|s| - 1]) + NumberOf(s[|s| - 1])
  }

  /** The number can be read back when it fits. */
  lemma {:induction false} BigEndianReads(n: nat, width: nat)
    requires n < Power256(width)
    ensures FromBigEndian(BigEndian(n, width)) == n
  {
    if width > 0 {
      var s := BigEndian(n, width);
      assert s[..|s| - 1] == BigEndian(n / 256, width - 1);
      BigEndianReads(n / 256, width - 1);
      NumberOfByte(n % 256);
    }
  }

  // ----- the same, the least significant first -----

  function LittleEndian(n: nat, width: nat): (s: seq<Byte>)
    ensures |s| == width
  {
    if width == 0 then [] else [ByteOf(n % 256)] + LittleEndian(n / 256, width - 1)
  }

  function FromLittleEndian(s: seq<Byte>): nat {
    if s == [] then 0 else NumberOf(s[0]) + 256 * FromLittleEndian(s[1..])
  }

  lemma {:induction false} LittleEndianReads(n: nat, width: nat)
    requires n < Power256(width)
    ensures FromLittleEndian(LittleEndian(n, width)) == n
  {
    if width > 0 {
      assert LittleEndian(n, width)[1..] == LittleEndian(n / 256, width - 1);
      LittleEndianReads(n / 256, width - 1);
      NumberOfByte(n % 256);
    }
  }

  // ----- as the program takes them apart -----

  function Encode32(n: nat): seq<Byte> {
    [ByteOf(n / 0x100_0000 % 256), ByteOf(n / 0x1_0000 % 256), ByteOf(n / 0x100 % 256), ByteOf(n % 256)]
  }

  function Encode64(n: nat): seq<Byte> {
    Encode32(n / U32) + Encode32(n % U32)
  }

  function Encode32Le(n: nat): seq<Byte> {
    [ByteOf(n % 256), ByteOf(n / 0x100 % 256), ByteOf(n / 0x1_0000 % 256), ByteOf(n / 0x100_0000 % 256)]
  }

  lemma QuarterBytes(n: nat)
    ensures n / 256 / 256 == n / 0x1_0000 && n / 256 / 256 / 256 == n / 0x100_0000
    ensures n / 256 / 256 / 256 / 256 == n / U32
  {}

  lemma LowByte(high: nat, low: nat)
    ensures (256 * high + low) % 256 == low % 256
  {}

  lemma Shifted(low: nat, high: nat)
    ensures (low + U32 * high) / 0x100 == 256 * (0x1_0000 * high) + low / 0x100
    ensures (low + U32 * high) / 0x1_0000 == 256 * (0x100 * high) + low / 0x1_0000
    ensures (low + U32 * high) / 0x100_0000 == 256 * high + low / 0x100_0000
  {}

  // The upper half does not show in the low four bytes.
  lemma LowHalf(low: nat, high: nat)
    ensures Encode32(low + U32 * high) == Encode32(low)
    ensures Encode32Le(low + U32 * high) == Encode32Le(low)
  {
    Shifted(low, high);
    LowByte(0x100_0000 * high, low);
    LowByte(0x1_0000 * high, low / 0x100);
    LowByte(0x100 * high, low / 0x1_0000);
    LowByte(high, low / 0x100_0000);
  }

  lemma FourBytes(n: nat, width: nat)
    requires width >= 4
    ensures BigEndian(n, width) == BigEndian(n / U32, width - 4) + Encode32(n)
  {
    QuarterBytes(n);
    assert BigEndian(n, width) == BigEndian(n / 256, width - 1) + [ByteOf(n % 256)];
    assert BigEndian(n / 256, width - 1) == BigEndian(n / 256 / 256, width - 2) + [ByteOf(n / 256 % 256)];
    assert BigEndian(n / 256 / 256, width - 2)
           == BigEndian(n / 256 / 256 / 256, width - 3) + [ByteOf(n / 0x1_0000 % 256)];
  }

  lemma FourBytesLe(n: nat, width: nat)
    requires width >= 4
    ensures LittleEndian(n, width) == Encode32Le(n) + LittleEndian(n / U32, width - 4)
  {
    QuarterBytes(n);
    FirstByte(n, width, n / 256);
    FirstByte(n / 256, width - 1, n / 0x1_0000);
    FirstByte(n / 0x1_0000, width - 2, n / 0x100_0000);
    FirstByte(n / 0x100_0000, width - 3, n / U32);
  }

  lemma FirstByte(n: nat, width: nat, rest: nat)
    requires width > 0 && rest == n / 256
    ensures LittleEndian(n, width) == [ByteOf(n % 256)] + LittleEndian(rest, width - 1)
  {}

  lemma HighHalf(low: Word, high: nat, n: nat)
    requires n == low + U32 * high
    ensures n / U32 == high && Encode32(n) == Encode32(low) && Encode32Le(n) == Encode32Le(low)
  {
    LowHalf(low, high);
  }

  lemma OneWordBigEndian(n: nat)
    ensures BigEndian(n, 4) == Encode32(n)
  {
    FourBytes(n, 4);
  }

  lemma OneWordLittleEndian(n: nat)
    ensures LittleEndian(n, 4) == Encode32Le(n)
  {
    FourBytesLe(n, 4);
  }

  /** The bytes stored for a word, and for two words, are big-endian. */
  lemma EncodeIsBigEndian(low: Word, high: nat, width: nat)
    ensures width == 4 ==> Encode32(low) == BigEndian(low, width)
    ensures width == 8 ==> Encode32(high) + Encode32(low) == BigEndian(low + U32 * high, width)
  {
    if width == 8 {
      var n := low + U32 * high;
      HighHalf(low, high, n);
      FourBytes(n, width);
      OneWordBigEndian(high);
    } else if width == 4 {
      OneWordBigEndian(low);
    }
  }

  /** The same with the low word, and the low byte, first. */
  lemma EncodeIsLittleEndian(low: Word, high: nat, width: nat)
    ensures width == 4 ==> Encode32Le(low) == LittleEndian(low, width)
    ensures width == 8 ==> Encode32Le(low) + Encode32Le(high) == LittleEndian(low + U32 * high, width)
  {
    if width == 8 {
      var n := low + U32 * high;
      HighHalf(low, high, n);
      FourBytesLe(n, width);
      OneWordLittleEndian(high);
    } else if width == 4 {
      OneWordLittleEndian(low);
    }
  }

  lemma FourFromBigEndian(s: seq<Byte>)
    requires |s| == 4
    ensures FromBigEndian(s)
            == NumberOf(s[0]) * 0x100_0000 + NumberOf(s[1]) * 0x1_0000 + NumberOf(s[2]) * 0x100 + NumberOf(s[3])
  {
    assert s[..3][..2] == s[..2] && s[..2][..1] == s[..1] && s[..1][..0] == [];
    assert FromBigEndian(s[..1]) == NumberOf(s[0]);
    assert FromBigEndian(s[..2]) == 256 * FromBigEndian(s[..1]) + NumberOf(s[1]);
    assert FromBigEndian(s[..3]) == 256 * FromBigEndian(s[..2]) + NumberOf(s[2]);
  }

  lemma FourFromLittleEndian(s: seq<Byte>)
    requires |s| == 4
    ensures FromLittleEndian(s)
            == NumberOf(s[0]) + NumberOf(s[1]) * 0x100 + NumberOf(s[2]) * 0x1_0000 + NumberOf(s[3]) * 0x100_0000
  {
    assert s[1..][1..] == s[2..] && s[2..][1..] == s[3..] && s[3..][1..] == [];
    assert FromLittleEndian(s[3..]) == NumberOf(s[3]);
    assert FromLittleEndian(s[2..]) == NumberOf(s[2]) + 256 * FromLittleEndian(s[3..]);
    assert FromLittleEndian(s[1..]) == NumberOf(s[1]) + 256 * FromLittleEndian(s[2..]);
  }

  // ----- words put together from bytes by shifting -----

  lemma ShiftedHalves(b0: bv8, b1: bv8, b2: bv8, b3: bv8)
    ensures (((((b0 as bv32) << 8) | (b1 as bv32)) << 16) | (((b2 as bv32) << 8) | (b3 as bv32))) as nat
            == (b0 as nat) * 0x100_0000 + (b1 as nat) * 0x1_0000 + (b2 as nat) * 0x100 + (b3 as nat)
  {}

  lemma ShiftedQuarters(b0: bv8, b1: bv8, b2: bv8, b3: bv8)
    ensures ((b0 as bv32) | ((b1 as bv32) << 8) | ((b2 as bv32) << 16) | ((b3 as bv32) << 24)) as nat
            == (b0 as nat) + (b1 as nat) * 0x100 + (b2 as nat) * 0x1_0000 + (b3 as nat) * 0x100_0000
  {}

  // ----- bytes to a word and back -----

  lemma FourDigits(a: nat, b: nat, c: nat, d: nat, n: nat)
    requires a < 256 && b < 256 && c < 256 && d < 256 && n == a * 0x100_0000 + b * 0x1_0000 + c * 0x100 + d
    ensures n / 0x100_0000 == a && n / 0x1_0000 == a * 256 + b && n / 0x100 == (a * 256 + b) * 256 + c
    ensures n / 0x100_0000 % 256 == a && n / 0x1_0000 % 256 == b && n / 0x100 % 256 == c && n % 256 == d
  {
    LowByte(a, b);
    LowByte(a * 256 + b, c);
    LowByte((a * 256 + b) * 256 + c, d);
  }

  /** Four bytes read as a number, in either order, are what is stored for it. */
  lemma FourBytesBack(b0: Byte, b1: Byte, b2: Byte, b3: Byte, n: nat)
    requires n == NumberOf(b0) * 0x100_0000 + NumberOf(b1) * 0x1_0000 + NumberOf(b2) * 0x100 + NumberOf(b3)
    ensures Encode32(n) == [b0, b1, b2, b3] && Encode32Le(n) == [b3, b2, b1, b0]
  {
    FourDigits(NumberOf(b0), NumberOf(b1), NumberOf(b2), NumberOf(b3), n);
    ByteOfNumber(b0);
    ByteOfNumber(b1);
    ByteOfNumber(b2);
    ByteOfNumber(b3);
  }
}
