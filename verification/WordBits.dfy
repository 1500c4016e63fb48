/**
 The single bits of a 32-bit word, numbered from the least significant, and what the functions of both
 digests do to them: section 4.1.2 of FIPS 180-4 and section 3.4 of RFC 1321, bit by bit.
 */
module WordBits {
  import opened Bytes

  predicate Bit(x: bv32, i: bv32)
    requires i < 32
  {
    (x >> i) & 1 == 1
  }

  // The bit n places further up; past the end there is none.
  predicate Above(x: bv32, i: bv32, n: bv32)
    requires i < 32 && n < 32
  {
    i + n < 32 && Bit(x, i + n)
  }

  // The bit n places further up; past the end the count begins anew.
  predicate Around(x: bv32, i: bv32, n: bv32)
    requires i < 32 && n < 32
  {
    if i + n < 32 then Bit(x, i + n) else Bit(x, i + n - 32)
  }

  // An odd number of three.
  predicate Odd(p: bool, q: bool, r: bool) {
    (p != q) != r
  }

  // ----- the functions of one word -----

  function BigSum0(x: bv32): bv32 {
    ((x >> 2) | (x << 30)) ^ ((x >> 13) | (x << 19)) ^ ((x >> 22) | (x << 10))
  }

  function BigSum1(x: bv32): bv32 {
    ((x >> 6) | (x << 26)) ^ ((x >> 11) | (x << 21)) ^ ((x >> 25) | (x << 7))
  }

  function SmallSum0(x: bv32): bv32 {
    ((x >> 7) | (x << 25)) ^ ((x >> 18) | (x << 14)) ^ (x >> 3)
  }

  function SmallSum1(x: bv32): bv32 {
    ((x >> 17) | (x << 15)) ^ ((x >> 19) | (x << 13)) ^ (x >> 10)
  }

  // A bit of `w` is the parity of three bits of `x`, further up by the distances of each function.

  predicate BigSum0Bit(w: bv32, x: bv32, i: bv32)
    requires i < 32
  {
    Bit(w, i) == Odd(Around(x, i, 2), Around(x, i, 13), Around(x, i, 22))
  }

  predicate BigSum1Bit(w: bv32, x: bv32, i: bv32)
    requires i < 32
  {
    Bit(w, i) == Odd(Around(x, i, 6), Around(x, i, 11), Around(x, i, 25))
  }

  predicate SmallSum0Bit(w: bv32, x: bv32, i: bv32)
    requires i < 32
  {
    Bit(w, i) == Odd(Around(x, i, 7), Around(x, i, 18), Above(x, i, 3))
  }

  predicate SmallSum1Bit(w: bv32, x: bv32, i: bv32)
    requires i < 32
  {
    Bit(w, i) == Odd(Around(x, i, 17), Around(x, i, 19), Above(x, i, 10))
  }

  lemma BigSum0Low(w: bv32, x: bv32, i: bv32)
    requires i < 16 && w == ((x >> 2) | (x << 30)) ^ ((x >> 13) | (x << 19)) ^ ((x >> 22) | (x << 10))
    ensures BigSum0Bit(w, x, i)
  {}

  lemma BigSum0High(w: bv32, x: bv32, i: bv32)
    requires 16 <= i < 32 && w == ((x >> 2) | (x << 30)) ^ ((x >> 13) | (x << 19)) ^ ((x >> 22) | (x << 10))
    ensures BigSum0Bit(w, x, i)
  {}

  lemma BigSum1Low(w: bv32, x: bv32, i: bv32)
    requires i < 16 && w == ((x >> 6) | (x << 26)) ^ ((x >> 11) | (x << 21)) ^ ((x >> 25) | (x << 7))
    ensures BigSum1Bit(w, x, i)
  {}

  lemma BigSum1High(w: bv32, x: bv32, i: bv32)
    requires 16 <= i < 32 && w == ((x >> 6) | (x << 26)) ^ ((x >> 11) | (x << 21)) ^ ((x >> 25) | (x << 7))
    ensures BigSum1Bit(w, x, i)
  {}

  lemma SmallSum0Low(w: bv32, x: bv32, i: bv32)
    requires i < 16 && w == ((x >> 7) | (x << 25)) ^ ((x >> 18) | (x << 14)) ^ (x >> 3)
    ensures SmallSum0Bit(w, x, i)
  {}

  lemma SmallSum0High(w: bv32, x: bv32, i: bv32)
    requires 16 <= i < 32 && w == ((x >> 7) | (x << 25)) ^ ((x >> 18) | (x << 14)) ^ (x >> 3)
    ensures SmallSum0Bit(w, x, i)
  {}

  lemma SmallSum1Low(w: bv32, x: bv32, i: bv32)
    requires i < 16 && w == ((x >> 17) | (x << 15)) ^ ((x >> 19) | (x << 13)) ^ (x >> 10)
    ensures SmallSum1Bit(w, x, i)
  {}

  lemma SmallSum1High(w: bv32, x: bv32, i: bv32)
    requires 16 <= i < 32 && w == ((x >> 17) | (x << 15)) ^ ((x >> 19) | (x << 13)) ^ (x >> 10)
    ensures SmallSum1Bit(w, x, i)
  {}

  lemma SumsAt(x: bv32, i: bv32)
    requires i < 32
    ensures BigSum0Bit(BigSum0(x), x, i) && BigSum1Bit(BigSum1(x), x, i)
    ensures SmallSum0Bit(SmallSum0(x), x, i) && SmallSum1Bit(SmallSum1(x), x, i)
  {
    if i < 16 {
      BigSum0Low(BigSum0(x), x, i);
      BigSum1Low(BigSum1(x), x, i);
      SmallSum0Low(SmallSum0(x), x, i);
      SmallSum1Low(SmallSum1(x), x, i);
    } else {
      BigSum0High(BigSum0(x), x, i);
      BigSum1High(BigSum1(x), x, i);
      SmallSum0High(SmallSum0(x), x, i);
      SmallSum1High(SmallSum1(x), x, i);
    }
  }

  function RotateLeft(x: bv32, n: bv32): bv32
    requires 0 < n < 32
  {
    (x << n) | (x >> (32 - n))
  }

  /** The bits of `x` are found n places further up in `w`. */
  predicate RotatedUp(w: bv32, x: bv32, n: bv32, i: bv32)
    requires n < 32 && i < 32
  {
    Bit(w, i) == if n <= i then Bit(x, i - n) else Bit(x, i + 32 - n)
  }

  lemma HighPart(x: bv32, n: bv32, i: bv32)
    requires 0 < n < 32 && n <= i < 32
    ensures RotatedUp((x << n) | (x >> (32 - n)), x, n, i)
  {}

  lemma LowPart(x: bv32, n: bv32, i: bv32)
    requires i < n < 32
    ensures RotatedUp((x << n) | (x >> (32 - n)), x, n, i)
  {}

  lemma RotateLeftAt(x: bv32, n: bv32, i: bv32)
    requires 0 < n < 32 && i < 32
    ensures RotatedUp(RotateLeft(x, n), x, n, i)
  {
    if n <= i {
      HighPart(x, n, i);
    } else {
      LowPart(x, n, i);
    }
  }

  // ----- the functions of three words -----

  function Choice(x: bv32, y: bv32, z: bv32): bv32 {
    (x & y) ^ (!x & z)
  }

  function MajorityOf(x: bv32, y: bv32, z: bv32): bv32 {
    (x & y) ^ (x & z) ^ (y & z)
  }

  function FirstMix(x: bv32, y: bv32, z: bv32): bv32 {
    (x & y) | (!x & z)
  }

  function SecondMix(x: bv32, y: bv32, z: bv32): bv32 {
    (x & z) | (y & !z)
  }

  function ThirdMix(x: bv32, y: bv32, z: bv32): bv32 {
    (x ^ y) ^ z
  }

  function FourthMix(x: bv32, y: bv32, z: bv32): bv32 {
    y ^ (x | !z)
  }

  /** A bit of `w` is that of `y` where `x` has a bit, and that of `z` elsewhere. */
  predicate Chosen(w: bv32, x: bv32, y: bv32, z: bv32, i: bv32)
    requires i < 32
  {
    Bit(w, i) == if Bit(x, i) then Bit(y, i) else Bit(z, i)
  }

  /** A bit of `w` is one that at least two of the three have. */
  predicate Majority(w: bv32, x: bv32, y: bv32, z: bv32, i: bv32)
    requires i < 32
  {
    Bit(w, i) == if Bit(x, i) == Bit(y, i) then Bit(x, i) else Bit(z, i)
  }

  predicate Parity(w: bv32, x: bv32, y: bv32, z: bv32, i: bv32)
    requires i < 32
  {
    Bit(w, i) == Odd(Bit(x, i), Bit(y, i), Bit(z, i))
  }

  /** A bit of `w` is that of `y`, turned over unless `z` has a bit there and `x` has none. */
  predicate TurnedOver(w: bv32, x: bv32, y: bv32, z: bv32, i: bv32)
    requires i < 32
  {
    Bit(w, i) == if Bit(z, i) && !Bit(x, i) then Bit(y, i) else !Bit(y, i)
  }

  lemma ChoiceBit(w: bv32, x: bv32, y: bv32, z: bv32, i: bv32)
    requires i < 32 && w == (x & y) ^ (!x & z)
    ensures Chosen(w, x, y, z, i)
  {}

  lemma MajorityBit(w: bv32, x: bv32, y: bv32, z: bv32, i: bv32)
    requires i < 32 && w == (x & y) ^ (x & z) ^ (y & z)
    ensures Majority(w, x, y, z, i)
  {}

  lemma FirstBit(w: bv32, x: bv32, y: bv32, z: bv32, i: bv32)
    requires i < 32 && w == (x & y) | (!x & z)
    ensures Chosen(w, x, y, z, i)
  {}

  lemma SecondBit(w: bv32, x: bv32, y: bv32, z: bv32, i: bv32)
    requires i < 32 && w == (x & z) | (y & !z)
    ensures Chosen(w, z, x, y, i)
  {}

  lemma ThirdBit(w: bv32, x: bv32, y: bv32, z: bv32, i: bv32)
    requires i < 32 && w == (x ^ y) ^ z
    ensures Parity(w, x, y, z, i)
  {}

  lemma FourthBit(w: bv32, x: bv32, y: bv32, z: bv32, i: bv32)
    requires i < 32 && w == y ^ (x | !z)
    ensures TurnedOver(w, x, y, z, i)
  {}

  lemma ShaMixesAt(x: bv32, y: bv32, z: bv32, i: bv32)
    requires i < 32
    ensures Chosen(Choice(x, y, z), x, y, z, i) && Majority(MajorityOf(x, y, z), x, y, z, i)
  {
    ChoiceBit(Choice(x, y, z), x, y, z, i);
    MajorityBit(MajorityOf(x, y, z), x, y, z, i);
  }

  lemma Md5MixesAt(x: bv32, y: bv32, z: bv32, i: bv32)
    requires i < 32
    ensures Chosen(FirstMix(x, y, z), x, y, z, i) && Chosen(SecondMix(x, y, z), z, x, y, i)
    ensures Parity(ThirdMix(x, y, z), x, y, z, i) && TurnedOver(FourthMix(x, y, z), x, y, z, i)
  {
    FirstBit(FirstMix(x, y, z), x, y, z, i);
    SecondBit(SecondMix(x, y, z), x, y, z, i);
    ThirdBit(ThirdMix(x, y, z), x, y, z, i);
    FourthBit(FourthMix(x, y, z), x, y, z, i);
  }

  // ----- the bits of a word -----

  lemma BitsOfNumber(x: bv32)
    ensures Bits(Number(x)) == x
  {}
}
