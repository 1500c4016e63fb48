/**
 MD5 on 32-bit words: the operations as section 3.4 of RFC 1321 defines them and as the program computes
 them, and the digest of a file.
 */
module Md5 {
  import opened Bytes
  import opened BlockStream
  import opened Md5Rounds
  import opened Md5Sines
  import opened Md5Stream
  import opened WordBits

  // ----- section 3.4 of RFC 1321 -----

  function F(x: Word, y: Word, z: Word): Word {
    Number(FirstMix(Bits(x), Bits(y), Bits(z)))
  }

  function G(x: Word, y: Word, z: Word): Word {
    Number(SecondMix(Bits(x), Bits(y), Bits(z)))
  }

  function H(x: Word, y: Word, z: Word): Word {
    Number(ThirdMix(Bits(x), Bits(y), Bits(z)))
  }

  function I(x: Word, y: Word, z: Word): Word {
    Number(FourthMix(Bits(x), Bits(y), Bits(z)))
  }

  function RotL(x: Word, s: nat): Word {
    if 0 < s < 32 then Number(RotateLeft(Bits(x), s as bv32)) else x
  }

  // The number of four bytes, the least significant first.
  function WordOf(b0: Byte, b1: Byte, b2: Byte, b3: Byte): Word {
    NumberOf(b0) + NumberOf(b1) * 0x100 + NumberOf(b2) * 0x1_0000 + NumberOf(b3) * 0x100_0000
  }

  function BytesOf(u: Word): seq<Byte> {
    LittleEndian(u, 4)
  }

  const INIT: Regs<Word> := Regs(0x67452301, 0xefcdab89, 0x98badcfe, 0x10325476)

  /** Bit by bit: two choices, the parity of three, and the last function. */
  lemma FunctionBits(x: Word, y: Word, z: Word, i: bv32)
    requires i < 32
    ensures Chosen(Bits(F(x, y, z)), Bits(x), Bits(y), Bits(z), i)
    ensures Chosen(Bits(G(x, y, z)), Bits(z), Bits(x), Bits(y), i)
    ensures Parity(Bits(H(x, y, z)), Bits(x), Bits(y), Bits(z), i)
    ensures TurnedOver(Bits(I(x, y, z)), Bits(x), Bits(y), Bits(z), i)
  {
    var a, b, c := Bits(x), Bits(y), Bits(z);
    Md5MixesAt(a, b, c, i);
    BitsOfNumber(FirstMix(a, b, c));
    BitsOfNumber(SecondMix(a, b, c));
    BitsOfNumber(ThirdMix(a, b, c));
    BitsOfNumber(FourthMix(a, b, c));
  }

  /** Rotating moves every bit n places up. */
  lemma RotatedBits(x: Word, n: bv32, i: bv32)
    requires 0 < n < 32 && i < 32
    ensures RotatedUp(Bits(RotL(x, n as nat)), Bits(x), n, i)
  {
    RotateLeftAt(Bits(x), n, i);
    BitsOfNumber(RotateLeft(Bits(x), n));
  }

  /** The registers begin with the bytes 01 23 45 67 89 ab cd ef and then downwards, as section 3.3 says. */
  lemma InitialBytes()
    ensures INIT.a == WordOf(0x01, 0x23, 0x45, 0x67) && INIT.b == WordOf(0x89, 0xab, 0xcd, 0xef)
    ensures INIT.c == WordOf(0xfe, 0xdc, 0xba, 0x98) && INIT.d == WordOf(0x76, 0x54, 0x32, 0x10)
  {}

  // ----- as the program computes them -----

  function FastF(x: Word, y: Word, z: Word): Word {
    Number(Bits(z) ^ (Bits(x) & (Bits(y) ^ Bits(z))))
  }

  function FastG(x: Word, y: Word, z: Word): Word {
    Number(Bits(y) ^ (Bits(z) & (Bits(x) ^ Bits(y))))
  }

  function H2(x: Word, y: Word, z: Word): Word {
    Number(Bits(x) ^ (Bits(y) ^ Bits(z)))
  }

  // A word put together from its bytes.
  function Load(b0: Byte, b1: Byte, b2: Byte, b3: Byte): Word {
    Number((b0 as bv32) | ((b1 as bv32) << 8) | ((b2 as bv32) << 16) | ((b3 as bv32) << 24))
  }

  function Store(u: Word): seq<Byte> {
    Encode32Le(u)
  }

  lemma FForms(x: bv32, y: bv32, z: bv32)
    ensures z ^ (x & (y ^ z)) == (x & y) | (!x & z)
  {}

  lemma GForms(x: bv32, y: bv32, z: bv32)
    ensures y ^ (z & (x ^ y)) == (x & z) | (y & !z)
  {}

  lemma HForms(x: bv32, y: bv32, z: bv32)
    ensures x ^ (y ^ z) == (x ^ y) ^ z
  {}

  lemma FastFIsF(x: Word, y: Word, z: Word)
    ensures FastF(x, y, z) == F(x, y, z)
  {
    FForms(Bits(x), Bits(y), Bits(z));
  }

  lemma FastGIsG(x: Word, y: Word, z: Word)
    ensures FastG(x, y, z) == G(x, y, z)
  {
    GForms(Bits(x), Bits(y), Bits(z));
  }

  lemma H2IsH(x: Word, y: Word, z: Word)
    ensures H2(x, y, z) == H(x, y, z)
  {
    HForms(Bits(x), Bits(y), Bits(z));
  }

  lemma LoadIsWordOf(b0: Byte, b1: Byte, b2: Byte, b3: Byte)
    ensures Load(b0, b1, b2, b3) == WordOf(b0, b1, b2, b3)
  {
    ShiftedQuarters(b0, b1, b2, b3);
  }

  /** What is stored reads back. */
  lemma StoreLoads(u: Word)
    ensures var s := Store(u); |s| == 4 && Load(s[0], s[1], s[2], s[3]) == u
  {
    var s := Store(u);
    LoadIsWordOf(s[0], s[1], s[2], s[3]);
    FourFromLittleEndian(s);
    EncodeIsLittleEndian(u, 0, 4);
    assert Power256(4) == U32;
    LittleEndianReads(u, 4);
  }

  lemma WordHoldsBytes(b0: Byte, b1: Byte, b2: Byte, b3: Byte, n: Word)
    requires n == WordOf(b0, b1, b2, b3)
    ensures BytesOf(n) == [b0, b1, b2, b3]
  {
    FourBytesBack(b3, b2, b1, b0, n);
    EncodeIsLittleEndian(n, 0, 4);
  }

  lemma FourOfBlock(block: seq<Byte>, i: nat)
    requires |block| == 64 && i < 16
    ensures block[4 * i..4 * i + 4] == [block[4 * i], block[4 * i + 1], block[4 * i + 2], block[4 * i + 3]]
  {}

  /** The words of a block hold all its bytes, in order. */
  lemma WordsHoldBlock(block: seq<Byte>, i: nat)
    requires |block| == 64 && i < 16
    ensures BytesOf(WordAt(WordOf, block, i)) == block[4 * i..4 * i + 4]
  {
    FourOfBlock(block, i);
    WordHoldsBytes(block[4 * i], block[4 * i + 1], block[4 * i + 2], block[4 * i + 3], WordAt(WordOf, block, i));
  }

  // ----- the two algorithms, and that they are one -----

  function Standard(t: seq<Word>): Algorithm<Word> {
    Algorithm(Ops(Add, F, G, H, H, I, RotL), t, INIT, 0, WordOf, BytesOf)
  }

  function Program(t: seq<Word>): Algorithm<Word> {
    Algorithm(Ops(Add, FastF, FastG, H, H2, I, RotL), t, INIT, 0, Load, Store)
  }

  lemma OpsAreLawful(o: Ops<Word>)
    requires o.add == Add && o.h == H && o.h2 == H2
    ensures Lawful(o)
  {
    forall a, b, c
      ensures Assoc(o, a, b, c)
    {
      LeftSum(a, b, c);
      LeftSum(b, c, a);
    }
    forall a, b, c
      ensures SameH(o, a, b, c)
    {
      H2IsH(a, b, c);
    }
  }

  lemma FormsAgree(p: Algorithm<Word>, s: Algorithm<Word>)
    requires p == Program(s.t) && s == Standard(s.t) && |s.t| == 64
    ensures Alike(p, s)
  {
    forall x, y, z
      ensures p.ops.f(x, y, z) == s.ops.f(x, y, z) && p.ops.g(x, y, z) == s.ops.g(x, y, z)
    {
      FastFIsF(x, y, z);
      FastGIsG(x, y, z);
    }
    forall b0, b1, b2, b3
      ensures p.load(b0, b1, b2, b3) == s.load(b0, b1, b2, b3)
    {
      LoadIsWordOf(b0, b1, b2, b3);
    }
    forall u: Word
      ensures p.store(u) == s.store(u)
    {
      EncodeIsLittleEndian(u, 0, 4);
    }
  }

  method HashWith(t: seq<Word>, pieces: seq<seq<Byte>>) returns (digest: seq<Byte>)
    requires |t| == 64
    ensures digest == Hash(Standard(t), Joined(pieces))
  {
    var p := Program(t);
    OpsAreLawful(p.ops);
    digest := HashPieces(p, pieces);
    FormsAgree(p, Standard(t));
    HashAgrees(p, Standard(t), Joined(pieces));
  }

  /** What a cleared context holds is zero. */
  lemma ZeroIsNeutral(x: Word, t: seq<Word>)
    ensures var p, s := Program(t), Standard(t);
            p.ops.add(x, p.zero) == x == s.ops.add(x, s.zero)
  {}

  /** The digest of a file is the MD5 of its bytes, whatever the pieces in which it is read. */
  method HashFile(pieces: seq<seq<Byte>>) returns (digest: seq<Byte>)
    ensures digest == Hash(Standard(T), Joined(pieces))
  {
    digest := HashWith(T, pieces);
  }
}
