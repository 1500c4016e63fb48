/**
 SHA-256 on 32-bit words: the operations as section 4.1.2 of FIPS 180-4 defines them and as the program
 computes them, and the digest of a file.
 */
module Sha256 {
  import opened Bytes
  import opened BlockStream
  import opened Sha256Rounds
  import opened Sha256Stream
  import opened Sha256Constants
  import opened WordBits

  // ----- operations of section 4.1.2 of FIPS 180-4 -----

  function Ch(x: Word, y: Word, z: Word): Word {
    Number(Choice(Bits(x), Bits(y), Bits(z)))
  }

  function Maj(x: Word, y: Word, z: Word): Word {
    Number(MajorityOf(Bits(x), Bits(y), Bits(z)))
  }

  function BigSigma0(x: Word): Word {
    Number(BigSum0(Bits(x)))
  }

  function BigSigma1(x: Word): Word {
    Number(BigSum1(Bits(x)))
  }

  function SmallSigma0(x: Word): Word {
    Number(SmallSum0(Bits(x)))
  }

  function SmallSigma1(x: Word): Word {
    Number(SmallSum1(Bits(x)))
  }

  // The number of four bytes, the most significant first.
  function WordOf(b0: Byte, b1: Byte, b2: Byte, b3: Byte): Word {
    NumberOf(b0) * 0x100_0000 + NumberOf(b1) * 0x1_0000 + NumberOf(b2) * 0x100 + NumberOf(b3)
  }

  // A word as four bytes, the most significant first.
  function BytesOf(u: Word): seq<Byte> {
    BigEndian(u, 4)
  }

  /** Bit by bit: the four functions of one word are made of rotations and shifts by the distances of section
      4.1.2 of FIPS 180-4. */
  lemma SigmaBits(x: Word, i: bv32)
    requires i < 32
    ensures BigSum0Bit(Bits(BigSigma0(x)), Bits(x), i)
    ensures BigSum1Bit(Bits(BigSigma1(x)), Bits(x), i)
    ensures SmallSum0Bit(Bits(SmallSigma0(x)), Bits(x), i)
    ensures SmallSum1Bit(Bits(SmallSigma1(x)), Bits(x), i)
  {
    var b := Bits(x);
    SumsAt(b, i);
    BitsOfNumber(BigSum0(b));
    BitsOfNumber(BigSum1(b));
    BitsOfNumber(SmallSum0(b));
    BitsOfNumber(SmallSum1(b));
  }

  /** Bit by bit: the first word chooses between the others, and the majority of three. */
  lemma ChoiceBits(x: Word, y: Word, z: Word, i: bv32)
    requires i < 32
    ensures Chosen(Bits(Ch(x, y, z)), Bits(x), Bits(y), Bits(z), i)
    ensures Majority(Bits(Maj(x, y, z)), Bits(x), Bits(y), Bits(z), i)
  {
    var a, b, c := Bits(x), Bits(y), Bits(z);
    ShaMixesAt(a, b, c, i);
    BitsOfNumber(Choice(a, b, c));
    BitsOfNumber(MajorityOf(a, b, c));
  }

  // ----- the same as the program computes them -----

  function FastCh(x: Word, y: Word, z: Word): Word {
    Number((Bits(x) & (Bits(y) ^ Bits(z))) ^ Bits(z))
  }

  function FastMaj(x: Word, y: Word, z: Word): Word {
    Number((Bits(x) & (Bits(y) | Bits(z))) | (Bits(y) & Bits(z)))
  }

  // A word read as two halves.
  function Load(b0: Byte, b1: Byte, b2: Byte, b3: Byte): Word {
    Number(((((b0 as bv32) << 8) | (b1 as bv32)) << 16) | (((b2 as bv32) << 8) | (b3 as bv32)))
  }

  function Store(u: Word): seq<Byte> {
    Encode32(u)
  }

  lemma ChForms(x: bv32, y: bv32, z: bv32)
    ensures (x & (y ^ z)) ^ z == (x & y) ^ (!x & z)
  {}

  lemma MajForms(x: bv32, y: bv32, z: bv32)
    ensures (x & (y | z)) | (y & z) == (x & y) ^ (x & z) ^ (y & z)
  {}

  /** What is stored reads back. */
  lemma StoreLoads(u: Word)
    ensures var s := Store(u); |s| == 4 && Load(s[0], s[1], s[2], s[3]) == u
  {
    var s := Store(u);
    LoadIsWordOf(s[0], s[1], s[2], s[3]);
    FourFromBigEndian(s);
    EncodeIsBigEndian(u, 0, 4);
    assert Power256(4) == U32;
    BigEndianReads(u, 4);
  }

  lemma WordHoldsBytes(b0: Byte, b1: Byte, b2: Byte, b3: Byte, n: Word)
    requires n == WordOf(b0, b1, b2, b3)
    ensures BytesOf(n) == [b0, b1, b2, b3]
  {
    FourBytesBack(b0, b1, b2, b3, n);
    EncodeIsBigEndian(n, 0, 4);
  }

  lemma FourOfBlock(block: seq<Byte>, i: nat)
    requires |block| == 64 && i < 16
    ensures block[4 * i..4 * i + 4] == [block[4 * i], block[4 * i + 1], block[4 * i + 2], block[4 * i + 3]]
  {}

  /** The words of a block hold all its bytes, in order. */
  lemma WordsHoldBlock(block: seq<Byte>, i: nat)
    requires |block| == 64 && i < 16
    ensures BytesOf(WordAt(WordOf, block, i)) == block[4 * i..4 * i + 4]
  {
    FourOfBlock(block, i);
    WordHoldsBytes(block[4 * i], block[4 * i + 1], block[4 * i + 2], block[4 * i + 3], WordAt(WordOf, block, i));
  }

  // ----- the two algorithms, and that they are one -----

  function Standard(k: seq<Word>, init: Vars<Word>): Algorithm<Word> {
    Algorithm(Ops(Add, Ch, Maj, BigSigma0, BigSigma1, SmallSigma0, SmallSigma1), k, init, 0, WordOf, BytesOf)
  }

  function Program(k: seq<Word>, init: Vars<Word>): Algorithm<Word> {
    Algorithm(Ops(Add, FastCh, FastMaj, BigSigma0, BigSigma1, SmallSigma0, SmallSigma1), k, init, 0, Load, Store)
  }

  lemma AddIsLawful(o: Ops<Word>)
    requires o.add == Add
    ensures Lawful(o)
  {
    forall a, b, c
      ensures Assoc(o, a, b, c)
    {
      LeftSum(a, b, c);
      LeftSum(b, c, a);
    }
  }

  lemma FastChIsCh(x: Word, y: Word, z: Word)
    ensures FastCh(x, y, z) == Ch(x, y, z)
  {
    ChForms(Bits(x), Bits(y), Bits(z));
  }

  lemma FastMajIsMaj(x: Word, y: Word, z: Word)
    ensures FastMaj(x, y, z) == Maj(x, y, z)
  {
    MajForms(Bits(x), Bits(y), Bits(z));
  }

  lemma LoadIsWordOf(b0: Byte, b1: Byte, b2: Byte, b3: Byte)
    ensures Load(b0, b1, b2, b3) == WordOf(b0, b1, b2, b3)
  {
    ShiftedHalves(b0, b1, b2, b3);
  }

  lemma FormsAgree(p: Algorithm<Word>, s: Algorithm<Word>)
    requires p == Program(s.k, s.init) && s == Standard(s.k, s.init) && |s.k| == 64
    ensures Alike(p, s)
  {
    forall x, y, z
      ensures p.ops.ch(x, y, z) == s.ops.ch(x, y, z) && p.ops.maj(x, y, z) == s.ops.maj(x, y, z)
    {
      FastChIsCh(x, y, z);
      FastMajIsMaj(x, y, z);
    }
    forall b0, b1, b2, b3
      ensures p.load(b0, b1, b2, b3) == s.load(b0, b1, b2, b3)
    {
      LoadIsWordOf(b0, b1, b2, b3);
    }
    forall u: Word
      ensures p.store(u) == s.store(u)
    {
      EncodeIsBigEndian(u, 0, 4);
    }
  }

  method HashWith(k: seq<Word>, init: Vars<Word>, pieces: seq<seq<Byte>>) returns (digest: seq<Byte>)
    requires |k| == 64
    ensures digest == Hash(Standard(k, init), Joined(pieces))
  {
    var p := Program(k, init);
    AddIsLawful(p.ops);
    digest := HashPieces(p, pieces);
    FormsAgree(p, Standard(k, init));
    HashAgrees(p, Standard(k, init), Joined(pieces));
  }

  /** What a cleared context holds is zero. */
  lemma ZeroIsNeutral(x: Word, k: seq<Word>, init: Vars<Word>)
    ensures var p, s := Program(k, init), Standard(k, init);
            p.ops.add(x, p.zero) == x == s.ops.add(x, s.zero)
  {}

  /** The digest of a file is the SHA-256 of its bytes, whatever the pieces in which it is read. */
  method HashFile(pieces: seq<seq<Byte>>) returns (digest: seq<Byte>)
    ensures digest == Hash(Standard(RoundConstants(), ToVars(InitialWords())), Joined(pieces))
  {
    digest := HashWith(RoundConstants(), ToVars(InitialWords()), pieces);
  }
}
