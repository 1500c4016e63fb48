/**
 The constants of SHA-256 (mkhash.c), each beside the prime it comes from. Sections 4.2.2 and 5.3.3 of
 FIPS 180-4: the first 32 bits of the fractional parts of the cube roots of the first 64 primes, and of
 the square roots of the first eight.
 */
module Sha256Constants {
  import opened Bytes

  datatype Table = End | At(prime: nat, bits: nat, rest: Table)

  /** Eight of the 64 round constants. */
  function Constants(row: nat): Table
    requires row < 8
  {
    match row
    case 0 =>
        At(2, 0x428a2f98, At(3, 0x71374491, At(5, 0xb5c0fbcf, At(7, 0xe9b5dba5,
        At(11, 0x3956c25b, At(13, 0x59f111f1, At(17, 0x923f82a4, At(19, 0xab1c5ed5, End))))))))
    case 1 =>
        At(23, 0xd807aa98, At(29, 0x12835b01, At(31, 0x243185be, At(37, 0x550c7dc3,
        At(41, 0x72be5d74, At(43, 0x80deb1fe, At(47, 0x9bdc06a7, At(53, 0xc19bf174, End))))))))
    case 2 =>
        At(59, 0xe49b69c1, At(61, 0xefbe4786, At(67, 0x0fc19dc6, At(71, 0x240ca1cc,
        At(73, 0x2de92c6f, At(79, 0x4a7484aa, At(83, 0x5cb0a9dc, At(89, 0x76f988da, End))))))))
    case 3 =>
        At(97, 0x983e5152, At(101, 0xa831c66d, At(103, 0xb00327c8, At(107, 0xbf597fc7,
        At(109, 0xc6e00bf3, At(113, 0xd5a79147, At(127, 0x06ca6351, At(131, 0x14292967, End))))))))
    case 4 =>
        At(137, 0x27b70a85, At(139, 0x2e1b2138, At(149, 0x4d2c6dfc, At(151, 0x53380d13,
        At(157, 0x650a7354, At(163, 0x766a0abb, At(167, 0x81c2c92e, At(173, 0x92722c85, End))))))))
    case 5 =>
        At(179, 0xa2bfe8a1, At(181, 0xa81a664b, At(191, 0xc24b8b70, At(193, 0xc76c51a3,
        At(197, 0xd192e819, At(199, 0xd6990624, At(211, 0xf40e3585, At(223, 0x106aa070, End))))))))
    case 6 =>
        At(227, 0x19a4c116, At(229, 0x1e376c08, At(233, 0x2748774c, At(239, 0x34b0bcb5,
        At(241, 0x391c0cb3, At(251, 0x4ed8aa4a, At(257, 0x5b9cca4f, At(263, 0x682e6ff3, End))))))))
    case 7 =>
        At(269, 0x748f82ee, At(271, 0x78a5636f, At(277, 0x84c87814, At(281, 0x8cc70208,
        At(283, 0x90befffa, At(293, 0xa4506ceb, At(307, 0xbef9a3f7, At(311, 0xc67178f2, End))))))))
  }

  function InitialState(): Table {
        At(2, 0x6A09E667, At(3, 0xBB67AE85, At(5, 0x3C6EF372, At(7, 0xA54FF53A,
        At(11, 0x510E527F, At(13, 0x9B05688C, At(17, 0x1F83D9AB, At(19, 0x5BE0CD19, End))))))))
  }

  // The largest number whose cube, or square, is at most p, for the primes here.
  function WholeCubeRoot(p: nat): nat {
    if p < 8 then 1 else if p < 27 then 2 else if p < 64 then 3 else if p < 125 then 4 else if p < 216 then 5 else 6
  }

  function WholeSquareRoot(p: nat): nat {
    if p < 4 then 1 else if p < 9 then 2 else if p < 16 then 3 else 4
  }

  /** The root with these 32 bits behind the point is not above the cube root of p, and the next one is. */
  predicate CubeRootBits(p: nat, bits: nat) {
    var r := WholeCubeRoot(p) * U32 + bits;
    bits < U32 && r * r * r <= p * U32 * U32 * U32 < (r + 1) * (r + 1) * (r + 1)
  }

  predicate SquareRootBits(p: nat, bits: nat) {
    var r := WholeSquareRoot(p) * U32 + bits;
    bits < U32 && r * r <= p * U32 * U32 < (r + 1) * (r + 1)
  }

  // A table of n roots.
  predicate CubeRoots(t: Table, n: nat) {
    if n == 0 then t.End? else t.At? && CubeRootBits(t.prime, t.bits) && CubeRoots(t.rest, n - 1)
  }

  predicate SquareRoots(t: Table, n: nat) {
    if n == 0 then t.End? else t.At? && SquareRootBits(t.prime, t.bits) && SquareRoots(t.rest, n - 1)
  }

  lemma Row0()
    ensures CubeRoots(Constants(0), 8)
  {}

  lemma Row1()
    ensures CubeRoots(Constants(1), 8)
  {}

  lemma Row2()
    ensures CubeRoots(Constants(2), 8)
  {}

  lemma Row3()
    ensures CubeRoots(Constants(3), 8)
  {}

  lemma Row4()
    ensures CubeRoots(Constants(4), 8)
  {}

  lemma Row5()
    ensures CubeRoots(Constants(5), 8)
  {}

  lemma Row6()
    ensures CubeRoots(Constants(6), 8)
  {}

  lemma Row7()
    ensures CubeRoots(Constants(7), 8)
  {}

  lemma ConstantsAreCubeRoots(row: nat)
    requires row < 8
    ensures CubeRoots(Constants(row), 8)
  {
    match row
    case 0 => Row0();
    case 1 => Row1();
    case 2 => Row2();
    case 3 => Row3();
    case 4 => Row4();
    case 5 => Row5();
    case 6 => Row6();
    case 7 => Row7();
  }

  lemma InitialAreSquareRoots()
    ensures SquareRoots(InitialState(), 8)
  {}

  // ----- no other bits would do -----

  lemma CubesGrow(x: nat, y: nat)
    requires x <= y
    ensures x * x * x <= y * y * y
  {
    SquaresGrow(x, y);
    assert x * x * x <= y * y * x <= y * y * y;
  }

  lemma SquaresGrow(x: nat, y: nat)
    requires x <= y
    ensures x * x <= y * y
  {
    assert x * x <= y * x <= y * y;
  }

  lemma CubeRootBitsUnique(p: nat, x: nat, y: nat)
    requires CubeRootBits(p, x) && CubeRootBits(p, y)
    ensures x == y
  {
    var r, s := WholeCubeRoot(p) * U32 + x, WholeCubeRoot(p) * U32 + y;
    if x < y {
      CubesGrow(r + 1, s);
    } else if y < x {
      CubesGrow(s + 1, r);
    }
  }

  lemma SquareRootBitsUnique(p: nat, x: nat, y: nat)
    requires SquareRootBits(p, x) && SquareRootBits(p, y)
    ensures x == y
  {
    var r, s := WholeSquareRoot(p) * U32 + x, WholeSquareRoot(p) * U32 + y;
    if x < y {
      SquaresGrow(r + 1, s);
    } else if y < x {
      SquaresGrow(s + 1, r);
    }
  }

  // ----- the same as words -----

  predicate Fits(t: Table, n: nat) {
    if n == 0 then t.End? else t.At? && t.bits < U32 && Fits(t.rest, n - 1)
  }

  lemma RootsFit(t: Table, n: nat)
    requires CubeRoots(t, n) || SquareRoots(t, n)
    ensures Fits(t, n)
  {}

  function Words(t: Table, n: nat): (w: seq<Word>)
    requires Fits(t, n)
    ensures |w| == n
  {
    if n == 0 then [] else [t.bits] + Words(t.rest, n - 1)
  }

  // The constants of the first rows.
  function RoundWords(rows: nat): (w: seq<Word>)
    requires rows <= 8
    ensures |w| == 8 * rows
  {
    if rows == 0 then []
    else
      ConstantsAreCubeRoots(rows - 1);
      RootsFit(Constants(rows - 1), 8);
      RoundWords(rows - 1) + Words(Constants(rows - 1), 8)
  }

  /** The 64 round constants. */
  function RoundConstants(): (k: seq<Word>)
    ensures |k| == 64
  {
    RoundWords(8)
  }

  /** The eight words the state begins with. */
  function InitialWords(): (h: seq<Word>)
    ensures |h| == 8
  {
    InitialAreSquareRoots();
    RootsFit(InitialState(), 8);
    Words(InitialState(), 8)
  }
}
