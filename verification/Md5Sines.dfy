/**
 The constants of MD5 (mkhash.c) are sines. Section 3.4 of RFC 1321: the i-th is the integer part of 2^32
 times the absolute value of the sine of i radians. Sine and cosine of one radian are given by their
 series, those of the other numbers by the addition theorems.
 */
module Md5Sines {
  import opened Bytes

  // ----- sines -----

  datatype Point = Point(sin: real, cos: real)

  // One over the factorial.
  function Inverse(n: nat): real {
    if n == 0 then 1.0 else Inverse(n - 1) / (n as real)
  }

  /** The first 2k terms of the series for the sine of one. */
  function SinSum(k: nat): real {
    if k == 0 then 0.0 else SinSum(k - 1) + Inverse(4 * k - 3) - Inverse(4 * k - 1)
  }

  /** The first 2k terms of the series for the cosine of one. */
  function CosSum(k: nat): real {
    if k == 0 then 0.0 else CosSum(k - 1) + Inverse(4 * k - 4) - Inverse(4 * k - 2)
  }

  /** Between the sums of 2k terms and of one more, where sine and cosine of one are for every k. */
  predicate Enclosed(one: Point, k: nat) {
    SinSum(k) <= one.sin <= SinSum(k) + Inverse(4 * k + 1) && CosSum(k) <= one.cos <= CosSum(k) + Inverse(4 * k)
  }

  /** The addition theorems. */
  function Plus(p: Point, q: Point): Point {
    Point(p.sin * q.cos + p.cos * q.sin, p.cos * q.cos - p.sin * q.sin)
  }

  function Angle(n: nat, one: Point): Point {
    if n == 0 then Point(0.0, 1.0) else Plus(Angle(n - 1, one), one)
  }

  function Abs(x: real): real {
    if x < 0.0 then -x else x
  }

  const TWO_TO_THE_32 := 4294967296.0

  /** The integer part of 2^32 times the absolute value. */
  predicate SineWord(x: real, word: nat) {
    word as real <= TWO_TO_THE_32 * Abs(x) < word as real + 1.0
  }

  // ----- approximations -----

  const STEP := 0.0000000000000000000000001
  const SIN := 0.8414709848078965066525023
  const COS := 0.5403023058681397174009366

  predicate Near(x: real, a: real, e: real) {
    -e <= x - a <= e
  }

  predicate NearPoint(p: Point, q: Point, e: real) {
    Near(p.sin, q.sin, e) && Near(p.cos, q.cos, e)
  }

  // One radian further, to within a step.
  predicate TurnsTo(q: Point, r: Point) {
    && Near(q.sin, 0.0, 1.0) && Near(q.cos, 0.0, 1.0)
    && Near(q.sin * COS + q.cos * SIN, r.sin, STEP) && Near(q.cos * COS - q.sin * SIN, r.cos, STEP)
  }

  lemma ProductNear(x: real, y: real, p: real, q: real)
    requires Near(x, 0.0, p) && Near(y, 0.0, q)
    ensures Near(x * y, 0.0, p * q)
  {
    var u, v := Abs(x), Abs(y);
    assert u * v <= p * v <= p * q;
  }

  lemma Expanded(a: real, c: real, x: real, v: real, a': real, c': real)
    requires a' == a + x && c' == c + v
    ensures a' * c' == a * c + c * x + a * v + x * v
  {
    assert a' * c' == (a + x) * (c + v);
  }

  // The error of a product.
  lemma FactorsNear(a: real, c: real, x: real, v: real, a': real, c': real, e: real, p: real)
    requires Near(a, 0.0, 1.0) && Near(c, 0.0, p) && Near(x, 0.0, e) && Near(v, 0.0, STEP) && 0.0 <= e <= 1.0
    requires a' == a + x && c' == c + v
    ensures Near(a' * c', a * c, p * e + 2.0 * STEP)
  {
    ProductNear(c, x, p, e);
    ProductNear(a, v, 1.0, STEP);
    ProductNear(x, v, 1.0, STEP);
    Expanded(a, c, x, v, a', c');
  }

  // The error of a sum of two products.
  lemma SumNear(a: real, b: real, c: real, s: real, a': real, b': real, c': real, s': real, e: real)
    requires Near(a, 0.0, 1.0) && Near(b, 0.0, 1.0) && Near(c, 0.0, 0.55) && Near(s, 0.0, 0.85)
    requires Near(a', a, e) && Near(b', b, e) && Near(c', c, STEP) && Near(s', s, STEP)
    requires 50.0 * STEP <= e <= 1.0
    ensures Near(a' * c' + b' * s', a * c + b * s, 1.5 * e - STEP)
  {
    FactorsNear(a, c, a' - a, c' - c, a', c', e, 0.55);
    FactorsNear(b, s, b' - b, s' - s, b', s', e, 0.85);
  }

  lemma Negated(x: real, y: real)
    ensures -x * y == -(x * y)
  {}

  lemma SineNear(a: real, b: real, c: real, s: real, a': real, b': real, c': real, s': real, x: real, e: real)
    requires Near(a, 0.0, 1.0) && Near(b, 0.0, 1.0) && Near(c, 0.0, 0.55) && Near(s, 0.0, 0.85)
    requires Near(a', a, e) && Near(b', b, e) && Near(c', c, STEP) && Near(s', s, STEP)
    requires 50.0 * STEP <= e <= 1.0 && Near(a * c + b * s, x, STEP)
    ensures Near(a' * c' + b' * s', x, 1.5 * e)
  {
    SumNear(a, b, c, s, a', b', c', s', e);
  }

  lemma CosineNear(a: real, b: real, c: real, s: real, a': real, b': real, c': real, s': real, x: real, e: real)
    requires Near(a, 0.0, 1.0) && Near(b, 0.0, 1.0) && Near(c, 0.0, 0.55) && Near(s, 0.0, 0.85)
    requires Near(a', a, e) && Near(b', b, e) && Near(c', c, STEP) && Near(s', s, STEP)
    requires 50.0 * STEP <= e <= 1.0 && Near(b * c - a * s, x, STEP)
    ensures Near(b' * c' - a' * s', x, 1.5 * e)
  {
    Negated(a, s);
    Negated(a', s');
    SineNear(b, -a, c, s, b', -a', c', s', x, e);
  }

  lemma TurnSine(p: Point, one: Point, q: Point, r: Point, e: real)
    requires NearPoint(p, q, e) && NearPoint(one, Point(SIN, COS), STEP) && TurnsTo(q, r) && 50.0 * STEP <= e <= 1.0
    ensures Near(p.sin * one.cos + p.cos * one.sin, r.sin, 1.5 * e)
  {
    SineNear(q.sin, q.cos, COS, SIN, p.sin, p.cos, one.cos, one.sin, r.sin, e);
  }

  lemma TurnCosine(p: Point, one: Point, q: Point, r: Point, e: real)
    requires NearPoint(p, q, e) && NearPoint(one, Point(SIN, COS), STEP) && TurnsTo(q, r) && 50.0 * STEP <= e <= 1.0
    ensures Near(p.cos * one.cos - p.sin * one.sin, r.cos, 1.5 * e)
  {
    CosineNear(q.sin, q.cos, COS, SIN, p.sin, p.cos, one.cos, one.sin, r.cos, e);
  }

  /** With every radian the error grows by half at most. */
  lemma TurnNear(p: Point, one: Point, q: Point, r: Point, e: real)
    requires NearPoint(p, q, e) && NearPoint(one, Point(SIN, COS), STEP) && TurnsTo(q, r) && 50.0 * STEP <= e <= 1.0
    ensures NearPoint(Plus(p, one), r, 1.5 * e)
  {
    TurnSine(p, one, q, r, e);
    TurnCosine(p, one, q, r, e);
  }

  // ----- the series -----

  lemma {:induction false} InverseFalls(n: nat)
    ensures 0.0 < Inverse(n + 1) <= Inverse(n)
  {
    if n > 0 {
      InverseFalls(n - 1);
    }
    var i, d := Inverse(n), (n + 1) as real;
    assert d >= 1.0 && i > 0.0;
    QuotientFalls(i, d);
  }

  lemma QuotientFalls(i: real, d: real)
    requires i > 0.0 && d >= 1.0
    ensures 0.0 < i / d <= i
  {
    var q := i / d;
    assert q * d == i;
  }

  // Later sums enclose less.
  lemma {:induction false} EnclosedBefore(one: Point, k: nat, n: nat)
    requires Enclosed(one, k) && n <= k
    ensures Enclosed(one, n)
    decreases k - n
  {
    if n < k {
      EnclosedBefore(one, k, n + 1);
      NextSums(n);
    }
  }

  lemma NextSums(k: nat)
    ensures SinSum(k) <= SinSum(k + 1) && SinSum(k + 1) + Inverse(4 * k + 5) <= SinSum(k) + Inverse(4 * k + 1)
    ensures CosSum(k) <= CosSum(k + 1) && CosSum(k + 1) + Inverse(4 * k + 4) <= CosSum(k) + Inverse(4 * k)
  {
    InverseFalls(4 * k);
    InverseFalls(4 * k + 1);
    InverseFalls(4 * k + 2);
    InverseFalls(4 * k + 3);
    InverseFalls(4 * k + 4);
    TwoTerms(k, Inverse(4 * k), Inverse(4 * k + 1), Inverse(4 * k + 2), Inverse(4 * k + 3));
  }

  // Two more terms of both series.
  lemma TwoTerms(j: nat, i: real, i1: real, i2: real, i3: real)
    requires Inverse(4 * j) == i && Inverse(4 * j + 1) == i1 && Inverse(4 * j + 2) == i2 && Inverse(4 * j + 3) == i3
    ensures SinSum(j + 1) == SinSum(j) + i1 - i3 && CosSum(j + 1) == CosSum(j) + i - i2
  {}

  // The first 2j terms of both series, and the next of the inverse factorials.
  predicate Sums(j: nat, i: real, s: real, c: real) {
    Inverse(4 * j) == i && SinSum(j) == s && CosSum(j) == c
  }

  lemma InverseAt(n: nat, d: real, i: real)
    requires n > 0 && d == n as real && Inverse(n - 1) == i * d
    ensures Inverse(n) == i
  {}

  lemma FourInverses(n: nat, d: real, i: real, i1: real, i2: real, i3: real, i4: real)
    requires d == n as real && Inverse(n) == i
    requires i == i1 * (d + 1.0) && i1 == i2 * (d + 2.0) && i2 == i3 * (d + 3.0) && i3 == i4 * (d + 4.0)
    ensures Inverse(n + 1) == i1 && Inverse(n + 2) == i2 && Inverse(n + 3) == i3 && Inverse(n + 4) == i4
  {
    InverseAt(n + 1, d + 1.0, i1);
    InverseAt(n + 2, d + 2.0, i2);
    InverseAt(n + 3, d + 3.0, i3);
    InverseAt(n + 4, d + 4.0, i4);
  }

  lemma TwoMore(j: nat, d: real, i: real, i1: real, i2: real, i3: real, i4: real, s: real, c: real,
                j': nat, s': real, c': real)
    requires Sums(j, i, s, c) && d == (4 * j) as real
    requires i == i1 * (d + 1.0) && i1 == i2 * (d + 2.0) && i2 == i3 * (d + 3.0) && i3 == i4 * (d + 4.0)
    requires j' == j + 1 && s' == s + i1 - i3 && c' == c + i - i2
    ensures Sums(j', i4, s', c')
  {
    FourInverses(4 * j, d, i, i1, i2, i3, i4);
    TwoTerms(j, i, i1, i2, i3);
  }

  // The sums of 2k terms and of one more are both within a step.
  predicate SumsNear(k: nat, o: Point) {
    && o.sin - STEP <= SinSum(k) && SinSum(k) + Inverse(4 * k + 1) <= o.sin + STEP
    && o.cos - STEP <= CosSum(k) && CosSum(k) + Inverse(4 * k) <= o.cos + STEP
  }

  lemma SumsNearBy(k: nat, d: real, i: real, i1: real, s: real, c: real, o: Point)
    requires Sums(k, i, s, c) && d == (4 * k + 1) as real && i == i1 * d
    requires o.sin - STEP <= s && s + i1 <= o.sin + STEP && o.cos - STEP <= c && c + i <= o.cos + STEP
    ensures SumsNear(k, o)
  {
    InverseAt(4 * k + 1, d, i1);
  }

  // The number of terms is a result here, so that the sums are not unrolled.
  lemma Sums1() returns (j: nat)
    ensures j == 1
    ensures Sums(j, 1.0 / 24.0,
                 5.0 / 6.0,
                 1.0 / 2.0)
  {
    var before := 0;
    j := 1;
    TwoMore(before, 0.0, 1.0, 1.0,
            1.0 / 2.0,
            1.0 / 6.0,
            1.0 / 24.0,
            0.0,
            0.0,
            j, 5.0 / 6.0,
            1.0 / 2.0);
  }

  lemma Sums2() returns (j: nat)
    ensures j == 2
    ensures Sums(j, 1.0 / 40320.0,
                 4241.0 / 5040.0,
                 389.0 / 720.0)
  {
    var before := Sums1();
    j := 2;
    TwoMore(before, 4.0, 1.0 / 24.0, 1.0 / 120.0,
            1.0 / 720.0,
            1.0 / 5040.0,
            1.0 / 40320.0,
            5.0 / 6.0,
            1.0 / 2.0,
            j, 4241.0 / 5040.0,
            389.0 / 720.0);
  }

  lemma Sums3() returns (j: nat)
    ensures j == 3
    ensures Sums(j, 1.0 / 479001600.0,
                 33588829.0 / 39916800.0,
                 1960649.0 / 3628800.0)
  {
    var before := Sums2();
    j := 3;
    TwoMore(before, 8.0, 1.0 / 40320.0, 1.0 / 362880.0,
            1.0 / 3628800.0,
            1.0 / 39916800.0,
            1.0 / 479001600.0,
            4241.0 / 5040.0,
            389.0 / 720.0,
            j, 33588829.0 / 39916800.0,
            1960649.0 / 3628800.0);
  }

  lemma Sums4() returns (j: nat)
    ensures j == 4
    ensures Sums(j, 1.0 / 20922789888000.0,
                 1100370038249.0 / 1307674368000.0,
                 47102631757.0 / 87178291200.0)
  {
    var before := Sums3();
    j := 4;
    TwoMore(before, 12.0, 1.0 / 479001600.0, 1.0 / 6227020800.0,
            1.0 / 87178291200.0,
            1.0 / 1307674368000.0,
            1.0 / 20922789888000.0,
            33588829.0 / 39916800.0,
            1960649.0 / 3628800.0,
            j, 1100370038249.0 / 1307674368000.0,
            47102631757.0 / 87178291200.0);
  }

  lemma Sums5() returns (j: nat)
    ensures j == 5
    ensures Sums(j, 1.0 / 2432902008176640000.0,
                 102360822438075317.0 / 121645100408832000.0,
                 691843455246877.0 / 1280474741145600.0)
  {
    var before := Sums4();
    j := 5;
    TwoMore(before, 16.0, 1.0 / 20922789888000.0, 1.0 / 355687428096000.0,
            1.0 / 6402373705728000.0,
            1.0 / 121645100408832000.0,
            1.0 / 2432902008176640000.0,
            1100370038249.0 / 1307674368000.0,
            47102631757.0 / 87178291200.0,
            j, 102360822438075317.0 / 121645100408832000.0,
            691843455246877.0 / 1280474741145600.0);
  }

  lemma Sums6() returns (j: nat)
    ensures j == 6
    ensures Sums(j, 1.0 / 620448401733239439360000.0,
                 4350744396907953273869.0 / 5170403347776995328000.0,
                 607300185015708631061.0 / 1124000727777607680000.0)
  {
    var before := Sums5();
    j := 6;
    TwoMore(before, 20.0, 1.0 / 2432902008176640000.0, 1.0 / 51090942171709440000.0,
            1.0 / 1124000727777607680000.0,
            1.0 / 25852016738884976640000.0,
            1.0 / 620448401733239439360000.0,
            102360822438075317.0 / 121645100408832000.0,
            691843455246877.0 / 1280474741145600.0,
            j, 4350744396907953273869.0 / 5170403347776995328000.0,
            607300185015708631061.0 / 1124000727777607680000.0);
  }

  lemma Sums7() returns (j: nat)
    ensures j == 7
    ensures Sums(j, 1.0 / 304888344611713860501504000000.0,
                 9162667699888149594768114701.0 / 10888869450418352160768000000.0,
                 217899306383636256824687449.0 / 403291461126605635584000000.0)
  {
    var before := Sums6();
    j := 7;
    TwoMore(before, 24.0, 1.0 / 620448401733239439360000.0, 1.0 / 15511210043330985984000000.0,
            1.0 / 403291461126605635584000000.0,
            1.0 / 10888869450418352160768000000.0,
            1.0 / 304888344611713860501504000000.0,
            4350744396907953273869.0 / 5170403347776995328000.0,
            607300185015708631061.0 / 1124000727777607680000.0,
            j, 9162667699888149594768114701.0 / 10888869450418352160768000000.0,
            217899306383636256824687449.0 / 403291461126605635584000000.0);
  }

  /** The sums of fourteen and of fifteen terms tell sine and cosine of one to within a step. */
  lemma SeriesNear() returns (k: nat)
    ensures k == 7 && SumsNear(k, Point(SIN, COS))
  {
    k := Sums7();
    SumsNearBy(k, 29.0, 1.0 / 304888344611713860501504000000.0,
               1.0 / 8841761993739701954543616000000.0,
               9162667699888149594768114701.0 / 10888869450418352160768000000.0,
               217899306383636256824687449.0 / 403291461126605635584000000.0, Point(SIN, COS));
  }

  lemma EnclosedNear(one: Point, k: nat, o: Point)
    requires Enclosed(one, k) && SumsNear(k, o)
    ensures NearPoint(one, o, STEP)
  {}

  // ----- the constants -----

  const LIMIT := 0.000000000001

  // Clear of the next word on either side.
  predicate Clear(x: real, word: nat) {
    word as real + 0.01 <= TWO_TO_THE_32 * Abs(x) <= word as real + 0.99
  }

  lemma ClearWord(y: real, x: real, word: nat)
    requires Near(y, x, LIMIT) && Clear(x, word)
    ensures SineWord(y, word)
  {}

  // The error after m radians.
  function Error(m: nat): real {
    if m == 0 then 50.0 * STEP else 1.5 * Error(m - 1)
  }

  lemma {:induction false} ErrorGrows(m: nat, n: nat)
    requires m <= n
    ensures 50.0 * STEP <= Error(m) <= Error(n)
    decreases n
  {
    if m < n {
      ErrorGrows(m, n - 1);
    } else if m > 0 {
      ErrorGrows(m - 1, n - 1);
    }
  }

  lemma FourTurns(m: nat)
    ensures Error(m + 4) == 5.0625 * Error(m)
  {
    assert Error(m + 2) == 2.25 * Error(m);
  }

  lemma SixteenTurns(m: nat)
    ensures Error(m + 16) == 656.8408355712890625 * Error(m)
  {
    FourTurns(m);
    FourTurns(m + 4);
    FourTurns(m + 8);
    FourTurns(m + 12);
  }

  lemma ErrorIsSmall(m: nat)
    requires m <= 64
    ensures 50.0 * STEP <= Error(m) <= LIMIT
  {
    ErrorGrows(m, 64);
    SixteenTurns(0);
    SixteenTurns(16);
    SixteenTurns(32);
    SixteenTurns(48);
  }

  // One radian further.
  lemma OneMore(m: nat, one: Point, q: Point, r: Point)
    requires m < 64 && NearPoint(one, Point(SIN, COS), STEP) && NearPoint(Angle(m, one), q, Error(m)) && TurnsTo(q, r)
    ensures NearPoint(Angle(m + 1, one), r, Error(m + 1)) && Near(Angle(m + 1, one).sin, r.sin, LIMIT)
  {
    ErrorIsSmall(m);
    ErrorIsSmall(m + 1);
    TurnNear(Angle(m, one), one, q, r, Error(m));
  }

  /** These words belong to the first angles, the last of which is close to the point. */
  ghost predicate Reached(s: seq<Word>, q: Point, one: Point) {
    && |s| <= 64 && NearPoint(one, Point(SIN, COS), STEP) && NearPoint(Angle(|s|, one), q, Error(|s|))
    && forall i :: 0 <= i < |s| ==> SineWord(Angle(i + 1, one).sin, s[i])
  }

  lemma WordReached(s: seq<Word>, q: Point, one: Point, r: Point, word: Word, s': seq<Word>)
    requires Reached(s, q, one) && |s| < 64 && TurnsTo(q, r) && Clear(r.sin, word) && s' == s + [word]
    ensures Reached(s', r, one)
  {
    OneMore(|s|, one, q, r);
    ClearWord(Angle(|s| + 1, one).sin, r.sin, word);
  }

  const ROUND1: seq<Word> := [
    0xd76aa478, 0xe8c7b756, 0x242070db, 0xc1bdceee,
    0xf57c0faf, 0x4787c62a, 0xa8304613, 0xfd469501,
    0x698098d8, 0x8b44f7af, 0xffff5bb1, 0x895cd7be,
    0x6b901122, 0xfd987193, 0xa679438e, 0x49b40821
  ]
  const ROUND2: seq<Word> := [
    0xf61e2562, 0xc040b340, 0x265e5a51, 0xe9b6c7aa,
    0xd62f105d, 0x02441453, 0xd8a1e681, 0xe7d3fbc8,
    0x21e1cde6, 0xc33707d6, 0xf4d50d87, 0x455a14ed,
    0xa9e3e905, 0xfcefa3f8, 0x676f02d9, 0x8d2a4c8a
  ]
  const ROUND3: seq<Word> := [
    0xfffa3942, 0x8771f681, 0x6d9d6122, 0xfde5380c,
    0xa4beea44, 0x4bdecfa9, 0xf6bb4b60, 0xbebfbc70,
    0x289b7ec6, 0xeaa127fa, 0xd4ef3085, 0x04881d05,
    0xd9d4d039, 0xe6db99e5, 0x1fa27cf8, 0xc4ac5665
  ]
  const ROUND4: seq<Word> := [
    0xf4292244, 0x432aff97, 0xab9423a7, 0xfc93a039,
    0x655b59c3, 0x8f0ccc92, 0xffeff47d, 0x85845dd1,
    0x6fa87e4f, 0xfe2ce6e0, 0xa3014314, 0x4e0811a1,
    0xf7537e82, 0xbd3af235, 0x2ad7d2bb, 0xeb86d391
  ]

  /** The 64 constants, in the order in which the operations use them. */
  const T: seq<Word> := ROUND1 + ROUND2 + ROUND3 + ROUND4

  lemma Words0(s: seq<Word>, one: Point)
    requires |s| == 0
    requires Reached(s, Point(0.0000000000000000000000000, 1.0000000000000000000000000), one)
    ensures Reached(s + [0xd76aa478, 0xe8c7b756, 0x242070db, 0xc1bdceee],
                    Point(-0.7568024953079282513726390, -0.6536436208636119146391681), one)
  {
    var s1 := s + [0xd76aa478];
    WordReached(s, Point(0.0000000000000000000000000, 1.0000000000000000000000000), one,
                Point(0.8414709848078965066525023, 0.5403023058681397174009366), 0xd76aa478, s1);
    var s2 := s1 + [0xe8c7b756];
    WordReached(s1, Point(0.8414709848078965066525023, 0.5403023058681397174009366), one,
                Point(0.9092974268256816953960198, -0.4161468365471423869975682), 0xe8c7b756, s2);
    var s3 := s2 + [0x242070db];
    WordReached(s2, Point(0.9092974268256816953960198, -0.4161468365471423869975682), one,
                Point(0.1411200080598672221007448, -0.9899924966004454572715727), 0x242070db, s3);
    var s4 := s3 + [0xc1bdceee];
    WordReached(s3, Point(0.1411200080598672221007448, -0.9899924966004454572715727), one,
                Point(-0.7568024953079282513726390, -0.6536436208636119146391681), 0xc1bdceee, s4);
    assert s4 == s + [0xd76aa478, 0xe8c7b756, 0x242070db, 0xc1bdceee];
  }

  lemma Words1(s: seq<Word>, one: Point)
    requires |s| == 4
    requires Reached(s, Point(-0.7568024953079282513726390, -0.6536436208636119146391681), one)
    ensures Reached(s + [0xf57c0faf, 0x4787c62a, 0xa8304613, 0xfd469501],
                    Point(0.9893582466233817778081234, -0.1455000338086135258688413), one)
  {
    var s1 := s + [0xf57c0faf];
    WordReached(s, Point(-0.7568024953079282513726390, -0.6536436208636119146391681), one,
                Point(-0.9589242746631384688931543, 0.2836621854632262644666391), 0xf57c0faf, s1);
    var s2 := s1 + [0x4787c62a];
    WordReached(s1, Point(-0.9589242746631384688931543, 0.2836621854632262644666391), one,
                Point(-0.2794154981989258728115554, 0.9601702866503660205456521), 0x4787c62a, s2);
    var s3 := s2 + [0xa8304613];
    WordReached(s2, Point(-0.2794154981989258728115554, 0.9601702866503660205456521), one,
                Point(0.6569865987187890903969989, 0.7539022543433046381411974), 0xa8304613, s3);
    var s4 := s3 + [0xfd469501];
    WordReached(s3, Point(0.6569865987187890903969989, 0.7539022543433046381411974), one,
                Point(0.9893582466233817778081234, -0.1455000338086135258688413), 0xfd469501, s4);
    assert s4 == s + [0xf57c0faf, 0x4787c62a, 0xa8304613, 0xfd469501];
  }

  lemma Words2(s: seq<Word>, one: Point)
    requires |s| == 8
    requires Reached(s, Point(0.9893582466233817778081234, -0.1455000338086135258688413), one)
    ensures Reached(s + [0x698098d8, 0x8b44f7af, 0xffff5bb1, 0x895cd7be],
                    Point(-0.5365729180004349716653741, 0.8438539587324921046539551), one)
  {
    var s1 := s + [0x698098d8];
    WordReached(s, Point(0.9893582466233817778081234, -0.1455000338086135258688413), one,
                Point(0.4121184852417565697562725, -0.9111302618846769883682945), 0x698098d8, s1);
    var s2 := s1 + [0x8b44f7af];
    WordReached(s1, Point(0.4121184852417565697562725, -0.9111302618846769883682945), one,
                Point(-0.5440211108893698134047475, -0.8390715290764524522588638), 0x8b44f7af, s2);
    var s3 := s2 + [0xffff5bb1];
    WordReached(s2, Point(-0.5440211108893698134047475, -0.8390715290764524522588638), one,
                Point(-0.9999902065507034570515647, 0.0044256979880507857483550), 0xffff5bb1, s3);
    var s4 := s3 + [0x895cd7be];
    WordReached(s3, Point(-0.9999902065507034570515647, 0.0044256979880507857483550), one,
                Point(-0.5365729180004349716653741, 0.8438539587324921046539551), 0x895cd7be, s4);
    assert s4 == s + [0x698098d8, 0x8b44f7af, 0xffff5bb1, 0x895cd7be];
  }

  lemma Words3(s: seq<Word>, one: Point)
    requires |s| == 12
    requires Reached(s, Point(-0.5365729180004349716653741, 0.8438539587324921046539551), one)
    ensures Reached(s + [0x6b901122, 0xfd987193, 0xa679438e, 0x49b40821],
                    Point(-0.2879033166650652947844561, -0.9576594803233846418996369), one)
  {
    var s1 := s + [0x6b901122];
    WordReached(s, Point(-0.5365729180004349716653741, 0.8438539587324921046539551), one,
                Point(0.4201670368266409218689549, 0.9074467814501962138526859), 0x6b901122, s1);
    var s2 := s1 + [0xfd987193];
    WordReached(s1, Point(0.4201670368266409218689549, 0.9074467814501962138526859), one,
                Point(0.9906073556948703078753545, 0.1367372182078335942489289), 0xfd987193, s2);
    var s3 := s2 + [0xa679438e];
    WordReached(s2, Point(0.9906073556948703078753545, 0.1367372182078335942489289), one,
                Point(0.6502878401571168658297401, -0.7596879128588212738481461), 0xa679438e, s3);
    var s4 := s3 + [0x49b40821];
    WordReached(s3, Point(0.6502878401571168658297401, -0.7596879128588212738481461), one,
                Point(-0.2879033166650652947844561, -0.9576594803233846418996369), 0x49b40821, s4);
    assert s4 == s + [0x6b901122, 0xfd987193, 0xa679438e, 0x49b40821];
  }

  lemma Words4(s: seq<Word>, one: Point)
    requires |s| == 16
    requires Reached(s, Point(-0.2879033166650652947844561, -0.9576594803233846418996369), one)
    ensures Reached(s + [0xf61e2562, 0xc040b340, 0x265e5a51, 0xe9b6c7aa],
                    Point(0.9129452507276276543760996, 0.4080820618133919860622677), one)
  {
    var s1 := s + [0xf61e2562];
    WordReached(s, Point(-0.2879033166650652947844561, -0.9576594803233846418996369), one,
                Point(-0.9613974918795568572616366, -0.2751633380515969222203426), 0xf61e2562, s1);
    var s2 := s1 + [0xc040b340];
    WordReached(s1, Point(-0.9613974918795568572616366, -0.2751633380515969222203426), one,
                Point(-0.7509872467716761037501558, 0.6603167082440801448160998), 0xc040b340, s2);
    var s3 := s2 + [0x265e5a51];
    WordReached(s2, Point(-0.7509872467716761037501558, 0.6603167082440801448160998), one,
                Point(0.1498772096629523297542393, 0.9887046181866692528983525), 0x265e5a51, s3);
    var s4 := s3 + [0xe9b6c7aa];
    WordReached(s3, Point(0.1498772096629523297542393, 0.9887046181866692528983525), one,
                Point(0.9129452507276276543760996, 0.4080820618133919860622677), 0xe9b6c7aa, s4);
    assert s4 == s + [0xf61e2562, 0xc040b340, 0x265e5a51, 0xe9b6c7aa];
  }

  lemma Words5(s: seq<Word>, one: Point)
    requires |s| == 20
    requires Reached(s, Point(0.9129452507276276543760996, 0.4080820618133919860622677), one)
    ensures Reached(s + [0xd62f105d, 0x02441453, 0xd8a1e681, 0xe7d3fbc8],
                    Point(-0.9055783620066238451357929, 0.4241790073369969759370508), one)
  {
    var s1 := s + [0xd62f105d];
    WordReached(s, Point(0.9129452507276276543760996, 0.4080820618133919860622677), one,
                Point(0.8366556385360560318664804, -0.5477292602242684213842709), 0xd62f105d, s1);
    var s2 := s1 + [0x02441453];
    WordReached(s1, Point(0.8366556385360560318664804, -0.5477292602242684213842709), one,
                Point(-0.0088513092904038759216903, -0.9999608263946371264541743), 0x02441453, s2);
    var s3 := s2 + [0xd8a1e681];
    WordReached(s2, Point(-0.0088513092904038759216903, -0.9999608263946371264541743), one,
                Point(-0.8462204041751706352413259, -0.5328330203333975552157574), 0xd8a1e681, s3);
    var s4 := s3 + [0xe7d3fbc8];
    WordReached(s3, Point(-0.8462204041751706352413259, -0.5328330203333975552157574), one,
                Point(-0.9055783620066238451357929, 0.4241790073369969759370508), 0xe7d3fbc8, s4);
    assert s4 == s + [0xd62f105d, 0x02441453, 0xd8a1e681, 0xe7d3fbc8];
  }

  lemma Words6(s: seq<Word>, one: Point)
    requires |s| == 24
    requires Reached(s, Point(-0.9055783620066238451357929, 0.4241790073369969759370508), one)
    ensures Reached(s + [0x21e1cde6, 0xc33707d6, 0xf4d50d87, 0x455a14ed],
                    Point(0.2709057883078690199863429, -0.9626058663135666019754525), one)
  {
    var s1 := s + [0x21e1cde6];
    WordReached(s, Point(-0.9055783620066238451357929, 0.4241790073369969759370508), one,
                Point(-0.1323517500977730289020050, 0.9912028118634735980832942), 0x21e1cde6, s1);
    var s2 := s1 + [0xc33707d6];
    WordReached(s1, Point(-0.1323517500977730289020050, 0.9912028118634735980832942), one,
                Point(0.7625584504796027375158229, 0.6469193223286403427213835), 0xc33707d6, s2);
    var s3 := s2 + [0xf4d50d87];
    WordReached(s2, Point(0.7625584504796027375158229, 0.6469193223286403427213835), one,
                Point(0.9563759284045030134323400, -0.2921388087338361933714047), 0xf4d50d87, s3);
    var s4 := s3 + [0x455a14ed];
    WordReached(s3, Point(0.9563759284045030134323400, -0.2921388087338361933714047), one,
                Point(0.2709057883078690199863429, -0.9626058663135666019754525), 0x455a14ed, s4);
    assert s4 == s + [0x21e1cde6, 0xc33707d6, 0xf4d50d87, 0x455a14ed];
  }

  lemma Words7(s: seq<Word>, one: Point)
    requires |s| == 28
    requires Reached(s, Point(0.2709057883078690199863429, -0.9626058663135666019754525), one)
    ensures Reached(s + [0xa9e3e905, 0xfcefa3f8, 0x676f02d9, 0x8d2a4c8a],
                    Point(0.5514266812416905506615579, 0.8342233605065102722155259), one)
  {
    var s1 := s + [0xa9e3e905];
    WordReached(s, Point(0.2709057883078690199863429, -0.9626058663135666019754525), one,
                Point(-0.6636338842129675021511730, -0.7480575296890003517651913), 0xa9e3e905, s1);
    var s2 := s1 + [0xfcefa3f8];
    WordReached(s1, Point(-0.6636338842129675021511730, -0.7480575296890003517651913), one,
                Point(-0.9880316240928617899877483, 0.1542514498875840507186621), 0xfcefa3f8, s2);
    var s3 := s2 + [0x676f02d9];
    WordReached(s2, Point(-0.9880316240928617899877483, 0.1542514498875840507186621), one,
                Point(-0.4040376453230650060487706, 0.9147423578045312789624353), 0x676f02d9, s3);
    var s4 := s3 + [0x8d2a4c8a];
    WordReached(s3, Point(-0.4040376453230650060487706, 0.9147423578045312789624353), one,
                Point(0.5514266812416905506615579, 0.8342233605065102722155259), 0x8d2a4c8a, s4);
    assert s4 == s + [0xa9e3e905, 0xfcefa3f8, 0x676f02d9, 0x8d2a4c8a];
  }

  lemma Words8(s: seq<Word>, one: Point)
    requires |s| == 32
    requires Reached(s, Point(0.5514266812416905506615579, 0.8342233605065102722155259), one)
    ensures Reached(s + [0xfffa3942, 0x8771f681, 0x6d9d6122, 0xfde5380c],
                    Point(-0.9917788534431157368352882, -0.1279636896274046810283279), one)
  {
    var s1 := s + [0xfffa3942];
    WordReached(s, Point(0.5514266812416905506615579, 0.8342233605065102722155259), one,
                Point(0.9999118601072671457280837, -0.0132767472230594789152201), 0xfffa3942, s1);
    var s2 := s1 + [0x8771f681];
    WordReached(s1, Point(0.9999118601072671457280837, -0.0132767472230594789152201), one,
                Point(0.5290826861200238208324867, -0.8485702747846051865999715), 0x8771f681, s2);
    var s3 := s2 + [0x6d9d6122];
    WordReached(s2, Point(0.5290826861200238208324867, -0.8485702747846051865999715), one,
                Point(-0.4281826694961510044067526, -0.9036922050915067598473039), 0x6d9d6122, s3);
    var s4 := s3 + [0xfde5380c];
    WordReached(s3, Point(-0.4281826694961510044067526, -0.9036922050915067598473039), one,
                Point(-0.9917788534431157368352882, -0.1279636896274046810283279), 0xfde5380c, s4);
    assert s4 == s + [0xfffa3942, 0x8771f681, 0x6d9d6122, 0xfde5380c];
  }

  lemma Words9(s: seq<Word>, one: Point)
    requires |s| == 36
    requires Reached(s, Point(-0.9917788534431157368352882, -0.1279636896274046810283279), one)
    ensures Reached(s + [0xa4beea44, 0x4bdecfa9, 0xf6bb4b60, 0xbebfbc70],
                    Point(0.7451131604793487869877088, -0.6669380616522618443840922), one)
  {
    var s1 := s + [0xa4beea44];
    WordReached(s, Point(-0.9917788534431157368352882, -0.1279636896274046810283279), one,
                Point(-0.6435381333569994606856695, 0.7654140519453433564910807), 0xa4beea44, s1);
    var s2 := s1 + [0x4bdecfa9];
    WordReached(s1, Point(-0.6435381333569994606856695, 0.7654140519453433564910807), one,
                Point(0.2963685787093853173922964, 0.9550736440472948575865355), 0x4bdecfa9, s2);
    var s3 := s2 + [0xf6bb4b60];
    WordReached(s2, Point(0.2963685787093853173922964, 0.9550736440472948575865355), one,
                Point(0.9637953862840877532606642, 0.2666429323599372515268256), 0xf6bb4b60, s3);
    var s4 := s3 + [0xbebfbc70];
    WordReached(s3, Point(0.9637953862840877532606642, 0.2666429323599372515268256), one,
                Point(0.7451131604793487869877088, -0.6669380616522618443840922), 0xbebfbc70, s4);
    assert s4 == s + [0xa4beea44, 0x4bdecfa9, 0xf6bb4b60, 0xbebfbc70];
  }

  lemma Words10(s: seq<Word>, one: Point)
    requires |s| == 40
    requires Reached(s, Point(0.7451131604793487869877088, -0.6669380616522618443840922), one)
    ensures Reached(s + [0x289b7ec6, 0xeaa127fa, 0xd4ef3085, 0x04881d05],
                    Point(0.0177019251054135778079539, 0.9998433086476912200690081), one)
  {
    var s1 := s + [0x289b7ec6];
    WordReached(s, Point(0.7451131604793487869877088, -0.6669380616522618443840922), one,
                Point(-0.1586226688047089871033168, -0.9873392775238264582288243), 0x289b7ec6, s1);
    var s2 := s1 + [0xeaa127fa];
    WordReached(s1, Point(-0.1586226688047089871033168, -0.9873392775238264582288243), one,
                Point(-0.9165215479156337858989883, -0.3999853149883512939547071), 0xeaa127fa, s2);
    var s3 := s2 + [0xd4ef3085];
    WordReached(s2, Point(-0.9165215479156337858989883, -0.3999853149883512939547071), one,
                Point(-0.8317747426285982882095776, 0.5551133015206256770448788), 0xd4ef3085, s3);
    var s4 := s3 + [0x04881d05];
    WordReached(s3, Point(-0.8317747426285982882095776, 0.5551133015206256770448788), one,
                Point(0.0177019251054135778079539, 0.9998433086476912200690081), 0x04881d05, s4);
    assert s4 == s + [0x289b7ec6, 0xeaa127fa, 0xd4ef3085, 0x04881d05];
  }

  lemma Words11(s: seq<Word>, one: Point)
    requires |s| == 44
    requires Reached(s, Point(0.0177019251054135778079539, 0.9998433086476912200690081), one)
    ensures Reached(s + [0xd9d4d039, 0xe6db99e5, 0x1fa27cf8, 0xc4ac5665],
                    Point(-0.7682546613236667990449648, -0.6401443394691997313129408), one)
  {
    var s1 := s + [0xd9d4d039];
    WordReached(s, Point(0.0177019251054135778079539, 0.9998433086476912200690081), one,
                Point(0.8509035245341184248623788, 0.5253219888177296960474640), 0xd9d4d039, s1);
    var s2 := s1 + [0xe6db99e5];
    WordReached(s1, Point(0.8509035245341184248623788, 0.5253219888177296960474640), one,
                Point(0.9017883476488091850332922, -0.4321779448847782949527760), 0xe6db99e5, s2);
    var s3 := s2 + [0x1fa27cf8];
    WordReached(s2, Point(0.9017883476488091850332922, -0.4321779448847782949527760), one,
                Point(0.1235731227452240040615293, -0.9923354691509287182797514), 0x1fa27cf8, s3);
    var s4 := s3 + [0xc4ac5665];
    WordReached(s3, Point(0.1235731227452240040615293, -0.9923354691509287182797514), one,
                Point(-0.7682546613236667990449648, -0.6401443394691997313129408), 0xc4ac5665, s4);
    assert s4 == s + [0xd9d4d039, 0xe6db99e5, 0x1fa27cf8, 0xc4ac5665];
  }

  lemma Words12(s: seq<Word>, one: Point)
    requires |s| == 48
    requires Reached(s, Point(-0.7682546613236667990449648, -0.6401443394691997313129408), one)
    ensures Reached(s + [0xf4292244, 0x432aff97, 0xab9423a7, 0xfc93a039],
                    Point(0.9866275920404852965875679, -0.1629907807957054810033294), one)
  {
    var s1 := s + [0xf4292244];
    WordReached(s, Point(-0.7682546613236667990449648, -0.6401443394691997313129408), one,
                Point(-0.9537526527594718183604226, 0.3005925437436370836870256), 0xf4292244, s1);
    var s2 := s1 + [0x432aff97];
    WordReached(s1, Point(-0.9537526527594718183604226, 0.3005925437436370836870256), one,
                Point(-0.2623748537039287859143935, 0.9649660284921132740689560), 0x432aff97, s2);
    var s3 := s2 + [0xab9423a7];
    WordReached(s2, Point(-0.2623748537039287859143935, 0.9649660284921132740689560), one,
                Point(0.6702291758433747344943442, 0.7421541968137825394673765), 0xab9423a7, s3);
    var s4 := s3 + [0xfc93a039];
    WordReached(s3, Point(0.6702291758433747344943442, 0.7421541968137825394673765), one,
                Point(0.9866275920404852965875679, -0.1629907807957054810033294), 0xfc93a039, s4);
    assert s4 == s + [0xf4292244, 0x432aff97, 0xab9423a7, 0xfc93a039];
  }

  lemma Words13(s: seq<Word>, one: Point)
    requires |s| == 52
    requires Reached(s, Point(0.9866275920404852965875679, -0.1629907807957054810033294), one)
    ensures Reached(s + [0x655b59c3, 0x8f0ccc92, 0xffeff47d, 0x85845dd1],
                    Point(-0.5215510020869118801874096, 0.8532201077225841139696801), one)
  {
    var s1 := s + [0x655b59c3];
    WordReached(s, Point(0.9866275920404852965875679, -0.1629907807957054810033294), one,
                Point(0.3959251501818341815033859, -0.9182827862121188911997252), 0x655b59c3, s1);
    var s2 := s1 + [0x8f0ccc92];
    WordReached(s1, Point(0.3959251501818341815033859, -0.9182827862121188911997252), one,
                Point(-0.5587890488516162458178705, -0.8293098328631501477278492), 0x8f0ccc92, s2);
    var s3 := s2 + [0xffeff47d];
    WordReached(s2, Point(-0.5587890488516162458178705, -0.8293098328631501477278492), one,
                Point(-0.9997551733586198365986305, 0.0221267562619557345635640), 0xffeff47d, s3);
    var s4 := s3 + [0x85845dd1];
    WordReached(s3, Point(-0.9997551733586198365986305, 0.0221267562619557345635640), one,
                Point(-0.5215510020869118801874096, 0.8532201077225841139696801), 0x85845dd1, s4);
    assert s4 == s + [0x655b59c3, 0x8f0ccc92, 0xffeff47d, 0x85845dd1];
  }

  lemma Words14(s: seq<Word>, one: Point)
    requires |s| == 56
    requires Reached(s, Point(-0.5215510020869118801874096, 0.8532201077225841139696801), one)
    ensures Reached(s + [0x6fa87e4f, 0xfe2ce6e0, 0xa3014314, 0x4e0811a1],
                    Point(-0.3048106211022167056256489, -0.9524129804151562926938155), one)
  {
    var s1 := s + [0x6fa87e4f];
    WordReached(s, Point(-0.5215510020869118801874096, 0.8532201077225841139696801), one,
                Point(0.4361647552478249590805341, 0.8998668269691937865029994), 0x6fa87e4f, s1);
    var s2 := s1 + [0xfe2ce6e0];
    WordReached(s1, Point(0.4361647552478249590805341, 0.8998668269691937865029994), one,
                Point(0.9928726480845371181650869, 0.1191801354488192854358437), 0xfe2ce6e0, s2);
    var s3 := s2 + [0xa3014314];
    WordReached(s2, Point(0.9928726480845371181650869, 0.1191801354488192854358437), one,
                Point(0.6367380071391378807712329, -0.7710802229758452293874342), 0xa3014314, s3);
    var s4 := s3 + [0x4e0811a1];
    WordReached(s3, Point(0.6367380071391378807712329, -0.7710802229758452293874342), one,
                Point(-0.3048106211022167056256489, -0.9524129804151562926938155), 0x4e0811a1, s4);
    assert s4 == s + [0x6fa87e4f, 0xfe2ce6e0, 0xa3014314, 0x4e0811a1];
  }

  lemma Words15(s: seq<Word>, one: Point)
    requires |s| == 60
    requires Reached(s, Point(-0.3048106211022167056256489, -0.9524129804151562926938155), one)
    ensures Reached(s + [0xf7537e82, 0xbd3af235, 0x2ad7d2bb, 0xeb86d391],
                    Point(0.9200260381967906833515353, 0.3918572304295500051617095), one)
  {
    var s1 := s + [0xf7537e82];
    WordReached(s, Point(-0.3048106211022167056256489, -0.9524129804151562926938155), one,
                Point(-0.9661177700083929470182867, -0.2581016359382674457012072), 0xf7537e82, s1);
    var s2 := s1 + [0xbd3af235];
    WordReached(s1, Point(-0.9661177700083929470182867, -0.2581016359382674457012072), one,
                Point(-0.7391806966492228672760161, 0.6735071623235862528878324), 0xbd3af235, s2);
    var s3 := s2 + [0x2ad7d2bb];
    WordReached(s2, Point(-0.7391806966492228672760161, 0.6735071623235862528878324), one,
                Point(0.1673557003028069215278380, 0.9858965815825496974386345), 0x2ad7d2bb, s3);
    var s4 := s3 + [0xeb86d391];
    WordReached(s3, Point(0.1673557003028069215278380, 0.9858965815825496974386345), one,
                Point(0.9200260381967906833515353, 0.3918572304295500051617095), 0xeb86d391, s4);
    assert s4 == s + [0xf7537e82, 0xbd3af235, 0x2ad7d2bb, 0xeb86d391];
  }

  lemma Round1(s: seq<Word>, one: Point)
    requires |s| == 0
    requires Reached(s, Point(0.0000000000000000000000000, 1.0000000000000000000000000), one)
    ensures Reached(s + ROUND1,
                    Point(-0.2879033166650652947844561, -0.9576594803233846418996369), one)
  {
    Words0(s, one);
    var s1 := s + [0xd76aa478, 0xe8c7b756, 0x242070db, 0xc1bdceee];
    Words1(s1, one);
    var s2 := s1 + [0xf57c0faf, 0x4787c62a, 0xa8304613, 0xfd469501];
    Words2(s2, one);
    var s3 := s2 + [0x698098d8, 0x8b44f7af, 0xffff5bb1, 0x895cd7be];
    Words3(s3, one);
    var s4 := s3 + [0x6b901122, 0xfd987193, 0xa679438e, 0x49b40821];
    assert s4 == s + ROUND1;
  }

  lemma Round2(s: seq<Word>, one: Point)
    requires |s| == 16
    requires Reached(s, Point(-0.2879033166650652947844561, -0.9576594803233846418996369), one)
    ensures Reached(s + ROUND2,
                    Point(0.5514266812416905506615579, 0.8342233605065102722155259), one)
  {
    Words4(s, one);
    var s1 := s + [0xf61e2562, 0xc040b340, 0x265e5a51, 0xe9b6c7aa];
    Words5(s1, one);
    var s2 := s1 + [0xd62f105d, 0x02441453, 0xd8a1e681, 0xe7d3fbc8];
    Words6(s2, one);
    var s3 := s2 + [0x21e1cde6, 0xc33707d6, 0xf4d50d87, 0x455a14ed];
    Words7(s3, one);
    var s4 := s3 + [0xa9e3e905, 0xfcefa3f8, 0x676f02d9, 0x8d2a4c8a];
    assert s4 == s + ROUND2;
  }

  lemma Round3(s: seq<Word>, one: Point)
    requires |s| == 32
    requires Reached(s, Point(0.5514266812416905506615579, 0.8342233605065102722155259), one)
    ensures Reached(s + ROUND3,
                    Point(-0.7682546613236667990449648, -0.6401443394691997313129408), one)
  {
    Words8(s, one);
    var s1 := s + [0xfffa3942, 0x8771f681, 0x6d9d6122, 0xfde5380c];
    Words9(s1, one);
    var s2 := s1 + [0xa4beea44, 0x4bdecfa9, 0xf6bb4b60, 0xbebfbc70];
    Words10(s2, one);
    var s3 := s2 + [0x289b7ec6, 0xeaa127fa, 0xd4ef3085, 0x04881d05];
    Words11(s3, one);
    var s4 := s3 + [0xd9d4d039, 0xe6db99e5, 0x1fa27cf8, 0xc4ac5665];
    assert s4 == s + ROUND3;
  }

  lemma Round4(s: seq<Word>, one: Point)
    requires |s| == 48
    requires Reached(s, Point(-0.7682546613236667990449648, -0.6401443394691997313129408), one)
    ensures Reached(s + ROUND4,
                    Point(0.9200260381967906833515353, 0.3918572304295500051617095), one)
  {
    Words12(s, one);
    var s1 := s + [0xf4292244, 0x432aff97, 0xab9423a7, 0xfc93a039];
    Words13(s1, one);
    var s2 := s1 + [0x655b59c3, 0x8f0ccc92, 0xffeff47d, 0x85845dd1];
    Words14(s2, one);
    var s3 := s2 + [0x6fa87e4f, 0xfe2ce6e0, 0xa3014314, 0x4e0811a1];
    Words15(s3, one);
    var s4 := s3 + [0xf7537e82, 0xbd3af235, 0x2ad7d2bb, 0xeb86d391];
    assert s4 == s + ROUND4;
  }

  lemma AllReached(one: Point) returns (q: Point)
    requires NearPoint(one, Point(SIN, COS), STEP)
    ensures Reached(T, q, one)
  {
    Round1([], one);
    assert [] + ROUND1 == ROUND1;
    Round2(ROUND1, one);
    Round3(ROUND1 + ROUND2, one);
    Round4(ROUND1 + ROUND2 + ROUND3, one);
    q := Point(0.9200260381967906833515353, 0.3918572304295500051617095);
  }

  /** With sine and cosine of one anywhere between sums of their series, from the fourteenth on, the i-th
      constant is the integer part of 2^32 times the absolute value of the sine of i + 1. */
  lemma ConstantsAreSines(i: nat, one: Point, k: nat)
    requires k >= 7 && Enclosed(one, k)
    ensures |T| == 64 && (i < 64 ==> SineWord(Angle(i + 1, one).sin, T[i]))
  {
    var n := SeriesNear();
    EnclosedBefore(one, k, n);
    EnclosedNear(one, n, Point(SIN, COS));
    var q := AllReached(one);
  }
}
