/**
 The numbers beside the constants of SHA-256 are the first 64 primes, and those beside the words of the
 initial state the first eight.
 */
module Sha256Primes {
  import opened Sha256Constants

  function Product(d: nat, e: nat): nat {
    d * e
  }

  ghost predicate IsPrime(n: nat) {
    n >= 2 && forall d: nat, e: nat {:trigger Product(d, e)} | Product(d, e) == n :: d < 2 || e < 2
  }

  // ----- the numbers that a sieve crosses out -----

  predicate CrossedBy(q: nat, n: nat)
    requires q > 0
  {
    n % q == 0 && n > q
  }

  predicate Crossed(n: nat) {
    || CrossedBy(2, n) || CrossedBy(3, n) || CrossedBy(5, n) || CrossedBy(7, n)
    || CrossedBy(11, n) || CrossedBy(13, n) || CrossedBy(17, n)
  }

  lemma By2(n: nat, k: nat)
    requires n == 2 * k && k >= 2
    ensures CrossedBy(2, n)
  {}

  lemma By3(n: nat, k: nat)
    requires n == 3 * k && k >= 2
    ensures CrossedBy(3, n)
  {}

  lemma By5(n: nat, k: nat)
    requires n == 5 * k && k >= 2
    ensures CrossedBy(5, n)
  {}

  lemma By7(n: nat, k: nat)
    requires n == 7 * k && k >= 2
    ensures CrossedBy(7, n)
  {}

  lemma By11(n: nat, k: nat)
    requires n == 11 * k && k >= 2
    ensures CrossedBy(11, n)
  {}

  lemma By13(n: nat, k: nat)
    requires n == 13 * k && k >= 2
    ensures CrossedBy(13, n)
  {}

  lemma By17(n: nat, k: nat)
    requires n == 17 * k && k >= 2
    ensures CrossedBy(17, n)
  {}

  lemma SmallFactor(n: nat, d: nat, e: nat)
    requires 2 <= d < 19 && e >= 2 && n == d * e
    ensures Crossed(n)
  {
    match d
    case 2 => By2(n, e);
    case 3 => By3(n, e);
    case 4 => By2(n, 2 * e);
    case 5 => By5(n, e);
    case 6 => By2(n, 3 * e);
    case 7 => By7(n, e);
    case 8 => By2(n, 4 * e);
    case 9 => By3(n, 3 * e);
    case 10 => By2(n, 5 * e);
    case 11 => By11(n, e);
    case 12 => By2(n, 6 * e);
    case 13 => By13(n, e);
    case 14 => By2(n, 7 * e);
    case 15 => By3(n, 5 * e);
    case 16 => By2(n, 8 * e);
    case 17 => By17(n, e);
    case 18 => By2(n, 9 * e);
  }

  // Of two factors of a number below the square of 19, one is below 19.
  lemma OneIsSmall(d: nat, e: nat)
    requires d * e < 361
    ensures d < 19 || e < 19
  {
    if d >= 19 && e >= 19 {
      LargeProduct(d, e);
    }
  }

  lemma LargeProduct(d: nat, e: nat)
    requires d >= 19 && e >= 19
    ensures d * e >= 361
  {
    assert d * e >= 19 * e;
  }

  lemma CrossedHasFactors(q: nat, n: nat)
    requires q >= 2 && CrossedBy(q, n)
    ensures n / q >= 2 && Product(q, n / q) == n
  {
    var k := n / q;
    assert n == q * k;
  }

  /** Below the square of 19, the primes are what the sieve leaves. */
  lemma SieveLeavesPrimes(n: nat)
    requires 2 <= n < 361
    ensures IsPrime(n) <==> !Crossed(n)
  {
    if Crossed(n) {
      var q := if CrossedBy(2, n) then 2 else if CrossedBy(3, n) then 3 else if CrossedBy(5, n) then 5
               else if CrossedBy(7, n) then 7 else if CrossedBy(11, n) then 11 else if CrossedBy(13, n) then 13 else 17;
      CrossedHasFactors(q, n);
    } else {
      forall d: nat, e: nat | Product(d, e) == n
        ensures d < 2 || e < 2
      {
        OneIsSmall(d, e);
        if 2 <= d < 19 && e >= 2 {
          SmallFactor(n, d, e);
        } else if 2 <= e < 19 && d >= 2 {
          SmallFactor(n, e, d);
        }
      }
    }
  }

  // ----- the numbers of a table -----

  function Numbers(t: Table): seq<nat> {
    if t.End? then [] else [t.prime] + Numbers(t.rest)
  }

  // Everything from one number up to another is crossed out; two at a time.
  predicate AllCrossed(low: nat, high: nat)
    decreases high - low
  {
    low >= high || (Crossed(low) && (low + 1 >= high || (Crossed(low + 1) && AllCrossed(low + 2, high))))
  }

  // The sieve leaves the second number and nothing between both.
  predicate NextIs(before: nat, p: nat) {
    before < p && AllCrossed(before + 1, p) && !Crossed(p)
  }

  // From one number on, the sieve leaves these.
  predicate Follow(before: nat, s: seq<nat>) {
    (s != [] ==> NextIs(before, s[0])) && forall i :: 0 < i < |s| ==> NextIs(s[i - 1], s[i])
  }

  function Last(before: nat, s: seq<nat>): nat {
    if s == [] then before else s[|s| - 1]
  }

  lemma {:induction false} CrossedBetween(low: nat, high: nat, p: nat)
    requires AllCrossed(low, high) && low <= p < high
    ensures Crossed(p)
    decreases high - low
  {
    if low + 1 < p {
      CrossedBetween(low + 2, high, p);
    }
  }

  lemma NextPrime(before: nat, q: nat, p: nat)
    requires 1 <= before && NextIs(before, q) && q < 361 && before < p <= q
    ensures IsPrime(p) <==> p == q
  {
    SieveLeavesPrimes(p);
    if p < q {
      CrossedBetween(before + 1, q, p);
    }
  }

  // What follows are the primes between both ends, each above all before it.
  lemma {:induction false} FollowArePrimes(before: nat, s: seq<nat>, p: nat)
    requires 1 <= before && Last(before, s) < 361 && Follow(before, s)
    ensures before <= Last(before, s)
    ensures p in s <==> before < p <= Last(before, s) && IsPrime(p)
  {
    if s != [] {
      var n := |s| - 1;
      var front, q := s[..n], s[n];
      assert s == front + [q] && NextIs(Last(before, front), q);
      FollowArePrimes(before, front, p);
      if Last(before, front) < p <= q {
        NextPrime(Last(before, front), q, p);
      }
    }
  }

  predicate Rising(s: seq<nat>) {
    forall i, j :: 0 <= i < j < |s| ==> s[i] < s[j]
  }

  lemma {:induction false} EarlierIsLess(before: nat, s: seq<nat>, i: nat, j: nat)
    requires Follow(before, s) && i < j < |s|
    ensures s[i] < s[j]
  {
    assert NextIs(s[j - 1], s[j]);
    if i < j - 1 {
      EarlierIsLess(before, s, i, j - 1);
    }
  }

  lemma FollowRise(before: nat, s: seq<nat>)
    requires Follow(before, s)
    ensures Rising(s)
  {
    forall i, j | 0 <= i < j < |s|
      ensures s[i] < s[j]
    {
      EarlierIsLess(before, s, i, j);
    }
  }

  lemma FollowFromOne(s: seq<nat>, last: nat, p: nat)
    requires Follow(1, s) && Last(1, s) == last < 361
    ensures Rising(s)
    ensures p in s <==> p <= last && IsPrime(p)
  {
    FollowRise(1, s);
    FollowArePrimes(1, s, p);
  }

  lemma FollowJoin(before: nat, s: seq<nat>, t: seq<nat>)
    requires Follow(before, s) && Follow(Last(before, s), t)
    ensures Follow(before, s + t) && Last(before, s + t) == Last(Last(before, s), t)
  {
    forall i | 0 < i < |s + t|
      ensures NextIs((s + t)[i - 1], (s + t)[i])
    {
      if i < |s| {
        assert NextIs(s[i - 1], s[i]);
      } else if i > |s| {
        assert NextIs(t[i - |s| - 1], t[i - |s|]);
      }
    }
  }

  predicate Row(before: nat, t: Table, last: nat) {
    |Numbers(t)| == 8 && Follow(before, Numbers(t)) && Last(before, Numbers(t)) == last
  }

  lemma Four(before: nat, a: nat, b: nat, c: nat, d: nat)
    requires NextIs(before, a) && NextIs(a, b) && NextIs(b, c) && NextIs(c, d)
    ensures Follow(before, [a, b, c, d])
  {}

  // A row of eight numbers, of which four follow and then four more.
  lemma Eight(before: nat, t: Table, a: nat, b: nat, c: nat, d: nat, e: nat, f: nat, g: nat, h: nat)
    requires Numbers(t) == [a, b, c, d, e, f, g, h]
    requires Follow(before, [a, b, c, d]) && Follow(d, [e, f, g, h])
    ensures Row(before, t, h)
  {
    FollowJoin(before, [a, b, c, d], [e, f, g, h]);
    assert Numbers(t) == [a, b, c, d] + [e, f, g, h];
  }

  // ----- the numbers row by row -----

  // The last number of the row before.
  function Limit(rows: nat): nat
    requires rows <= 8
  {
    match rows
    case 0 => 1
    case 1 => 19
    case 2 => 53
    case 3 => 89
    case 4 => 131
    case 5 => 173
    case 6 => 223
    case 7 => 263
    case 8 => 311
  }

  lemma Front0()
    ensures Follow(1, [2, 3, 5, 7])
  {
    Four(1, 2, 3, 5, 7);
  }

  lemma Back0()
    ensures Follow(7, [11, 13, 17, 19])
  {
    Four(7, 11, 13, 17, 19);
  }

  lemma Row0()
    ensures Row(1, Constants(0), 19)
  {
    Front0();
    Back0();
    Eight(1, Constants(0), 2, 3, 5, 7, 11, 13, 17, 19);
  }

  lemma Front1()
    ensures Follow(19, [23, 29, 31, 37])
  {
    Four(19, 23, 29, 31, 37);
  }

  lemma Back1()
    ensures Follow(37, [41, 43, 47, 53])
  {
    Four(37, 41, 43, 47, 53);
  }

  lemma Row1()
    ensures Row(19, Constants(1), 53)
  {
    Front1();
    Back1();
    Eight(19, Constants(1), 23, 29, 31, 37, 41, 43, 47, 53);
  }

  lemma Front2()
    ensures Follow(53, [59, 61, 67, 71])
  {
    Four(53, 59, 61, 67, 71);
  }

  lemma Back2()
    ensures Follow(71, [73, 79, 83, 89])
  {
    Four(71, 73, 79, 83, 89);
  }

  lemma Row2()
    ensures Row(53, Constants(2), 89)
  {
    Front2();
    Back2();
    Eight(53, Constants(2), 59, 61, 67, 71, 73, 79, 83, 89);
  }

  lemma Front3()
    ensures Follow(89, [97, 101, 103, 107])
  {
    Four(89, 97, 101, 103, 107);
  }

  lemma Back3()
    ensures Follow(107, [109, 113, 127, 131])
  {
    Four(107, 109, 113, 127, 131);
  }

  lemma Row3()
    ensures Row(89, Constants(3), 131)
  {
    Front3();
    Back3();
    Eight(89, Constants(3), 97, 101, 103, 107, 109, 113, 127, 131);
  }

  lemma Front4()
    ensures Follow(131, [137, 139, 149, 151])
  {
    Four(131, 137, 139, 149, 151);
  }

  lemma Back4()
    ensures Follow(151, [157, 163, 167, 173])
  {
    Four(151, 157, 163, 167, 173);
  }

  lemma Row4()
    ensures Row(131, Constants(4), 173)
  {
    Front4();
    Back4();
    Eight(131, Constants(4), 137, 139, 149, 151, 157, 163, 167, 173);
  }

  lemma Front5()
    ensures Follow(173, [179, 181, 191, 193])
  {
    Four(173, 179, 181, 191, 193);
  }

  lemma Back5()
    ensures Follow(193, [197, 199, 211, 223])
  {
    Four(193, 197, 199, 211, 223);
  }

  lemma Row5()
    ensures Row(173, Constants(5), 223)
  {
    Front5();
    Back5();
    Eight(173, Constants(5), 179, 181, 191, 193, 197, 199, 211, 223);
  }

  lemma Front6()
    ensures Follow(223, [227, 229, 233, 239])
  {
    Four(223, 227, 229, 233, 239);
  }

  lemma Back6()
    ensures Follow(239, [241, 251, 257, 263])
  {
    Four(239, 241, 251, 257, 263);
  }

  lemma Row6()
    ensures Row(223, Constants(6), 263)
  {
    Front6();
    Back6();
    Eight(223, Constants(6), 227, 229, 233, 239, 241, 251, 257, 263);
  }

  lemma Front7()
    ensures Follow(263, [269, 271, 277, 281])
  {
    Four(263, 269, 271, 277, 281);
  }

  lemma Back7()
    ensures Follow(281, [283, 293, 307, 311])
  {
    Four(281, 283, 293, 307, 311);
  }

  lemma Row7()
    ensures Row(263, Constants(7), 311)
  {
    Front7();
    Back7();
    Eight(263, Constants(7), 269, 271, 277, 281, 283, 293, 307, 311);
  }

  lemma RowFollows(row: nat)
    requires row < 8
    ensures Row(Limit(row), Constants(row), Limit(row + 1))
  {
    match row
    case 0 => Row0();
    case 1 => Row1();
    case 2 => Row2();
    case 3 => Row3();
    case 4 => Row4();
    case 5 => Row5();
    case 6 => Row6();
    case 7 => Row7();
  }

  // The numbers of the first rows.
  function RoundNumbers(rows: nat): seq<nat>
    requires rows <= 8
  {
    if rows == 0 then [] else RoundNumbers(rows - 1) + Numbers(Constants(rows - 1))
  }

  lemma RowBehind(s: seq<nat>, rows: nat, t: Table)
    requires rows < 8 && RowsAre(s, rows) && Row(Limit(rows), t, Limit(rows + 1))
    ensures RowsAre(s + Numbers(t), rows + 1)
  {
    FollowJoin(1, s, Numbers(t));
  }

  predicate RowsAre(s: seq<nat>, rows: nat)
    requires rows <= 8
  {
    |s| == 8 * rows && Follow(1, s) && Last(1, s) == Limit(rows)
  }

  lemma {:induction false} RowsFollow(rows: nat)
    requires rows <= 8
    ensures RowsAre(RoundNumbers(rows), rows)
  {
    if rows > 0 {
      RowsFollow(rows - 1);
      RowFollows(rows - 1);
      RowBehind(RoundNumbers(rows - 1), rows - 1, Constants(rows - 1));
    }
  }

  /** The numbers beside the round constants of the first rows are, in order, all the primes up to the last
      of them; the eight rows hold the first 64 primes, up to 311. */
  lemma FirstPrimes(rows: nat, p: nat)
    requires rows <= 8
    ensures |RoundNumbers(rows)| == 8 * rows && Rising(RoundNumbers(rows)) && Limit(8) == 311
    ensures p in RoundNumbers(rows) <==> p <= Limit(rows) && IsPrime(p)
  {
    RowsFollow(rows);
    FollowFromOne(RoundNumbers(rows), Limit(rows), p);
  }

  /** Those beside the initial words are the first eight of them. */
  lemma InitialPrimes()
    ensures Numbers(InitialState()) == Numbers(Constants(0)) && RoundNumbers(1) == Numbers(Constants(0))
  {
    assert RoundNumbers(0) == [];
  }
}
