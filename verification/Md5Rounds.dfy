/**
 The block compression of MD5 over any kind of word: the 64 operations of section 3.4 of RFC 1321 given by
 their number, and the unrolled form in which the four registers change roles.
 */
module Md5Rounds {

  /** The operations on words; h2 is the other way of grouping h. */
  datatype Ops<!W> = Ops(
    add: (W, W) -> W,
    f: (W, W, W) -> W,
    g: (W, W, W) -> W,
    h: (W, W, W) -> W,
    h2: (W, W, W) -> W,
    i: (W, W, W) -> W,
    rotl: (W, nat) -> W)

  ghost predicate Assoc<W>(o: Ops<W>, a: W, b: W, c: W) {
    o.add(o.add(a, b), c) == o.add(a, o.add(b, c))
  }

  ghost predicate Comm<W>(o: Ops<W>, a: W, b: W) {
    o.add(a, b) == o.add(b, a)
  }

  ghost predicate SameH<W>(o: Ops<W>, a: W, b: W, c: W) {
    o.h2(a, b, c) == o.h(a, b, c)
  }

  // Sums and the third function may be regrouped.
  ghost predicate Lawful<W(!new)>(o: Ops<W>) {
    && (forall a, b, c {:trigger Assoc(o, a, b, c)} :: Assoc(o, a, b, c))
    && (forall a, b {:trigger Comm(o, a, b)} :: Comm(o, a, b))
    && (forall a, b, c {:trigger SameH(o, a, b, c)} :: SameH(o, a, b, c))
  }

  // ----- section 3.4 of RFC 1321 -----

  datatype Regs<W> = Regs(a: W, b: W, c: W, d: W)

  // The auxiliary function, the word of the block and the shift of the n-th operation.
  function Aux<W>(o: Ops<W>, n: nat): (W, W, W) -> W {
    if n < 16 then o.f else if n < 32 then o.g else if n < 48 then o.h else o.i
  }

  function Index(n: nat): (k: nat)
    ensures k < 16
  {
    if n < 16 then n
    else if n < 32 then (5 * n + 1) % 16
    else if n < 48 then (3 * n + 5) % 16
    else (7 * n) % 16
  }

  function Shift(n: nat): nat {
    if n < 16 then Turn(n, 7, 12, 17, 22)
    else if n < 32 then Turn(n, 5, 9, 14, 20)
    else if n < 48 then Turn(n, 4, 11, 16, 23)
    else Turn(n, 6, 10, 15, 21)
  }

  // Four shifts in turn.
  function Turn(n: nat, s0: nat, s1: nat, s2: nat, s3: nat): nat {
    if n % 4 == 0 then s0 else if n % 4 == 1 then s1 else if n % 4 == 2 then s2 else s3
  }

  // The words of the block in the order of each round after the first, and the shifts of each round.
  const SECOND: seq<nat> := [1, 6, 11, 0, 5, 10, 15, 4, 9, 14, 3, 8, 13, 2, 7, 12]
  const THIRD: seq<nat> := [5, 8, 11, 14, 1, 4, 7, 10, 13, 0, 3, 6, 9, 12, 15, 2]
  const FOURTH: seq<nat> := [0, 7, 14, 5, 12, 3, 10, 1, 8, 15, 6, 13, 4, 11, 2, 9]
  const SHIFTS: seq<seq<nat>> := [[7, 12, 17, 22], [5, 9, 14, 20], [4, 11, 16, 23], [6, 10, 15, 21]]

  /** The list of operations in section 3.4 of RFC 1321: 16 for each of the four functions. */
  lemma OperationsAre<W>(o: Ops<W>, n: nat)
    requires n < 16
    ensures Index(n) == n && Index(n + 16) == SECOND[n] && Index(n + 32) == THIRD[n] && Index(n + 48) == FOURTH[n]
    ensures Shift(n) == SHIFTS[0][n % 4] && Shift(n + 16) == SHIFTS[1][n % 4]
    ensures Shift(n + 32) == SHIFTS[2][n % 4] && Shift(n + 48) == SHIFTS[3][n % 4]
    ensures Aux(o, n) == o.f && Aux(o, n + 16) == o.g && Aux(o, n + 32) == o.h && Aux(o, n + 48) == o.i
  {}

  // One operation: the registers move on by one place.
  function Step<W>(o: Ops<W>, v: Regs<W>, mixed: W, x: W, t: W, s: nat): Regs<W> {
    Regs(v.d, o.add(v.b, o.rotl(o.add(o.add(o.add(v.a, mixed), x), t), s)), v.b, v.c)
  }

  function Steps<W>(o: Ops<W>, t: seq<W>, x: seq<W>, v: Regs<W>, n: nat): Regs<W>
    requires |t| == 64 && |x| == 16 && n <= 64
  {
    if n == 0 then v else NextStep(o, t, x, Steps(o, t, x, v, n - 1), n - 1)
  }

  function NextStep<W>(o: Ops<W>, t: seq<W>, x: seq<W>, u: Regs<W>, n: nat): Regs<W>
    requires |t| == 64 && |x| == 16 && n < 64
  {
    Step(o, u, Aux(o, n)(u.b, u.c, u.d), x[Index(n)], t[n], Shift(n))
  }

  function AddRegs<W>(o: Ops<W>, v: Regs<W>, r: Regs<W>): Regs<W> {
    Regs(o.add(r.a, v.a), o.add(r.b, v.b), o.add(r.c, v.c), o.add(r.d, v.d))
  }

  function Compress<W>(o: Ops<W>, t: seq<W>, x: seq<W>, v: Regs<W>): Regs<W>
    requires |t| == 64 && |x| == 16
  {
    AddRegs(o, v, Steps(o, t, x, v, |t|))
  }

  // ----- operations that agree -----

  ghost predicate Agree<W(!new)>(o: Ops<W>, p: Ops<W>) {
    && o.add == p.add && o.h == p.h && o.i == p.i && o.rotl == p.rotl
    && (forall x, y, z {:trigger o.f(x, y, z)} :: o.f(x, y, z) == p.f(x, y, z))
    && (forall x, y, z {:trigger o.g(x, y, z)} :: o.g(x, y, z) == p.g(x, y, z))
  }

  lemma {:induction false} StepsAgree<W(!new)>(o: Ops<W>, p: Ops<W>, t: seq<W>, x: seq<W>, v: Regs<W>, n: nat)
    requires Agree(o, p) && |t| == 64 && |x| == 16 && n <= 64
    ensures Steps(o, t, x, v, n) == Steps(p, t, x, v, n)
  {
    if n > 0 {
      StepsAgree(o, p, t, x, v, n - 1);
    }
  }

  /** Equal operations give an equal compression. */
  lemma CompressAgrees<W(!new)>(o: Ops<W>, p: Ops<W>, t: seq<W>, x: seq<W>, v: Regs<W>)
    requires Agree(o, p) && |t| == 64 && |x| == 16
    ensures Compress(o, t, x, v) == Compress(p, t, x, v)
  {
    StepsAgree(o, p, t, x, v, |t|);
  }

  // ----- the unrolled form -----

  // The new value of the register an operation changes.
  function Changed<W>(o: Ops<W>, a: W, b: W, mixed: W, x: W, t: W, s: nat): W {
    o.add(o.rotl(o.add(a, o.add(o.add(mixed, x), t)), s), b)
  }

  lemma ChangedIsStep<W(!new)>(o: Ops<W>, v: Regs<W>, mixed: W, x: W, t: W, s: nat)
    requires Lawful(o)
    ensures Step(o, v, mixed, x, t, s) == Regs(v.d, Changed(o, v.a, v.b, mixed, x, t, s), v.b, v.c)
  {
    assert Assoc(o, v.a, o.add(mixed, x), t) && Assoc(o, v.a, mixed, x);
    assert Comm(o, v.b, o.rotl(o.add(v.a, o.add(o.add(mixed, x), t)), s));
  }

  // The function that the program uses is the one of the operation.
  ghost predicate Uses<W(!new)>(o: Ops<W>, n: nat, f: (W, W, W) -> W) {
    f == Aux(o, n) || (f == o.h2 && Aux(o, n) == o.h)
  }

  lemma UsesAux<W(!new)>(o: Ops<W>, n: nat, f: (W, W, W) -> W, b: W, c: W, d: W)
    requires Lawful(o) && Uses(o, n, f)
    ensures f(b, c, d) == Aux(o, n)(b, c, d)
  {
    assert SameH(o, b, c, d);
  }

  /** Four operations; after them every register has its own role again. */
  method FourSteps<W(!new)>(o: Ops<W>, odd: (W, W, W) -> W, even: (W, W, W) -> W, v: Regs<W>, x: seq<W>, t: seq<W>,
                            n: nat, k0: nat, s0: nat, k1: nat, s1: nat, k2: nat, s2: nat, k3: nat, s3: nat,
                            ghost v0: Regs<W>)
    returns (r: Regs<W>)
    requires Lawful(o) && |t| == 64 && |x| == 16 && n <= 60
    requires k0 == Index(n) && k1 == Index(n + 1) && k2 == Index(n + 2) && k3 == Index(n + 3)
    requires s0 == Shift(n) && s1 == Shift(n + 1) && s2 == Shift(n + 2) && s3 == Shift(n + 3)
    requires Uses(o, n, odd) && Uses(o, n + 1, even) && Uses(o, n + 2, odd) && Uses(o, n + 3, even)
    requires v == Steps(o, t, x, v0, n)
    ensures r == Steps(o, t, x, v0, n + 4)
  {
    var a, b, c, d := v.a, v.b, v.c, v.d;
    OneStep(o, odd, t, x, Regs(a, b, c, d), n);
    a := Changed(o, a, b, odd(b, c, d), x[k0], t[n], s0);
    assert Regs(d, a, b, c) == Steps(o, t, x, v0, n + 1);
    OneStep(o, even, t, x, Regs(d, a, b, c), n + 1);
    d := Changed(o, d, a, even(a, b, c), x[k1], t[n + 1], s1);
    assert Regs(c, d, a, b) == Steps(o, t, x, v0, n + 2);
    OneStep(o, odd, t, x, Regs(c, d, a, b), n + 2);
    c := Changed(o, c, d, odd(d, a, b), x[k2], t[n + 2], s2);
    assert Regs(b, c, d, a) == Steps(o, t, x, v0, n + 3);
    OneStep(o, even, t, x, Regs(b, c, d, a), n + 3);
    b := Changed(o, b, c, even(c, d, a), x[k3], t[n + 3], s3);
    r := Regs(a, b, c, d);
  }

  lemma OneStep<W(!new)>(o: Ops<W>, f: (W, W, W) -> W, t: seq<W>, x: seq<W>, u: Regs<W>, n: nat)
    requires Lawful(o) && |t| == 64 && |x| == 16 && n < 64 && Uses(o, n, f)
    ensures NextStep(o, t, x, u, n)
            == Regs(u.d, Changed(o, u.a, u.b, f(u.b, u.c, u.d), x[Index(n)], t[n], Shift(n)), u.b, u.c)
  {
    UsesAux(o, n, f, u.b, u.c, u.d);
    ChangedIsStep(o, u, f(u.b, u.c, u.d), x[Index(n)], t[n], Shift(n));
  }

  method Round1<W(!new)>(o: Ops<W>, v: Regs<W>, x: seq<W>, t: seq<W>, ghost v0: Regs<W>) returns (r: Regs<W>)
    requires Lawful(o) && |t| == 64 && |x| == 16 && v == Steps(o, t, x, v0, 0)
    ensures r == Steps(o, t, x, v0, 16)
  {
    r := FourSteps(o, o.f, o.f, v, x, t, 0, 0, 7, 1, 12, 2, 17, 3, 22, v0);
    r := FourSteps(o, o.f, o.f, r, x, t, 4, 4, 7, 5, 12, 6, 17, 7, 22, v0);
    r := FourSteps(o, o.f, o.f, r, x, t, 8, 8, 7, 9, 12, 10, 17, 11, 22, v0);
    r := FourSteps(o, o.f, o.f, r, x, t, 12, 12, 7, 13, 12, 14, 17, 15, 22, v0);
  }

  method Round2<W(!new)>(o: Ops<W>, v: Regs<W>, x: seq<W>, t: seq<W>, ghost v0: Regs<W>) returns (r: Regs<W>)
    requires Lawful(o) && |t| == 64 && |x| == 16 && v == Steps(o, t, x, v0, 16)
    ensures r == Steps(o, t, x, v0, 32)
  {
    r := FourSteps(o, o.g, o.g, v, x, t, 16, 1, 5, 6, 9, 11, 14, 0, 20, v0);
    r := FourSteps(o, o.g, o.g, r, x, t, 20, 5, 5, 10, 9, 15, 14, 4, 20, v0);
    r := FourSteps(o, o.g, o.g, r, x, t, 24, 9, 5, 14, 9, 3, 14, 8, 20, v0);
    r := FourSteps(o, o.g, o.g, r, x, t, 28, 13, 5, 2, 9, 7, 14, 12, 20, v0);
  }

  method Round3<W(!new)>(o: Ops<W>, v: Regs<W>, x: seq<W>, t: seq<W>, ghost v0: Regs<W>) returns (r: Regs<W>)
    requires Lawful(o) && |t| == 64 && |x| == 16 && v == Steps(o, t, x, v0, 32)
    ensures r == Steps(o, t, x, v0, 48)
  {
    r := FourSteps(o, o.h, o.h2, v, x, t, 32, 5, 4, 8, 11, 11, 16, 14, 23, v0);
    r := FourSteps(o, o.h, o.h2, r, x, t, 36, 1, 4, 4, 11, 7, 16, 10, 23, v0);
    r := FourSteps(o, o.h, o.h2, r, x, t, 40, 13, 4, 0, 11, 3, 16, 6, 23, v0);
    r := FourSteps(o, o.h, o.h2, r, x, t, 44, 9, 4, 12, 11, 15, 16, 2, 23, v0);
  }

  method HalfRound4<W(!new)>(o: Ops<W>, v: Regs<W>, x: seq<W>, t: seq<W>, ghost v0: Regs<W>) returns (r: Regs<W>)
    requires Lawful(o) && |t| == 64 && |x| == 16 && v == Steps(o, t, x, v0, 48)
    ensures r == Steps(o, t, x, v0, 56)
  {
    r := FourSteps(o, o.i, o.i, v, x, t, 48, 0, 6, 7, 10, 14, 15, 5, 21, v0);
    r := FourSteps(o, o.i, o.i, r, x, t, 52, 12, 6, 3, 10, 10, 15, 1, 21, v0);
  }

  method Round4<W(!new)>(o: Ops<W>, v: Regs<W>, x: seq<W>, t: seq<W>, ghost v0: Regs<W>) returns (r: Regs<W>)
    requires Lawful(o) && |t| == 64 && |x| == 16 && v == Steps(o, t, x, v0, 48)
    ensures r == Steps(o, t, x, v0, 64)
  {
    r := HalfRound4(o, v, x, t, v0);
    r := FourSteps(o, o.i, o.i, r, x, t, 56, 8, 6, 15, 10, 6, 15, 13, 21, v0);
    r := FourSteps(o, o.i, o.i, r, x, t, 60, 4, 6, 11, 10, 2, 15, 9, 21, v0);
  }

  /** One block: all four rounds, then the registers from before are added. */
  method Transform<W(!new)>(o: Ops<W>, t: seq<W>, x: seq<W>, v: Regs<W>) returns (r: Regs<W>)
    requires Lawful(o) && |t| == 64 && |x| == 16
    ensures r == Compress(o, t, x, v)
  {
    r := Round1(o, v, x, t, v);
    r := Round2(o, r, x, t, v);
    r := Round3(o, r, x, t, v);
    r := Round4(o, r, x, t, v);
    r := AddRegs(o, v, r);
  }
}
