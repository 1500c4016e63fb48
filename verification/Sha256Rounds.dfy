/**
 The block compression of SHA-256 over any kind of word: the definition with shifting variables in
 section 6.2.2 of FIPS 180-4, and the in-place form with rotating indices that computes it.
 */
module Sha256Rounds {

  /** The operations on words. */
  datatype Ops<!W> = Ops(
    add: (W, W) -> W,
    ch: (W, W, W) -> W,
    maj: (W, W, W) -> W,
    bigSigma0: W -> W,
    bigSigma1: W -> W,
    smallSigma0: W -> W,
    smallSigma1: W -> W)

  ghost predicate Assoc<W>(o: Ops<W>, a: W, b: W, c: W) {
    o.add(o.add(a, b), c) == o.add(a, o.add(b, c))
  }

  ghost predicate Comm<W>(o: Ops<W>, a: W, b: W) {
    o.add(a, b) == o.add(b, a)
  }

  // Addition may be regrouped.
  ghost predicate Lawful<W(!new)>(o: Ops<W>) {
    && (forall a, b, c {:trigger Assoc(o, a, b, c)} :: Assoc(o, a, b, c))
    && (forall a, b {:trigger Comm(o, a, b)} :: Comm(o, a, b))
  }

  // ----- section 6.2.2 of FIPS 180-4 -----

  /** The eight working variables. */
  datatype Vars<W> = Vars(a: W, b: W, c: W, d: W, e: W, f: W, g: W, h: W)

  /** The message schedule: the words of the block, and those made from earlier ones. */
  function Schedule<W>(o: Ops<W>, m: seq<W>, t: nat): W
    requires |m| == 16
  {
    if t < 16 then m[t]
    else
      o.add(o.add(o.add(o.smallSigma1(Schedule(o, m, t - 2)), Schedule(o, m, t - 7)),
                  o.smallSigma0(Schedule(o, m, t - 15))),
            Schedule(o, m, t - 16))
  }

  /** Behind the words of the block, every word is made of those 16, 15, 7 and 2 places before it. */
  lemma ScheduleIs<W>(o: Ops<W>, m: seq<W>, t: nat)
    requires |m| == 16
    ensures t < 16 ==> Schedule(o, m, t) == m[t]
    ensures var w := i requires i >= 0 => Schedule(o, m, i);
            w(t + 16) == o.add(o.add(o.add(o.smallSigma1(w(t + 14)), w(t + 9)), o.smallSigma0(w(t + 1))), w(t))
  {}

  // The first n words of the schedule are there.
  ghost predicate Scheduled<W>(o: Ops<W>, w: seq<W>, m: seq<W>, n: nat)
    requires |m| == 16
  {
    n <= |w| && forall t {:trigger w[t]} :: 0 <= t < n ==> w[t] == Schedule(o, m, t)
  }

  // One round: all variables move on by one place.
  function Round<W>(o: Ops<W>, v: Vars<W>, k: W, w: W): Vars<W> {
    var t1 := o.add(o.add(o.add(o.add(v.h, o.bigSigma1(v.e)), o.ch(v.e, v.f, v.g)), k), w);
    var t2 := o.add(o.bigSigma0(v.a), o.maj(v.a, v.b, v.c));
    Vars(o.add(t1, t2), v.a, v.b, v.c, o.add(v.d, t1), v.e, v.f, v.g)
  }

  function Rounds<W>(o: Ops<W>, v: Vars<W>, k: seq<W>, m: seq<W>, n: nat): Vars<W>
    requires |k| == 64 && |m| == 16 && n <= 64
  {
    if n == 0 then v else Round(o, Rounds(o, v, k, m, n - 1), k[n - 1], Schedule(o, m, n - 1))
  }

  function AddVars<W>(o: Ops<W>, v: Vars<W>, r: Vars<W>): Vars<W> {
    Vars(o.add(v.a, r.a), o.add(v.b, r.b), o.add(v.c, r.c), o.add(v.d, r.d),
         o.add(v.e, r.e), o.add(v.f, r.f), o.add(v.g, r.g), o.add(v.h, r.h))
  }

  function Compress<W>(o: Ops<W>, v: Vars<W>, k: seq<W>, m: seq<W>): Vars<W>
    requires |k| == 64 && |m| == 16
  {
    AddVars(o, v, Rounds(o, v, k, m, |k|))
  }

  // ----- operations that agree -----

  ghost predicate Agree<W(!new)>(o: Ops<W>, p: Ops<W>) {
    && (forall x, y {:trigger o.add(x, y)} :: o.add(x, y) == p.add(x, y))
    && (forall x, y, z {:trigger o.ch(x, y, z)} :: o.ch(x, y, z) == p.ch(x, y, z))
    && (forall x, y, z {:trigger o.maj(x, y, z)} :: o.maj(x, y, z) == p.maj(x, y, z))
    && (forall x {:trigger o.bigSigma0(x)} :: o.bigSigma0(x) == p.bigSigma0(x))
    && (forall x {:trigger o.bigSigma1(x)} :: o.bigSigma1(x) == p.bigSigma1(x))
    && (forall x {:trigger o.smallSigma0(x)} :: o.smallSigma0(x) == p.smallSigma0(x))
    && (forall x {:trigger o.smallSigma1(x)} :: o.smallSigma1(x) == p.smallSigma1(x))
  }

  lemma {:induction false} ScheduleAgrees<W(!new)>(o: Ops<W>, p: Ops<W>, m: seq<W>, t: nat)
    requires Agree(o, p) && |m| == 16
    ensures Schedule(o, m, t) == Schedule(p, m, t)
  {
    if t >= 16 {
      ScheduleAgrees(o, p, m, t - 2);
      ScheduleAgrees(o, p, m, t - 7);
      ScheduleAgrees(o, p, m, t - 15);
      ScheduleAgrees(o, p, m, t - 16);
    }
  }

  lemma {:induction false} RoundsAgree<W(!new)>(o: Ops<W>, p: Ops<W>, v: Vars<W>, k: seq<W>, m: seq<W>, n: nat)
    requires Agree(o, p) && |k| == 64 && |m| == 16 && n <= 64
    ensures Rounds(o, v, k, m, n) == Rounds(p, v, k, m, n)
  {
    if n > 0 {
      RoundsAgree(o, p, v, k, m, n - 1);
      ScheduleAgrees(o, p, m, n - 1);
    }
  }

  /** Equal operations give an equal compression. */
  lemma CompressAgrees<W(!new)>(o: Ops<W>, p: Ops<W>, v: Vars<W>, k: seq<W>, m: seq<W>)
    requires Agree(o, p) && |k| == 64 && |m| == 16
    ensures Compress(o, v, k, m) == Compress(p, v, k, m)
  {
    RoundsAgree(o, p, v, k, m, |k|);
  }

  // ----- the variables in an array that rotates -----

  function Get<W>(v: Vars<W>, j: nat): W
    requires j < 8
  {
    match j
    case 0 => v.a
    case 1 => v.b
    case 2 => v.c
    case 3 => v.d
    case 4 => v.e
    case 5 => v.f
    case 6 => v.g
    case 7 => v.h
  }

  // Where the j-th variable is after n rounds.
  function Slot(n: nat, j: nat): (i: nat)
    requires n <= 16 && j < 8
    ensures i < 8
  {
    (64 - n + j) % 8
  }

  /** The array holds the variables, rotated by the number of rounds. */
  ghost predicate Holds<W>(s: seq<W>, n: nat, v: Vars<W>)
    requires n <= 16
  {
    |s| == 8 && forall j :: 0 <= j < 8 ==> s[Slot(n, j)] == Get(v, j)
  }

  lemma ApartModEight(k: nat, l: nat)
    requires k < l < k + 8
    ensures k % 8 != l % 8
  {}

  // After one more round every variable has moved on by one place; after sixteen all are back.
  lemma SlotsMove(n: nat)
    requires n < 16
    ensures Slot(n + 1, 0) == Slot(n, 7)
    ensures forall j :: 0 <= j < 7 ==> Slot(n + 1, j + 1) == Slot(n, j)
    ensures forall i, j :: 0 <= i < j < 8 ==> Slot(n, i) != Slot(n, j)
    ensures forall j :: 0 <= j < 8 ==> Slot(16, j) == Slot(0, j) == j
  {
    forall i, j | 0 <= i < j < 8
      ensures Slot(n, i) != Slot(n, j)
    {
      ApartModEight(64 - n + i, 64 - n + j);
    }
  }

  lemma AllAreBack<W>(s: seq<W>, v: Vars<W>)
    requires Holds(s, 16, v)
    ensures Holds(s, 0, v)
  {
    SlotsMove(0);
  }

  // The round with its sums grouped as the program forms them.
  function GroupedRound<W>(o: Ops<W>, v: Vars<W>, kw: W): Vars<W> {
    var h := o.add(v.h, o.add(o.add(o.bigSigma1(v.e), o.ch(v.e, v.f, v.g)), kw));
    Vars(o.add(h, o.add(o.bigSigma0(v.a), o.maj(v.a, v.b, v.c))), v.a, v.b, v.c, o.add(v.d, h), v.e, v.f, v.g)
  }

  lemma GroupedRoundIsRound<W(!new)>(o: Ops<W>, v: Vars<W>, k: W, w: W)
    requires Lawful(o)
    ensures GroupedRound(o, v, o.add(w, k)) == Round(o, v, k, w)
  {
    var s, c := o.bigSigma1(v.e), o.ch(v.e, v.f, v.g);
    assert Comm(o, w, k) && Assoc(o, v.h, o.add(s, c), o.add(k, w));
    assert Assoc(o, v.h, s, c) && Assoc(o, o.add(o.add(v.h, s), c), k, w);
  }

  // One round in place, on the array that rotates.
  method Rnd<W>(o: Ops<W>, s: array<W>, n: nat, kw: W, ghost v: Vars<W>)
    requires n < 16 && s.Length == 8 && Holds(s[..], n, v)
    modifies s
    ensures Holds(s[..], n + 1, GroupedRound(o, v, kw))
  {
    var a, b, c, d := Slot(n, 0), Slot(n, 1), Slot(n, 2), Slot(n, 3);
    var e, f, g, h := Slot(n, 4), Slot(n, 5), Slot(n, 6), Slot(n, 7);
    SlotsMove(n);
    s[h] := o.add(s[h], o.add(o.add(o.bigSigma1(s[e]), o.ch(s[e], s[f], s[g])), kw));
    s[d] := o.add(s[d], s[h]);
    s[h] := o.add(s[h], o.add(o.bigSigma0(s[a]), o.maj(s[a], s[b], s[c])));
    ghost var r := GroupedRound(o, v, kw);
    forall j | 0 <= j < 8
      ensures s[Slot(n + 1, j)] == Get(r, j)
    {
      if j > 0 {
        assert Slot(n + 1, (j - 1) + 1) == Slot(n, j - 1);
      }
    }
  }

  // ----- the whole compression, in place -----

  function ToVars<W>(s: seq<W>): Vars<W>
    requires |s| == 8
  {
    Vars(s[0], s[1], s[2], s[3], s[4], s[5], s[6], s[7])
  }

  lemma NextRound<W(!new)>(o: Ops<W>, v: Vars<W>, k: seq<W>, m: seq<W>, w: seq<W>, n: nat)
    requires Lawful(o) && |k| == 64 && |m| == 16 && n < 64 && Scheduled(o, w, m, n + 1)
    ensures GroupedRound(o, Rounds(o, v, k, m, n), o.add(w[n], k[n])) == Rounds(o, v, k, m, n + 1)
  {
    GroupedRoundIsRound(o, Rounds(o, v, k, m, n), k[n], w[n]);
  }

  // Sixteen rounds, with the schedule that is there.
  method SixteenRounds<W(!new)>(o: Ops<W>, s: array<W>, w: array<W>, k: seq<W>, ii: nat, ghost v: Vars<W>,
                                ghost m: seq<W>)
    requires Lawful(o) && s.Length == 8 && w.Length == 64 && s != w && |k| == 64 && |m| == 16 && ii <= 48
    requires Scheduled(o, w[..], m, ii + 16)
    requires Holds(s[..], 0, Rounds(o, v, k, m, ii))
    modifies s
    ensures Holds(s[..], 0, Rounds(o, v, k, m, ii + 16))
  {
    for i := 0 to 16
      invariant Holds(s[..], i, Rounds(o, v, k, m, ii + i))
    {
      ghost var r := Rounds(o, v, k, m, ii + i);
      NextRound(o, v, k, m, w[..], ii + i);
      Rnd(o, s, i, o.add(w[i + ii], k[i + ii]), r);
    }
    AllAreBack(s[..], Rounds(o, v, k, m, ii + 16));
  }

  // Sixteen more words of the schedule.
  method ExtendSchedule<W>(o: Ops<W>, w: array<W>, ii: nat, ghost m: seq<W>)
    requires w.Length == 64 && |m| == 16 && ii <= 32
    requires Scheduled(o, w[..], m, ii + 16)
    modifies w
    ensures Scheduled(o, w[..], m, ii + 32)
  {
    for i := 0 to 16
      invariant Scheduled(o, w[..], m, ii + 16 + i)
    {
      var sum := o.add(o.add(o.smallSigma1(w[i + ii + 14]), w[i + ii + 9]), o.smallSigma0(w[i + ii + 1]));
      w[i + ii + 16] := o.add(sum, w[i + ii]);
    }
  }

  // A fresh array that begins with the words.
  method Filled<W>(m: seq<W>, size: nat) returns (w: array<W>)
    requires 0 < |m| <= size
    ensures fresh(w) && w.Length == size && w[..|m|] == m
  {
    w := new W[size](_ => m[0]);
    for t := 0 to |m|
      invariant w[..t] == m[..t]
    {
      w[t] := m[t];
    }
  }

  // All rounds, sixteen at a time; the schedule is extended between them.
  method AllRounds<W(!new)>(o: Ops<W>, s: array<W>, w: array<W>, k: seq<W>, ghost v: Vars<W>, ghost m: seq<W>)
    requires Lawful(o) && s.Length == 8 && w.Length == 64 && s != w && |k| == 64 && |m| == 16
    requires w[..16] == m && Holds(s[..], 0, v)
    modifies s, w
    ensures Holds(s[..], 0, Rounds(o, v, k, m, |k|))
  {
    assert forall t :: 0 <= t < 16 ==> w[..][t] == w[..16][t];
    var i := 0;
    ghost var j := 0;
    assert Rounds(o, v, k, m, i) == v;
    while i < 48
      invariant i == 16 * j && j <= 3
      invariant Scheduled(o, w[..], m, i + 16)
      invariant Holds(s[..], 0, Rounds(o, v, k, m, i))
    {
      SixteenRounds(o, s, w, k, i, v, m);
      ExtendSchedule(o, w, i, m);
      i, j := i + 16, j + 1;
    }
    SixteenRounds(o, s, w, k, i, v, m);
    assert i + 16 == |k|;
  }

  // The working variables are added to the state.
  method MixIn<W>(o: Ops<W>, state: array<W>, s: array<W>, ghost v: Vars<W>, ghost r: Vars<W>)
    requires state.Length == 8 && s.Length == 8 && state != s && ToVars(state[..]) == v && Holds(s[..], 0, r)
    modifies state
    ensures ToVars(state[..]) == AddVars(o, v, r)
  {
    SlotsMove(0);
    for j := 0 to 8
      invariant forall n :: 0 <= n < j ==> state[n] == o.add(Get(v, n), Get(r, n))
      invariant forall n :: j <= n < 8 ==> state[n] == Get(v, n)
    {
      assert s[Slot(0, j)] == Get(r, j);
      state[j] := o.add(state[j], s[j]);
    }
  }

  /** The state is transformed by one block. */
  method Transform<W(!new)>(o: Ops<W>, state: array<W>, k: seq<W>, m: seq<W>)
    requires Lawful(o) && state.Length == 8 && |k| == 64 && |m| == 16
    modifies state
    ensures ToVars(state[..]) == Compress(o, old(ToVars(state[..])), k, m)
  {
    ghost var v := ToVars(state[..]);
    var w := Filled(m, 64);
    var s := Filled(state[..], 8);
    SlotsMove(0);
    assert s[..8] == s[..];
    AllRounds(o, s, w, k, v, m);
    MixIn(o, state, s, v, Rounds(o, v, k, m, |k|));
  }
}
