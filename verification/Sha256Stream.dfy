/**
 The SHA-256 context of mkhash, fed piece by piece, for any kind of word. Whatever the pieces, the digest is
 the one defined on the whole message (sections 5.1.1, 5.2.1 and 6.2 of FIPS 180-4).
 */
module Sha256Stream {
  import opened Bytes
  import opened BlockStream
  import opened Sha256Rounds

  /** The words: their operations, the constants, and how they are read from and written to bytes. */
  datatype Algorithm<!W> = Algorithm(
    ops: Ops<W>,
    k: seq<W>,
    init: Vars<W>,
    zero: W,
    load: (Byte, Byte, Byte, Byte) -> W,
    store: W -> seq<Byte>)

  // ----- the definition on whole messages -----

  function BlockStep<W>(alg: Algorithm<W>): Step<Vars<W>>
    requires |alg.k| == 64
  {
    (v, block) => if |block| == 64 then Compress(alg.ops, v, alg.k, Words(alg.load, block)) else v
  }

  // The same, one block at a time.
  ghost predicate StepAt<W>(alg: Algorithm<W>, f: Step<Vars<W>>, v: Vars<W>, block: seq<Byte>)
    requires |alg.k| == 64
  {
    |block| == 64 ==> f(v, block) == Compress(alg.ops, v, alg.k, Words(alg.load, block))
  }

  ghost predicate IsStep<W(!new)>(alg: Algorithm<W>, f: Step<Vars<W>>)
    requires |alg.k| == 64
  {
    forall v, block {:trigger StepAt(alg, f, v, block)} :: StepAt(alg, f, v, block)
  }

  // The message, the padding, and the number of its bits modulo 2^64.
  function Padded(msg: seq<Byte>): seq<Byte> {
    msg + Padding(|msg|) + BigEndian(8 * |msg| % U64, 8)
  }

  // The first words of the state, written out in order.
  function Stored<W>(alg: Algorithm<W>, v: Vars<W>, n: nat): seq<Byte>
    requires n <= 8
  {
    if n == 0 then [] else Stored(alg, v, n - 1) + alg.store(Get(v, n - 1))
  }

  function Hash<W>(alg: Algorithm<W>, msg: seq<Byte>): seq<Byte>
    requires |alg.k| == 64
  {
    Stored(alg, Fold(BlockStep(alg), alg.init, Padded(msg)), 8)
  }

  /** The padded message fills whole blocks, begins with the message and a one bit, and ends with eight bytes
      that hold the number of bits, modulo 2^64; between them are zeros, fewer than a block. */
  lemma PaddedIs(msg: seq<Byte>, i: nat)
    ensures var p := Padded(msg);
            && |p| % 64 == 0 && |msg| + 9 <= |p| < |msg| + 9 + 64
            && p[..|msg|] == msg && p[|msg|] == 0x80 && (|msg| < i < |p| - 8 ==> p[i] == 0)
            && FromBigEndian(p[|p| - 8..]) == 8 * |msg| % U64
  {
    var p, length := Padded(msg), BigEndian(8 * |msg| % U64, 8);
    ZerosIsLeast(|msg|, 0);
    EightMore(|msg| + 1 + Zeros(|msg|));
    PaddingIs(|msg|, 0);
    if |msg| <= i < |p| - 8 {
      PaddingIs(|msg|, i - |msg|);
    }
    assert p[|p| - 8..] == length;
    assert Power256(8) == U64;
    BigEndianReads(8 * |msg| % U64, 8);
  }

  /** The digest is the eight words of the state in order. */
  lemma StoredIs<W>(alg: Algorithm<W>, v: Vars<W>)
    ensures Stored(alg, v, 8) == alg.store(v.a) + alg.store(v.b) + alg.store(v.c) + alg.store(v.d)
                                 + alg.store(v.e) + alg.store(v.f) + alg.store(v.g) + alg.store(v.h)
  {
    var s := alg.store;
    assert Stored(alg, v, 1) == s(v.a) by {
      assert Stored(alg, v, 0) == [] && [] + s(v.a) == s(v.a);
    }
    assert Stored(alg, v, 2) == s(v.a) + s(v.b);
    assert Stored(alg, v, 4) == s(v.a) + s(v.b) + s(v.c) + s(v.d);
    assert Stored(alg, v, 6) == s(v.a) + s(v.b) + s(v.c) + s(v.d) + s(v.e) + s(v.f);
  }

  // ----- algorithms that agree -----

  ghost predicate Alike<W(!new)>(a: Algorithm<W>, b: Algorithm<W>) {
    && Agree(a.ops, b.ops) && SameLoad(a.load, b.load) && SameStore(a.store, b.store)
    && a.k == b.k && a.init == b.init && |a.k| == 64
  }

  /** Equal operations give equal digests. */
  lemma HashAgrees<W(!new)>(a: Algorithm<W>, b: Algorithm<W>, msg: seq<Byte>)
    requires Alike(a, b)
    ensures Hash(a, msg) == Hash(b, msg)
  {
    var f, g := BlockStep(a), BlockStep(b);
    forall v, block: seq<Byte> {:trigger f(v, block)} | |block| == 64
      ensures f(v, block) == g(v, block)
    {
      WordsAgree(a.load, b.load, block);
      CompressAgrees(a.ops, b.ops, v, a.k, Words(a.load, block));
    }
    FoldAgrees(f, g, a.init, Padded(msg));
    StoredAgrees(a, b, Fold(f, a.init, Padded(msg)), 8);
  }

  lemma {:induction false} StoredAgrees<W(!new)>(a: Algorithm<W>, b: Algorithm<W>, v: Vars<W>, n: nat)
    requires SameStore(a.store, b.store) && n <= 8
    ensures Stored(a, v, n) == Stored(b, v, n)
  {
    if n > 0 {
      StoredAgrees(a, b, v, n - 1);
    }
  }

  // ----- counting -----

  // The count of bits tells how many bytes are left over, and adds up, though it wraps.
  lemma CountTells(n: nat, d: nat)
    ensures 8 * n % U64 / 8 % 64 == n % 64
    ensures (8 * n % U64 + 8 * d % U64) % U64 == 8 * (n + d) % U64
  {
    CountOfRest(n, 8 * n / U64, 8 * n % U64);
    WrapsOnce(8 * n, 8 * d);
  }

  lemma CountOfRest(n: nat, q: nat, c: nat)
    requires 8 * n == U64 * q + c
    ensures c / 8 % 64 == n % 64
  {
    var k := 0x80_0000_0000_0000 * q;
    assert n == 64 * k + c / 8;
    Multiples(k, c / 8);
  }

  lemma WrapsOnce(a: nat, b: nat)
    ensures (a % U64 + b % U64) % U64 == (a + b) % U64
  {
    assert a + b == U64 * (a / U64 + b / U64) + a % U64 + b % U64;
  }

  // The count is stored in big-endian order.
  lemma LengthBytes(count: nat)
    ensures Encode64(count) == BigEndian(count, 8)
  {
    EncodeIsBigEndian(count % U32, count / U32, 8);
  }

  // ----- the context -----

  class Context<W(!new)> {
    const alg: Algorithm<W>
    const state: array<W>
    const buf: array<Byte>
    var count: nat
    ghost const step: Step<Vars<W>>
    ghost var input: seq<Byte>

    ghost predicate Ready() {
      |alg.k| == 64 && Lawful(alg.ops) && IsStep(alg, step) && state.Length == 8 && buf.Length == 64
    }

    // The state has every whole block of the input, the buffer the bytes behind them, the count all bits.
    ghost predicate Valid()
      reads this, state, buf
    {
      Ready() && count == 8 * |input| % U64 && Absorbed(step, alg.init, ToVars(state[..]), buf[..], input)
    }

    constructor (alg: Algorithm<W>)
      requires |alg.k| == 64 && Lawful(alg.ops)
      ensures Valid() && input == [] && this.alg == alg && step == BlockStep(alg) && fresh(state) && fresh(buf)
    {
      this.alg := alg;
      var v := alg.init;
      this.state := new W[][v.a, v.b, v.c, v.d, v.e, v.f, v.g, v.h];
      this.buf := new Byte[64];
      this.count := 0;
      this.step := BlockStep(alg);
      this.input := [];
    }

    // Reads the words of a block and transforms the state.
    method TransformBlock(block: seq<Byte>)
      requires Ready() && |block| == 64
      modifies state
      ensures ToVars(state[..]) == step(old(ToVars(state[..])), block)
    {
      var m := [];
      for i := 0 to 16
        invariant |m| == i && forall j :: 0 <= j < i ==> m[j] == Words(alg.load, block)[j]
      {
        m := m + [WordAt(alg.load, block, i)];
      }
      assert m == Words(alg.load, block);
      assert StepAt(alg, step, ToVars(state[..]), block);
      Transform(alg.ops, state, alg.k, m);
    }

    // Transforms by all whole blocks and gives the bytes behind them.
    method Blocks(data: seq<Byte>) returns (rest: seq<Byte>)
      requires Ready()
      modifies state
      ensures ToVars(state[..]) == Fold(step, old(ToVars(state[..])), data)
      ensures rest == Rest(data)
    {
      rest := data;
      while |rest| >= 64
        invariant Fold(step, ToVars(state[..]), rest) == Fold(step, old(ToVars(state[..])), data)
        invariant Rest(rest) == Rest(data)
      {
        RestJoin(rest[..64], rest[64..]);
        assert rest[..64] + rest[64..] == rest;
        TransformBlock(rest[..64]);
        rest := rest[64..];
      }
      RestOfShort(rest);
    }

    /** Adds bytes; whatever came before, the context stands for all of them together. */
    method Update(data: seq<Byte>)
      requires Valid()
      modifies this, state, buf
      ensures Valid() && input == old(input) + data
    {
      var r := count / 8 % 64;
      CountTells(|input|, |data|);
      RestLength(input);
      count := (count + 8 * |data| % U64) % U64;
      Absorb(r, data);
      input := input + data;
    }

    method Absorb(r: nat, data: seq<Byte>)
      requires Ready() && r == |Rest(input)| && Absorbed(step, alg.init, ToVars(state[..]), buf[..], input)
      modifies state, buf
      ensures Absorbed(step, alg.init, ToVars(state[..]), buf[..], input + data)
    {
      if |data| < 64 - r {
        ghost var b := buf[..];
        Copy(buf, r, data);
        AbsorbShort(step, alg.init, ToVars(state[..]), b, r, input, data, buf[..]);
        return;
      }
      var src := FinishBlock(r, data);
      ghost var s := ToVars(state[..]);
      var rest := Blocks(src);
      Copy(buf, 0, rest);
      PendingDone(step, alg.init, input + data, s, src, buf[..]);
    }

    // The buffer is filled up and taken as a block.
    method FinishBlock(r: nat, data: seq<Byte>) returns (src: seq<Byte>)
      requires Ready() && r == |Rest(input)| && 64 - r <= |data|
      requires Absorbed(step, alg.init, ToVars(state[..]), buf[..], input)
      modifies state, buf
      ensures Pending(step, alg.init, input + data, ToVars(state[..]), src)
    {
      var some := data[..64 - r];
      src := data[64 - r..];
      assert data == some + src;
      PendingFilled(step, alg.init, ToVars(state[..]), buf[..], r, input, some, src);
      assert r + |some| == 64;
      Copy(buf, r, some);
      TransformBlock(buf[..64]);
    }

    // Fills the last block, in one transformation or two.
    method Pad()
      requires Valid()
      modifies state, buf
      ensures ToVars(state[..]) == Fold(step, alg.init, Padded(input))
    {
      var r, length := count / 8 % 64, Encode64(count);
      CountTells(|input|, 0);
      RestLength(input);
      LengthBytes(count);
      FillBlock(r, length);
      Copy(buf, 56, length);
      TransformBlock(buf[..64]);
    }

    // Pads up to the last eight bytes, with a transformation if a block is filled on the way.
    method FillBlock(r: nat, ghost length: seq<Byte>)
      requires Ready() && r == |Rest(input)| && Absorbed(step, alg.init, ToVars(state[..]), buf[..], input)
      requires |length| == 8
      modifies state, buf
      ensures Fold(step, alg.init, input + Padding(|input|) + length) == step(ToVars(state[..]), buf[..56] + length)
    {
      if r < 56 {
        PadInOne(step, alg.init, ToVars(state[..]), buf[..], r, input, length);
        Copy(buf, r, [0x80] + ZeroBytes(55 - r));
      } else {
        FillTwo(r, length);
      }
    }

    method FillTwo(r: nat, ghost length: seq<Byte>)
      requires Ready() && r == |Rest(input)| >= 56 && Absorbed(step, alg.init, ToVars(state[..]), buf[..], input)
      requires |length| == 8
      modifies state, buf
      ensures Fold(step, alg.init, input + Padding(|input|) + length) == step(ToVars(state[..]), buf[..56] + length)
    {
      PadInTwo(step, alg.init, ToVars(state[..]), buf[..], r, input, length);
      var pad := [0x80] + ZeroBytes(63 - r);
      assert r + |pad| == 64;
      Copy(buf, r, pad);
      TransformBlock(buf[..64]);
      Copy(buf, 0, ZeroBytes(56));
      assert buf[..56] == ZeroBytes(56);
    }

    /** Ends the message, writes the digest of everything that was added, and clears the context. */
    method Final() returns (digest: seq<Byte>)
      requires Valid() && step == BlockStep(alg)
      modifies this, state, buf
      ensures digest == Hash(alg, old(input))
      ensures Cleared()
    {
      Pad();
      digest := [];
      ghost var v := ToVars(state[..]);
      for i := 0 to 8
        invariant Ready() && ToVars(state[..]) == v && digest == Stored(alg, v, i)
      {
        digest := digest + alg.store(state[i]);
      }
      Clear();
    }

    // Nothing of the message is left in the context.
    ghost predicate Cleared()
      reads this, state, buf
    {
      count == 0 && buf[..] == ZeroBytes(64) && forall i :: 0 <= i < state.Length ==> state[i] == alg.zero
    }

    method Clear()
      requires Ready()
      modifies this, state, buf
      ensures Cleared()
    {
      for i := 0 to 8
        invariant forall j :: 0 <= j < i ==> state[j] == alg.zero
      {
        state[i] := alg.zero;
      }
      count := 0;
      Copy(buf, 0, ZeroBytes(64));
      assert buf[..] == buf[..64];
    }
  }

  /** The digest of a file depends on its bytes alone, not on the pieces it is read in. */
  method HashPieces<W(!new)>(alg: Algorithm<W>, pieces: seq<seq<Byte>>) returns (digest: seq<Byte>)
    requires |alg.k| == 64 && Lawful(alg.ops)
    ensures digest == Hash(alg, Joined(pieces))
  {
    var ctx := new Context(alg);
    for i := 0 to |pieces|
      invariant ctx.Valid() && ctx.alg == alg && ctx.step == BlockStep(alg) && fresh(ctx) && fresh(ctx.state)
                && fresh(ctx.buf)
      invariant ctx.input == Joined(pieces[..i])
    {
      assert pieces[..i + 1][..i] == pieces[..i];
      ctx.Update(pieces[i]);
    }
    assert pieces[..|pieces|] == pieces;
    digest := ctx.Final();
  }
}
