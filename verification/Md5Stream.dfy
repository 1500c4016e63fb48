/**
 The MD5 context of mkhash, fed piece by piece, for any kind of word. Whatever the pieces, the digest is the
 one defined on the whole message (section 3 of RFC 1321).
 */
module Md5Stream {
  import opened Bytes
  import opened BlockStream
  import opened Md5Rounds

  /** The words: their operations, the constants, and how they are read from and written to bytes. */
  datatype Algorithm<!W> = Algorithm(
    ops: Ops<W>,
    t: seq<W>,
    init: Regs<W>,
    zero: W,
    load: (Byte, Byte, Byte, Byte) -> W,
    store: W -> seq<Byte>)

  // ----- the definition on whole messages -----

  function BlockStep<W>(alg: Algorithm<W>): BlockStream.Step<Regs<W>>
    requires |alg.t| == 64
  {
    (v, block) => if |block| == 64 then Compress(alg.ops, alg.t, Words(alg.load, block), v) else v
  }

  // The same, one block at a time.
  ghost predicate StepAt<W>(alg: Algorithm<W>, f: BlockStream.Step<Regs<W>>, v: Regs<W>, block: seq<Byte>)
    requires |alg.t| == 64
  {
    |block| == 64 ==> f(v, block) == Compress(alg.ops, alg.t, Words(alg.load, block), v)
  }

  ghost predicate IsStep<W(!new)>(alg: Algorithm<W>, f: BlockStream.Step<Regs<W>>)
    requires |alg.t| == 64
  {
    forall v, block {:trigger StepAt(alg, f, v, block)} :: StepAt(alg, f, v, block)
  }

  // The message, the padding, and the low 64 bits of the number of its bits.
  function Padded(msg: seq<Byte>): seq<Byte> {
    msg + Padding(|msg|) + LittleEndian(8 * |msg| % U64, 8)
  }

  function Stored<W>(alg: Algorithm<W>, v: Regs<W>): seq<Byte> {
    alg.store(v.a) + alg.store(v.b) + alg.store(v.c) + alg.store(v.d)
  }

  function Hash<W>(alg: Algorithm<W>, msg: seq<Byte>): seq<Byte>
    requires |alg.t| == 64
  {
    Stored(alg, Fold(BlockStep(alg), alg.init, Padded(msg)))
  }

  /** The padded message fills whole blocks, begins with the message and a one bit, and ends with eight bytes
      that hold the number of bits, modulo 2^64; between them are zeros, fewer than a block. */
  lemma PaddedIs(msg: seq<Byte>, i: nat)
    ensures var p := Padded(msg);
            && |p| % 64 == 0 && |msg| + 9 <= |p| < |msg| + 9 + 64
            && p[..|msg|] == msg && p[|msg|] == 0x80 && (|msg| < i < |p| - 8 ==> p[i] == 0)
            && FromLittleEndian(p[|p| - 8..]) == 8 * |msg| % U64
  {
    var p, length := Padded(msg), LittleEndian(8 * |msg| % U64, 8);
    ZerosIsLeast(|msg|, 0);
    EightMore(|msg| + 1 + Zeros(|msg|));
    PaddingIs(|msg|, 0);
    if |msg| <= i < |p| - 8 {
      PaddingIs(|msg|, i - |msg|);
    }
    assert p[|p| - 8..] == length;
    assert Power256(8) == U64;
    LittleEndianReads(8 * |msg| % U64, 8);
  }

  // ----- algorithms that agree -----

  ghost predicate Alike<W(!new)>(a: Algorithm<W>, b: Algorithm<W>) {
    && Agree(a.ops, b.ops) && SameLoad(a.load, b.load) && SameStore(a.store, b.store)
    && a.t == b.t && a.init == b.init && |a.t| == 64
  }

  /** Equal operations give equal digests. */
  lemma HashAgrees<W(!new)>(a: Algorithm<W>, b: Algorithm<W>, msg: seq<Byte>)
    requires Alike(a, b)
    ensures Hash(a, msg) == Hash(b, msg)
  {
    var f, g := BlockStep(a), BlockStep(b);
    forall v, block: seq<Byte> {:trigger f(v, block)} | |block| == 64
      ensures f(v, block) == g(v, block)
    {
      WordsAgree(a.load, b.load, block);
      CompressAgrees(a.ops, b.ops, a.t, Words(a.load, block), v);
    }
    FoldAgrees(f, g, a.init, Padded(msg));
  }

  // ----- counting: 29 bits in one word, the rest in another -----

  const U29: nat := 0x2000_0000

  ghost predicate Counts(lo: nat, hi: nat, n: nat) {
    lo == n % U29 && hi == n / U29 % U32
  }

  // The low word tells how many bytes are left over.
  lemma CountTells(n: nat)
    ensures n % U29 % 64 == n % 64
  {
    Multiples(0x80_0000 * (n / U29), n % U29);
  }

  // The new low word is less than the old one just when there is a carry.
  lemma CarryTells(lo: nat, size: nat)
    requires lo < U29
    ensures ((lo + size) % U29 < lo) <==> (lo + size % U29 >= U29)
    ensures (lo + size) / U29 == size / U29 + (if lo + size % U29 >= U29 then 1 else 0)
  {
    var q, s := size / U29, size % U29;
    assert lo + size == U29 * q + (lo + s);
  }

  lemma CountAdds(lo: nat, hi: nat, n: nat, size: nat)
    requires Counts(lo, hi, n)
    ensures Counts((lo + size) % U29, (hi + (lo + size) / U29) % U32, n + size)
  {
    var q := n / U29;
    assert n + size == U29 * q + (lo + size);
    assert (n + size) / U29 == q + (lo + size) / U29;
    WrappedSum(q, (lo + size) / U29);
  }

  /** The two words after some more bytes, with the carry found by the comparison. */
  lemma CountWithCarry(lo: nat, hi: nat, n: nat, size: nat)
    requires Counts(lo, hi, n)
    ensures var low := (lo + size) % U29;
            var high := if low < lo then (hi + 1) % U32 else hi;
            Counts(low, (high + size / U29) % U32, n + size)
  {
    CountAdds(lo, hi, n, size);
    CarryTells(lo, size);
    WrappedSum(hi + 1, size / U29);
  }

  lemma WrappedSum(a: nat, b: nat)
    ensures (a % U32 + b) % U32 == (a + b) % U32
  {
    assert a + b == U32 * (a / U32) + (a % U32 + b);
  }

  // The two words, the low one shifted, are the number of bits in little-endian order.
  lemma LengthBytes(lo: nat, hi: nat, n: nat)
    requires Counts(lo, hi, n)
    ensures Encode32Le(8 * lo) + Encode32Le(hi) == LittleEndian(8 * n % U64, 8)
  {
    BitsOfCount(lo, hi, n);
    EncodeIsLittleEndian(8 * lo, hi, 8);
  }

  lemma BitsOfCount(lo: nat, hi: nat, n: nat)
    requires Counts(lo, hi, n)
    ensures 8 * n % U64 == 8 * lo + U32 * hi
  {
    var q := n / U29;
    assert 8 * n == U64 * (q / U32) + (8 * lo + U32 * hi);
  }

  // ----- the context -----

  class Context<W(!new)> {
    const alg: Algorithm<W>
    const buffer: array<Byte>
    var regs: Regs<W>
    var lo: nat
    var hi: nat
    ghost const step: BlockStream.Step<Regs<W>>
    ghost var input: seq<Byte>

    ghost predicate Ready() {
      |alg.t| == 64 && Lawful(alg.ops) && IsStep(alg, step) && buffer.Length == 64
    }

    // The registers have every whole block of the input, the buffer the bytes behind them, the two words their number.
    ghost predicate Valid()
      reads this, buffer
    {
      Ready() && Counts(lo, hi, |input|) && Absorbed(step, alg.init, regs, buffer[..], input)
    }

    constructor (alg: Algorithm<W>)
      requires |alg.t| == 64 && Lawful(alg.ops)
      ensures Valid() && input == [] && this.alg == alg && step == BlockStep(alg) && fresh(buffer)
    {
      this.alg := alg;
      this.buffer := new Byte[64];
      this.regs := alg.init;
      this.lo := 0;
      this.hi := 0;
      this.step := BlockStep(alg);
      this.input := [];
    }

    // One block.
    method TransformBlock(block: seq<Byte>)
      requires Ready() && |block| == 64
      modifies `regs
      ensures regs == step(old(regs), block)
    {
      assert StepAt(alg, step, regs, block);
      regs := Transform(alg.ops, alg.t, Words(alg.load, block), regs);
    }

    // One or more blocks.
    method Body(data: seq<Byte>)
      requires Ready() && |data| % 64 == 0
      modifies `regs
      ensures regs == Fold(step, old(regs), data)
    {
      var rest := data;
      while rest != []
        invariant |rest| % 64 == 0 && Fold(step, regs, rest) == Fold(step, old(regs), data)
        decreases |rest|
      {
        TransformBlock(rest[..64]);
        rest := rest[64..];
      }
    }

    /** Adds bytes; whatever came before, the context stands for all of them together. */
    method Update(data: seq<Byte>)
      requires Valid()
      modifies this, buffer
      ensures Valid() && input == old(input) + data
    {
      var savedLo := lo;
      CountWithCarry(lo, hi, |input|, |data|);
      CountTells(|input|);
      RestLength(input);
      lo := (savedLo + |data|) % U29;
      if lo < savedLo {
        hi := (hi + 1) % U32;
      }
      hi := (hi + |data| / U29) % U32;
      Absorb(savedLo % 64, data);
      input := input + data;
    }

    method Absorb(used: nat, data: seq<Byte>)
      requires Ready() && used == |Rest(input)| && Absorbed(step, alg.init, regs, buffer[..], input)
      modifies `regs, buffer
      ensures Absorbed(step, alg.init, regs, buffer[..], input + data)
    {
      var rest := data;
      if used > 0 {
        var available := 64 - used;
        if |data| < available {
          ghost var b := buffer[..];
          Copy(buffer, used, data);
          AbsorbShort(step, alg.init, regs, b, used, input, data, buffer[..]);
          return;
        }
        rest := FillBuffer(used, data);
      } else {
        PendingAll(step, alg.init, regs, buffer[..], input, data);
      }
      TakeBlocks(rest, input + data);
    }

    // The buffer is filled up and taken as a block.
    method FillBuffer(used: nat, data: seq<Byte>) returns (rest: seq<Byte>)
      requires Ready() && used == |Rest(input)| && 64 - used <= |data|
      requires Absorbed(step, alg.init, regs, buffer[..], input)
      modifies `regs, buffer
      ensures Pending(step, alg.init, input + data, regs, rest)
    {
      var some := data[..64 - used];
      rest := data[64 - used..];
      assert data == some + rest;
      PendingFilled(step, alg.init, regs, buffer[..], used, input, some, rest);
      assert used + |some| == 64;
      Copy(buffer, used, some);
      TransformBlock(buffer[..64]);
    }

    // Whole blocks are taken from the data, the bytes behind them copied to the buffer.
    method TakeBlocks(data: seq<Byte>, ghost total: seq<Byte>)
      requires Ready() && Pending(step, alg.init, total, regs, data)
      modifies `regs, buffer
      ensures Absorbed(step, alg.init, regs, buffer[..], total)
    {
      ghost var s := regs;
      FoldWhole(step, regs, data);
      if |data| >= 64 {
        Body(Whole(data));
      }
      Copy(buffer, 0, Rest(data));
      PendingDone(step, alg.init, total, s, data, buffer[..]);
    }

    /** Ends the message, gives the digest of everything that was added, and clears the context. */
    method Final() returns (digest: seq<Byte>)
      requires Valid() && step == BlockStep(alg)
      modifies this, buffer
      ensures digest == Hash(alg, old(input))
      ensures Cleared()
    {
      CountTells(|input|);
      RestLength(input);
      LengthBytes(lo, hi, |input|);
      var length := Encode32Le(8 * lo) + Encode32Le(hi);
      FillBlock(lo % 64, length);
      Copy(buffer, 56, length);
      TransformBlock(buffer[..64]);
      digest := Stored(alg, regs);
      regs := Regs(alg.zero, alg.zero, alg.zero, alg.zero);
      lo, hi := 0, 0;
      Copy(buffer, 0, ZeroBytes(64));
      assert buffer[..] == buffer[..64];
    }

    // Nothing of the message is left in the context.
    ghost predicate Cleared()
      reads this, buffer
    {
      lo == hi == 0 && buffer[..] == ZeroBytes(64) && regs == Regs(alg.zero, alg.zero, alg.zero, alg.zero)
    }

    // Pads up to the last eight bytes; a block filled on the way is taken.
    method FillBlock(used: nat, ghost length: seq<Byte>)
      requires Ready() && used == |Rest(input)| && Absorbed(step, alg.init, regs, buffer[..], input)
      requires |length| == 8
      modifies `regs, buffer
      ensures Fold(step, alg.init, input + Padding(|input|) + length) == step(regs, buffer[..56] + length)
    {
      if used >= 56 {
        PadInTwo(step, alg.init, regs, buffer[..], used, input, length);
        var pad := [0x80] + ZeroBytes(63 - used);
        assert used + |pad| == 64;
        Copy(buffer, used, pad);
        TransformBlock(buffer[..64]);
        Copy(buffer, 0, ZeroBytes(56));
        assert buffer[..56] == ZeroBytes(56);
      } else {
        PadInOne(step, alg.init, regs, buffer[..], used, input, length);
        Copy(buffer, used, [0x80] + ZeroBytes(55 - used));
      }
    }
  }

  /** The digest of a file depends on its bytes alone, not on the pieces it is read in. */
  method HashPieces<W(!new)>(alg: Algorithm<W>, pieces: seq<seq<Byte>>) returns (digest: seq<Byte>)
    requires |alg.t| == 64 && Lawful(alg.ops)
    ensures digest == Hash(alg, Joined(pieces))
  {
    var ctx := new Context(alg);
    for i := 0 to |pieces|
      invariant ctx.Valid() && ctx.alg == alg && ctx.step == BlockStep(alg) && fresh(ctx) && fresh(ctx.buffer)
      invariant ctx.input == Joined(pieces[..i])
    {
      assert pieces[..i + 1][..i] == pieces[..i];
      ctx.Update(pieces[i]);
    }
    assert pieces[..|pieces|] == pieces;
    digest := ctx.Final();
  }
}
