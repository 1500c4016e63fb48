/**
 Messages taken in blocks of 64 bytes, as both digests of mkhash take them: what has been folded into the
 state, what is left over, and the padding that fills the last block.
 */
module BlockStream {

  import opened Bytes

  // A block step; it is only asked about blocks of 64 bytes.
  type Step<!S> = (S, seq<Byte>) -> S

  /** The state after all whole blocks of a message. */
  function Fold<S>(f: Step<S>, s: S, msg: seq<Byte>): S {
    if |msg| < 64 then s else Fold(f, f(s, msg[..64]), msg[64..])
  }

  /** The bytes behind the last whole block. */
  function Rest(msg: seq<Byte>): (r: seq<Byte>)
    ensures |r| < 64
  {
    msg[|msg| - |msg| % 64..]
  }

  lemma RestLength(msg: seq<Byte>)
    ensures |Rest(msg)| == |msg| % 64
  {}

  function Whole(msg: seq<Byte>): (w: seq<Byte>)
    ensures |w| % 64 == 0 && w + Rest(msg) == msg
  {
    msg[..|msg| - |msg| % 64]
  }

  // Whole blocks may be folded first.
  lemma {:induction false} FoldJoin<S>(f: Step<S>, s: S, a: seq<Byte>, b: seq<Byte>)
    requires |a| % 64 == 0
    ensures Fold(f, s, a + b) == Fold(f, Fold(f, s, a), b)
    decreases |a|
  {
    if |a| < 64 {
      assert a + b == b;
    } else {
      assert (a + b)[..64] == a[..64] && (a + b)[64..] == a[64..] + b;
      FoldJoin(f, f(s, a[..64]), a[64..], b);
    }
  }

  // Steps that agree on every block have the same fold.
  lemma {:induction false} FoldAgrees<S(!new)>(f: Step<S>, g: Step<S>, s: S, msg: seq<Byte>)
    requires forall v, block: seq<Byte> {:trigger f(v, block)} :: |block| == 64 ==> f(v, block) == g(v, block)
    ensures Fold(f, s, msg) == Fold(g, s, msg)
    decreases |msg|
  {
    if |msg| >= 64 {
      FoldAgrees(f, g, f(s, msg[..64]), msg[64..]);
    }
  }

  // Less than a block is no block.
  lemma FoldWhole<S>(f: Step<S>, s: S, msg: seq<Byte>)
    ensures Fold(f, s, msg) == Fold(f, s, Whole(msg))
  {
    FoldJoin(f, s, Whole(msg), Rest(msg));
  }

  /** Only the state and the bytes left over matter for what comes next. */
  lemma Continue<S>(f: Step<S>, s: S, msg: seq<Byte>, data: seq<Byte>)
    ensures Fold(f, s, msg + data) == Fold(f, Fold(f, s, msg), Rest(msg) + data)
    ensures Rest(msg + data) == Rest(Rest(msg) + data)
  {
    var whole, rest := Whole(msg), Rest(msg) + data;
    assert msg + data == whole + rest;
    FoldWhole(f, s, msg);
    FoldJoin(f, s, whole, rest);
    RestJoin(whole, rest);
  }

  lemma RestJoin(a: seq<Byte>, b: seq<Byte>)
    requires |a| % 64 == 0
    ensures Rest(a + b) == Rest(b)
  {
    ModJoin(|a|, |b|);
  }

  lemma Multiples(a: nat, b: nat)
    ensures (64 * a + b) % 64 == b % 64
  {}

  lemma ModJoin(a: nat, b: nat)
    requires a % 64 == 0
    ensures (a + b) % 64 == b % 64
  {
    var q := a / 64;
    assert a == 64 * q;
    Multiples(q, b);
  }

  lemma OneBlock<S>(f: Step<S>, s: S, block: seq<Byte>, rest: seq<Byte>)
    requires |block| == 64
    ensures Fold(f, s, block + rest) == Fold(f, f(s, block), rest)
    ensures Rest(block + rest) == Rest(rest)
  {
    assert (block + rest)[..64] == block && (block + rest)[64..] == rest;
    RestJoin(block, rest);
  }

  lemma RestOfShort(msg: seq<Byte>)
    requires |msg| < 64
    ensures Rest(msg) == msg
  {}

  /** The state holds every whole block of the input and the buffer begins with the bytes behind them. */
  ghost predicate Absorbed<S>(f: Step<S>, init: S, s: S, buf: seq<Byte>, input: seq<Byte>) {
    |buf| == 64 && s == Fold(f, init, input) && buf[..|Rest(input)|] == Rest(input)
  }

  // More bytes that do not fill the block.
  lemma AbsorbShort<S>(f: Step<S>, init: S, s: S, buf: seq<Byte>, used: nat, input: seq<Byte>, data: seq<Byte>,
                       next: seq<Byte>)
    requires Absorbed(f, init, s, buf, input) && used == |Rest(input)| && used + |data| < 64 && |next| == 64
    requires next[..used + |data|] == buf[..used] + data
    ensures Absorbed(f, init, s, next, input + data)
  {
    Continue(f, init, input, data);
    RestOfShort(Rest(input) + data);
  }

  /** What is still to be folded into the state, so that it holds the whole of the input. */
  ghost predicate Pending<S>(f: Step<S>, init: S, total: seq<Byte>, s: S, rest: seq<Byte>) {
    Fold(f, init, total) == Fold(f, s, rest) && Rest(total) == Rest(rest)
  }

  // An empty buffer: all of the data.
  lemma PendingAll<S>(f: Step<S>, init: S, s: S, buf: seq<Byte>, input: seq<Byte>, data: seq<Byte>)
    requires Absorbed(f, init, s, buf, input) && Rest(input) == []
    ensures Pending(f, init, input + data, s, data)
  {
    Continue(f, init, input, data);
    assert Rest(input) + data == data;
  }

  // Bytes that fill the block are taken with the ones in the buffer; what is behind them remains.
  lemma PendingFilled<S>(f: Step<S>, init: S, s: S, buf: seq<Byte>, used: nat, input: seq<Byte>, some: seq<Byte>,
                         more: seq<Byte>)
    requires Absorbed(f, init, s, buf, input) && used == |Rest(input)| && used + |some| == 64
    ensures Pending(f, init, input + (some + more), f(s, buf[..used] + some), more)
  {
    var first := buf[..used] + some;
    Continue(f, init, input, some + more);
    assert Rest(input) + (some + more) == first + more;
    OneBlock(f, s, first, more);
  }

  // Whole blocks are folded, what is behind them goes to the front of the buffer.
  lemma PendingDone<S>(f: Step<S>, init: S, total: seq<Byte>, s: S, rest: seq<Byte>, next: seq<Byte>)
    requires Pending(f, init, total, s, rest) && |next| == 64 && next[..|Rest(rest)|] == Rest(rest)
    ensures Absorbed(f, init, Fold(f, s, rest), next, total)
  {}

  // ----- padding: section 5.1.1 of FIPS 180-4, section 3.1 of RFC 1321 -----

  /** The number of zero bytes between the byte that holds the one bit and the length. */
  function Zeros(len: nat): nat {
    (119 - len % 64) % 64
  }

  /** It is the least number that leaves room for exactly eight more bytes in the block. */
  lemma ZerosIsLeast(len: nat, z: nat)
    ensures (len + 1 + Zeros(len)) % 64 == 56
    ensures (len + 1 + z) % 64 == 56 ==> Zeros(len) <= z
  {
    var q, r := len / 64, len % 64;
    ModJoin(64 * q, r + 1 + z);
    ModJoin(64 * q, r + 1 + Zeros(len));
    assert 64 * q + (r + 1 + z) == len + 1 + z;
  }

  function ZeroBytes(n: nat): (z: seq<Byte>)
    ensures |z| == n
  {
    seq(n, _ => 0)
  }

  function Padding(len: nat): seq<Byte> {
    [0x80] + ZeroBytes(Zeros(len))
  }

  lemma EightMore(n: nat)
    requires n % 64 == 56
    ensures (n + 8) % 64 == 0
  {}

  /** A one bit and then zeros. */
  lemma PaddingIs(len: nat, i: nat)
    ensures var p := Padding(len); |p| == 1 + Zeros(len) && (i < |p| ==> p[i] == if i == 0 then 0x80 else 0)
  {}

  // With the length behind it, the padding fills one block or two.
  lemma PaddingInBlocks(msg: seq<Byte>)
    ensures |Rest(msg)| < 56 ==> Padding(|msg|) == [0x80] + ZeroBytes(55 - |Rest(msg)|)
    ensures |Rest(msg)| >= 56 ==> Padding(|msg|) == ([0x80] + ZeroBytes(63 - |Rest(msg)|)) + ZeroBytes(56)
  {
    RestLength(msg);
  }

  // What the last block is, and the last two, when the message ends with the tail.
  lemma LastBlock<S>(f: Step<S>, init: S, s: S, kept: seq<Byte>, input: seq<Byte>, tail: seq<Byte>)
    requires s == Fold(f, init, input) && kept == Rest(input) && |kept + tail| == 64
    ensures Fold(f, init, input + tail) == f(s, kept + tail)
  {
    Continue(f, init, input, tail);
    assert (kept + tail) + [] == kept + tail;
    OneBlock(f, s, kept + tail, []);
  }

  lemma LastTwoBlocks<S>(f: Step<S>, init: S, s: S, kept: seq<Byte>, input: seq<Byte>, t1: seq<Byte>, t2: seq<Byte>)
    requires s == Fold(f, init, input) && kept == Rest(input) && |kept + t1| == 64 == |t2|
    ensures Fold(f, init, input + (t1 + t2)) == f(f(s, kept + t1), t2)
  {
    Continue(f, init, input, t1 + t2);
    assert kept + (t1 + t2) == (kept + t1) + t2 && t2 == t2 + [];
    OneBlock(f, s, kept + t1, t2);
    OneBlock(f, f(s, kept + t1), t2, []);
  }

  lemma PadInOne<S>(f: Step<S>, init: S, s: S, buf: seq<Byte>, used: nat, input: seq<Byte>, length: seq<Byte>)
    requires Absorbed(f, init, s, buf, input) && |length| == 8 && used == |Rest(input)| < 56
    ensures Fold(f, init, input + Padding(|input|) + length)
            == f(s, buf[..used] + ([0x80] + ZeroBytes(55 - used)) + length)
  {
    var kept, pad := Rest(input), Padding(|input|);
    PaddingInBlocks(input);
    assert |kept + (pad + length)| == 64;
    LastBlock(f, init, s, kept, input, pad + length);
    Regroup(input, pad, length);
    Regroup(kept, pad, length);
  }

  lemma PadInTwo<S>(f: Step<S>, init: S, s: S, buf: seq<Byte>, used: nat, input: seq<Byte>, length: seq<Byte>)
    requires Absorbed(f, init, s, buf, input) && |length| == 8 && used == |Rest(input)| >= 56
    ensures Fold(f, init, input + Padding(|input|) + length)
            == f(f(s, buf[..used] + ([0x80] + ZeroBytes(63 - used))), ZeroBytes(56) + length)
  {
    var kept, t1, t2 := Rest(input), [0x80] + ZeroBytes(63 - used), ZeroBytes(56) + length;
    PaddingInBlocks(input);
    LastTwoBlocks(f, init, s, kept, input, t1, t2);
    Regroup(input, Padding(|input|), length);
    Regroup(t1, ZeroBytes(56), length);
  }

  lemma Regroup(a: seq<Byte>, b: seq<Byte>, c: seq<Byte>)
    ensures a + b + c == a + (b + c)
  {}

  /** Concatenation of the pieces in which a file is read. */
  function Joined(pieces: seq<seq<Byte>>): seq<Byte> {
    if pieces == [] then [] else Joined(pieces[..|pieces| - 1]) + pieces[|pieces| - 1]
  }

  /** One piece is itself, and pieces behind each other are joined. */
  lemma {:induction false} JoinedParts(a: seq<seq<Byte>>, b: seq<seq<Byte>>, piece: seq<Byte>)
    ensures Joined(a + b) == Joined(a) + Joined(b) && Joined([piece]) == piece
    decreases |b|
  {
    assert [piece][..0] == [];
    if b == [] {
      assert a + b == a;
    } else {
      var n := |b| - 1;
      assert (a + b)[..|a + b| - 1] == a + b[..n] && (a + b)[|a + b| - 1] == b[n];
      JoinedParts(a, b[..n], piece);
    }
  }

  // ----- blocks of words -----

  function WordAt<W>(load: (Byte, Byte, Byte, Byte) -> W, block: seq<Byte>, i: nat): W
    requires |block| == 64 && i < 16
  {
    load(block[4 * i], block[4 * i + 1], block[4 * i + 2], block[4 * i + 3])
  }

  function Words<W>(load: (Byte, Byte, Byte, Byte) -> W, block: seq<Byte>): (m: seq<W>)
    requires |block| == 64
    ensures |m| == 16
  {
    seq(16, i requires 0 <= i < 16 => WordAt(load, block, i))
  }

  ghost predicate SameLoad<W>(f: (Byte, Byte, Byte, Byte) -> W, g: (Byte, Byte, Byte, Byte) -> W) {
    forall b0, b1, b2, b3 {:trigger f(b0, b1, b2, b3)} :: f(b0, b1, b2, b3) == g(b0, b1, b2, b3)
  }

  ghost predicate SameStore<W(!new)>(f: W -> seq<Byte>, g: W -> seq<Byte>) {
    forall u {:trigger f(u)} :: f(u) == g(u)
  }

  lemma WordsAgree<W>(f: (Byte, Byte, Byte, Byte) -> W, g: (Byte, Byte, Byte, Byte) -> W, block: seq<Byte>)
    requires SameLoad(f, g) && |block| == 64
    ensures Words(f, block) == Words(g, block)
  {
    forall i: nat | i < 16
      ensures WordAt(f, block, i) == WordAt(g, block, i)
    {
      var b0, b1, b2, b3 := block[4 * i], block[4 * i + 1], block[4 * i + 2], block[4 * i + 3];
      assert f(b0, b1, b2, b3) == g(b0, b1, b2, b3);
    }
  }

  // ----- buffers -----

  /** Copies bytes into the buffer and leaves the rest of it alone. */
  method Copy(buf: array<Byte>, at: nat, src: seq<Byte>)
    requires at + |src| <= buf.Length
    modifies buf
    ensures buf[..] == old(buf[..at]) + src + old(buf[at + |src|..])
    ensures buf[..at + |src|] == old(buf[..at]) + src
  {
    for i := 0 to |src|
      invariant buf[..at] == old(buf[..at])
      invariant buf[at..at + i] == src[..i]
      invariant buf[at + i..] == old(buf[at + i..])
    {
      buf[at + i] := src[i];
    }
  }
}
