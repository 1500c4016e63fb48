/**
 Removing redundant operands from a dependency tree: joining pairs of operands, removing operands
 that contradict another part of the tree, and repeating both until nothing changes.
 */
module ExprDups {
  import opened Expressions
  import opened ExprEquality
  import opened ExprTransform
  import opened ExprSpine
  import opened ExprJoin

  // The shape of a tree under its own connective.
  function Top(e: Expr): Shape
    requires IsConnective(e)
  {
    Spine(OpOf(e), e)
  }

  // `r` is `e` with other operands.
  predicate SameSpine(e: Expr, r: Expr) {
    IsConnective(e) && IsConnective(r) && OpOf(r) == OpOf(e) && Top(r) == Top(e)
  }

  // ----- first pass: joining pairs of operands -----

  /** The first pass on a whole tree: the tree afterwards and the number of rewrites. */
  function JoinPairs(e: Expr): (r: (Expr, nat))
    requires IsConnective(e)
    ensures SameSpine(e, r.0) && Size(r.0) <= Size(e)
    decreases Size(e), 2 * Forks(Top(e)) + 1
  {
    JoinFrom(e, [], [])
  }

  /** The first pass with its two pointers at `p1` and `p2`. */
  function JoinFrom(e: Expr, p1: Path, p2: Path): (r: (Expr, nat))
    requires IsConnective(e) && On(Top(e), p1) && On(Top(e), p2)
    ensures SameSpine(e, r.0) && Size(r.0) <= Size(e)
    decreases Size(e), Forks(At(Top(e), p1)) + Forks(At(Top(e), p2)), 1
  {
    var op, s := OpOf(e), Top(e);
    if At(s, p1).Fork? then
      OnSnoc(s, p1, L);
      OnSnoc(s, p1, R);
      var a := JoinFrom(e, p1 + [L], p2);
      var b := JoinFrom(a.0, p1 + [R], p2);
      (b.0, a.1 + b.1)
    else if At(s, p2).Fork? then
      OnSnoc(s, p2, L);
      OnSnoc(s, p2, R);
      var a := JoinFrom(e, p1, p2 + [L]);
      var b := JoinFrom(a.0, p1, p2 + [R]);
      (b.0, a.1 + b.1)
    else if p1 == p2 then
      (e, 0)
    else
      JoinOperands(e, p1, p2)
  }

  predicate Operand(e: Expr, p: Path) {
    IsConnective(e) && On(Top(e), p) && At(Top(e), p).Tip?
  }

  // The tree with the operand at `p` replaced.
  function WithOperand(e: Expr, p: Path, x: Expr): (r: Expr)
    requires Operand(e, p) && !IsNode(OpOf(e), x)
    ensures SameSpine(e, r) && Get(OpOf(e), r, p) == x
    ensures Size(r) == Size(e) - Size(Get(OpOf(e), e, p)) + Size(x)
    ensures forall q :: Operand(e, q) && q != p ==> Get(OpOf(e), r, q) == Get(OpOf(e), e, q)
  {
    GetPut(OpOf(e), e, p, x);
    assert forall q | Operand(e, q) && q != p :: Get(OpOf(e), Put(OpOf(e), e, p, x), q) == Get(OpOf(e), e, q) by {
      forall q | Operand(e, q) && q != p
        ensures Get(OpOf(e), Put(OpOf(e), e, p, x), q) == Get(OpOf(e), e, q)
      {
        GetPutOther(OpOf(e), e, p, x, q);
      }
    }
    Put(OpOf(e), e, p, x)
  }

  // Two different operands, joined if they can be.
  function JoinTwo(e: Expr, p1: Path, p2: Path): (r: (Expr, nat))
    requires Operand(e, p1) && Operand(e, p2) && p1 != p2
    ensures SameSpine(e, r.0) && Size(r.0) <= Size(e)
  {
    var op := OpOf(e);
    var x, y := Get(op, e, p1), Get(op, e, p2);
    match Join(op, x, y)
    case None => (e, 0)
    case Some(t) =>
      JoinIsSmall(op, x, y);
      (WithOperand(WithOperand(e, p1, Neutral(op)), p2, t), 1)
  }

  // First the inside of the first operand, then both together.
  function JoinOperands(e: Expr, p1: Path, p2: Path): (r: (Expr, nat))
    requires Operand(e, p1) && Operand(e, p2) && p1 != p2
    ensures SameSpine(e, r.0) && Size(r.0) <= Size(e)
    decreases Size(e), 0, 0
  {
    var x := Get(OpOf(e), e, p1);
    var inner := if IsConnective(x) then JoinPairs(x) else (x, 0);
    var joined := JoinTwo(WithOperand(e, p1, inner.0), p1, p2);
    (joined.0, inner.1 + joined.1)
  }

  // ----- second pass: removing contradicted operands -----

  // Every operand of the negation of `x` is found among the operands of `y`.
  predicate Contradicts(op: Op, x: Expr, y: Expr) {
    ExtractCommon(op, Transform(Not(x)), y).rest1 == Neutral(op)
  }

  /** The second pass on a whole tree. */
  function DropContradicted(e: Expr): (r: (Expr, nat))
    requires IsConnective(e)
    ensures SameSpine(e, r.0) && Size(r.0) <= Size(e)
    decreases Size(e), 2 * Forks(Top(e)) + 1
  {
    DropFrom(e, [], [])
  }

  /** The second pass with its two pointers at `p1` and `p2`. When the second pointer is at an inner
      node, the first operand is compared with both halves and then with the whole node, even if that
      node contains it. */
  function DropFrom(e: Expr, p1: Path, p2: Path): (r: (Expr, nat))
    requires IsConnective(e) && On(Top(e), p1) && On(Top(e), p2)
    ensures SameSpine(e, r.0) && Size(r.0) <= Size(e)
    decreases Size(e), Forks(At(Top(e), p1)) + Forks(At(Top(e), p2)), 1
  {
    var s := Top(e);
    if At(s, p1).Fork? then
      OnSnoc(s, p1, L);
      OnSnoc(s, p1, R);
      var a := DropFrom(e, p1 + [L], p2);
      var b := DropFrom(a.0, p1 + [R], p2);
      (b.0, a.1 + b.1)
    else if At(s, p2).Fork? then
      OnSnoc(s, p2, L);
      OnSnoc(s, p2, R);
      var a := DropFrom(e, p1, p2 + [L]);
      var b := DropFrom(a.0, p1, p2 + [R]);
      var c := DropOperand(b.0, p1, p2);
      (c.0, a.1 + b.1 + c.1)
    else if p1 == p2 then
      (e, 0)
    else
      DropOperand(e, p1, p2)
  }

  // An operand and another part of the tree: first the inside of the operand, then the comparison.
  function DropOperand(e: Expr, p1: Path, p2: Path): (r: (Expr, nat))
    requires Operand(e, p1) && On(Top(e), p2)
    ensures SameSpine(e, r.0) && Size(r.0) <= Size(e)
    decreases Size(e), 0, 0
  {
    var op, x := OpOf(e), Get(OpOf(e), e, p1);
    if !IsConnective(x) then (e, 0)
    else
      var inner := DropContradicted(x);
      var e' := WithOperand(e, p1, inner.0);
      if Contradicts(op, inner.0, Get(op, e', p2)) then
        (WithOperand(e', p1, Absorbing(op)), inner.1 + 1)
      else
        (e', inner.1)
  }

  // ----- both passes, until nothing changes -----

  function OnePass(e: Expr): (r: (Expr, nat))
    requires IsConnective(e)
    ensures SameSpine(e, r.0) && Size(r.0) <= Size(e)
  {
    var a := JoinPairs(e);
    var b := DropContradicted(a.0);
    (b.0, a.1 + b.1)
  }

  // ----- what a rewrite leaves behind -----

  /** A pass that counts no rewrite changes nothing; one that counts a rewrite leaves a constant
      directly below a connective. */
  ghost predicate Accounted(e: Expr, r: (Expr, nat)) {
    && (r.1 == 0 ==> r.0 == e)
    && (r.1 > 0 || HasYnOperand(e) ==> HasYnOperand(r.0))
  }

  lemma {:induction false} NewOperandAccounted(e: Expr, p: Path, inner: (Expr, nat))
    requires Operand(e, p) && !IsNode(OpOf(e), inner.0)
    requires || inner == (Get(OpOf(e), e, p), 0)
             || (IsConnective(Get(OpOf(e), e, p)) && Accounted(Get(OpOf(e), e, p), inner))
    ensures Accounted(e, (WithOperand(e, p, inner.0), inner.1))
  {
    var op, r := OpOf(e), WithOperand(e, p, inner.0);
    PutGet(op, e, p);
    if inner.1 > 0 {
      YnOperandAt(op, r, p);
    } else if HasYnOperand(e) {
      PutKeepsYnOperand(op, e, p, inner.0);
    }
  }

  lemma {:induction false} JoinPairsAccounted(e: Expr)
    requires IsConnective(e)
    ensures Accounted(e, JoinPairs(e))
    decreases Size(e), 2 * Forks(Top(e)) + 1
  {
    JoinFromAccounted(e, [], []);
  }

  lemma {:induction false} JoinFromAccounted(e: Expr, p1: Path, p2: Path)
    requires IsConnective(e) && On(Top(e), p1) && On(Top(e), p2)
    ensures Accounted(e, JoinFrom(e, p1, p2))
    decreases Size(e), Forks(At(Top(e), p1)) + Forks(At(Top(e), p2)), 1
  {
    var s := Top(e);
    if At(s, p1).Fork? {
      OnSnoc(s, p1, L);
      OnSnoc(s, p1, R);
      JoinFromAccounted(e, p1 + [L], p2);
      JoinFromAccounted(JoinFrom(e, p1 + [L], p2).0, p1 + [R], p2);
    } else if At(s, p2).Fork? {
      OnSnoc(s, p2, L);
      OnSnoc(s, p2, R);
      JoinFromAccounted(e, p1, p2 + [L]);
      JoinFromAccounted(JoinFrom(e, p1, p2 + [L]).0, p1, p2 + [R]);
    } else if p1 != p2 {
      JoinOperandsAccounted(e, p1, p2);
    }
  }

  lemma {:induction false} JoinOperandsAccounted(e: Expr, p1: Path, p2: Path)
    requires Operand(e, p1) && Operand(e, p2) && p1 != p2
    ensures Accounted(e, JoinOperands(e, p1, p2))
    decreases Size(e), 0, 0
  {
    var x := Get(OpOf(e), e, p1);
    var inner := if IsConnective(x) then JoinPairs(x) else (x, 0);
    if IsConnective(x) {
      JoinPairsAccounted(x);
    }
    NewOperandAccounted(e, p1, inner);
    JoinTwoAccounted(WithOperand(e, p1, inner.0), p1, p2);
  }

  lemma {:induction false} JoinTwoAccounted(e: Expr, p1: Path, p2: Path)
    requires Operand(e, p1) && Operand(e, p2) && p1 != p2
    ensures Accounted(e, JoinTwo(e, p1, p2))
  {
    if JoinTwo(e, p1, p2).1 > 0 {
      YnOperandAt(OpOf(e), JoinTwo(e, p1, p2).0, p1);
    }
  }

  lemma {:induction false} DropContradictedAccounted(e: Expr)
    requires IsConnective(e)
    ensures Accounted(e, DropContradicted(e))
    decreases Size(e), 2 * Forks(Top(e)) + 1
  {
    DropFromAccounted(e, [], []);
  }

  lemma {:induction false} DropFromAccounted(e: Expr, p1: Path, p2: Path)
    requires IsConnective(e) && On(Top(e), p1) && On(Top(e), p2)
    ensures Accounted(e, DropFrom(e, p1, p2))
    decreases Size(e), Forks(At(Top(e), p1)) + Forks(At(Top(e), p2)), 1
  {
    var s := Top(e);
    if At(s, p1).Fork? {
      OnSnoc(s, p1, L);
      OnSnoc(s, p1, R);
      DropFromAccounted(e, p1 + [L], p2);
      DropFromAccounted(DropFrom(e, p1 + [L], p2).0, p1 + [R], p2);
    } else if At(s, p2).Fork? {
      OnSnoc(s, p2, L);
      OnSnoc(s, p2, R);
      var a := DropFrom(e, p1, p2 + [L]);
      DropFromAccounted(e, p1, p2 + [L]);
      DropFromAccounted(a.0, p1, p2 + [R]);
      DropOperandAccounted(DropFrom(a.0, p1, p2 + [R]).0, p1, p2);
    } else if p1 != p2 {
      DropOperandAccounted(e, p1, p2);
    }
  }

  lemma {:induction false} DropOperandAccounted(e: Expr, p1: Path, p2: Path)
    requires Operand(e, p1) && On(Top(e), p2)
    ensures Accounted(e, DropOperand(e, p1, p2))
    decreases Size(e), 0, 0
  {
    var op, x := OpOf(e), Get(OpOf(e), e, p1);
    if IsConnective(x) {
      var inner := DropContradicted(x);
      DropContradictedAccounted(x);
      NewOperandAccounted(e, p1, inner);
      var e' := WithOperand(e, p1, inner.0);
      if Contradicts(op, inner.0, Get(op, e', p2)) {
        YnOperandAt(op, WithOperand(e', p1, Absorbing(op)), p1);
      }
    }
  }

  // ----- what the passes do to the value -----

  lemma {:induction false} ValueOfOperand(e: Expr, p: Path, x: Expr, v: Valuation) returns (rest: Tristate)
    requires Operand(e, p) && !IsNode(OpOf(e), x) && FixesYn(v)
    ensures Value(e, v) == Apply(OpOf(e), Value(Get(OpOf(e), e, p), v), rest)
    ensures Value(WithOperand(e, p, x), v) == Apply(OpOf(e), Value(x, v), rest)
  {
    ValueAround(OpOf(e), e, p, v);
    ValueOfPut(OpOf(e), e, p, x, v);
    rest := Value(Put(OpOf(e), e, p, Neutral(OpOf(e))), v);
  }

  /** The first pass is exact: it keeps the value in every well-typed valuation. */
  lemma {:induction false} JoinPairsExact(e: Expr, v: Valuation)
    requires IsConnective(e) && WellTyped(v)
    ensures Value(JoinPairs(e).0, v) == Value(e, v)
    decreases Size(e), 2 * Forks(Top(e)) + 1
  {
    JoinFromExact(e, [], [], v);
  }

  lemma {:induction false} JoinFromExact(e: Expr, p1: Path, p2: Path, v: Valuation)
    requires IsConnective(e) && On(Top(e), p1) && On(Top(e), p2) && WellTyped(v)
    ensures Value(JoinFrom(e, p1, p2).0, v) == Value(e, v)
    decreases Size(e), Forks(At(Top(e), p1)) + Forks(At(Top(e), p2)), 1
  {
    var s := Top(e);
    if At(s, p1).Fork? {
      OnSnoc(s, p1, L);
      OnSnoc(s, p1, R);
      JoinFromExact(e, p1 + [L], p2, v);
      JoinFromExact(JoinFrom(e, p1 + [L], p2).0, p1 + [R], p2, v);
    } else if At(s, p2).Fork? {
      OnSnoc(s, p2, L);
      OnSnoc(s, p2, R);
      JoinFromExact(e, p1, p2 + [L], v);
      JoinFromExact(JoinFrom(e, p1, p2 + [L]).0, p1, p2 + [R], v);
    } else if p1 != p2 {
      JoinOperandsExact(e, p1, p2, v);
    }
  }

  lemma {:induction false} JoinOperandsExact(e: Expr, p1: Path, p2: Path, v: Valuation)
    requires Operand(e, p1) && Operand(e, p2) && p1 != p2 && WellTyped(v)
    ensures Value(JoinOperands(e, p1, p2).0, v) == Value(e, v)
    decreases Size(e), 0, 0
  {
    var x := Get(OpOf(e), e, p1);
    var inner := if IsConnective(x) then JoinPairs(x) else (x, 0);
    if IsConnective(x) {
      JoinPairsExact(x, v);
    }
    ReplaceOperand(e, p1, inner.0, v);
    JoinTwoExact(WithOperand(e, p1, inner.0), p1, p2, v);
  }

  lemma {:induction false} JoinTwoExact(e: Expr, p1: Path, p2: Path, v: Valuation)
    requires Operand(e, p1) && Operand(e, p2) && p1 != p2 && WellTyped(v)
    ensures Value(JoinTwo(e, p1, p2).0, v) == Value(e, v)
  {
    var op := OpOf(e);
    var x, y := Get(op, e, p1), Get(op, e, p2);
    var t := Join(op, x, y);
    if t.Some? {
      JoinIsSmall(op, x, y);
      JoinExact(op, x, y, v);
      ReplacePair(e, p1, p2, t.value, v);
    }
  }

  lemma {:induction false} ReplacePair(e: Expr, p1: Path, p2: Path, t: Expr, v: Valuation)
    requires Operand(e, p1) && Operand(e, p2) && p1 != p2 && !IsNode(OpOf(e), t) && FixesYn(v)
    requires Value(t, v) == Apply(OpOf(e), Value(Get(OpOf(e), e, p1), v), Value(Get(OpOf(e), e, p2), v))
    ensures Value(WithOperand(WithOperand(e, p1, Neutral(OpOf(e))), p2, t), v) == Value(e, v)
  {
    var op := OpOf(e);
    var e' := WithOperand(e, p1, Neutral(op));
    var rest1 := ValueOfOperand(e, p1, Neutral(op), v);
    var rest2 := ValueOfOperand(e', p2, t, v);
    Assoc(op, Value(Get(op, e, p1), v), Value(Get(op, e, p2), v), rest2);
  }

  /** `b` is `a`, unless `a` is `m`. */
  ghost predicate Keeps(a: Tristate, b: Tristate) {
    a != MOD ==> b == a
  }

  /** A contradicted operand cannot leave the whole tree better than `m`. */
  lemma {:induction false} ContradictedBound(op: Op, x: Expr, y: Expr, v: Valuation)
    requires WellTyped(v) && Contradicts(op, x, y)
    ensures op == AndOp ==> Value(y, v) <= TriNot(Value(x, v))
    ensures op == OrOp ==> Value(y, v) >= TriNot(Value(x, v))
  {
    var n := Transform(Not(x));
    TransformPreservesValue(Not(x), v);
    ExtractCommonConserves(op, n, y, v);
  }

  lemma {:induction false} DropContradictedKeeps(e: Expr, v: Valuation)
    requires IsConnective(e) && WellTyped(v)
    ensures Keeps(Value(e, v), Value(DropContradicted(e).0, v))
    decreases Size(e), 2 * Forks(Top(e)) + 1
  {
    DropFromKeeps(e, [], [], v);
  }

  lemma {:induction false} DropFromKeeps(e: Expr, p1: Path, p2: Path, v: Valuation)
    requires IsConnective(e) && On(Top(e), p1) && On(Top(e), p2) && WellTyped(v)
    ensures Keeps(Value(e, v), Value(DropFrom(e, p1, p2).0, v))
    decreases Size(e), Forks(At(Top(e), p1)) + Forks(At(Top(e), p2)), 1
  {
    var s := Top(e);
    if At(s, p1).Fork? {
      OnSnoc(s, p1, L);
      OnSnoc(s, p1, R);
      DropFromKeeps(e, p1 + [L], p2, v);
      DropFromKeeps(DropFrom(e, p1 + [L], p2).0, p1 + [R], p2, v);
    } else if At(s, p2).Fork? {
      OnSnoc(s, p2, L);
      OnSnoc(s, p2, R);
      var a := DropFrom(e, p1, p2 + [L]);
      DropFromKeeps(e, p1, p2 + [L], v);
      DropFromKeeps(a.0, p1, p2 + [R], v);
      DropOperandKeeps(DropFrom(a.0, p1, p2 + [R]).0, p1, p2, v);
    } else if p1 != p2 {
      DropOperandKeeps(e, p1, p2, v);
    }
  }

  lemma {:induction false} DropOperandKeeps(e: Expr, p1: Path, p2: Path, v: Valuation)
    requires Operand(e, p1) && On(Top(e), p2) && WellTyped(v)
    ensures Keeps(Value(e, v), Value(DropOperand(e, p1, p2).0, v))
    decreases Size(e), 0, 0
  {
    var op, x := OpOf(e), Get(OpOf(e), e, p1);
    if IsConnective(x) {
      var inner := DropContradicted(x);
      DropContradictedKeeps(x, v);
      var e' := WithOperand(e, p1, inner.0);
      ReplaceOperand(e, p1, inner.0, v);
      if Contradicts(op, inner.0, Get(op, e', p2)) {
        ContradictedBound(op, inner.0, Get(op, e', p2), v);
        ReplaceContradicted(e', p1, p2, v);
      }
    }
  }

  // Both connectives pass on what their operands keep.
  lemma {:induction false} ReplaceOperand(e: Expr, p: Path, x: Expr, v: Valuation)
    requires Operand(e, p) && !IsNode(OpOf(e), x) && FixesYn(v)
    requires Keeps(Value(Get(OpOf(e), e, p), v), Value(x, v))
    ensures Keeps(Value(e, v), Value(WithOperand(e, p, x), v))
    ensures Value(x, v) == Value(Get(OpOf(e), e, p), v) ==> Value(WithOperand(e, p, x), v) == Value(e, v)
  {
    var rest := ValueOfOperand(e, p, x, v);
  }

  lemma {:induction false} ReplaceContradicted(e: Expr, p1: Path, p2: Path, v: Valuation)
    requires Operand(e, p1) && On(Top(e), p2) && FixesYn(v)
    requires var x, y := Get(OpOf(e), e, p1), Get(OpOf(e), e, p2);
             if e.And? then Value(y, v) <= TriNot(Value(x, v)) else Value(y, v) >= TriNot(Value(x, v))
    ensures Keeps(Value(e, v), Value(WithOperand(e, p1, Absorbing(OpOf(e))), v))
  {
    ValueAround(OpOf(e), e, p2, v);
    var rest := ValueOfOperand(e, p1, Absorbing(OpOf(e)), v);
  }

  lemma {:induction false} OnePassKeeps(e: Expr, v: Valuation)
    requires IsConnective(e) && WellTyped(v)
    ensures Keeps(Value(e, v), Value(OnePass(e).0, v))
  {
    JoinPairsExact(e, v);
    DropContradictedKeeps(JoinPairs(e).0, v);
  }

  lemma {:induction false} OnePassAccounted(e: Expr)
    requires IsConnective(e)
    ensures Accounted(e, OnePass(e))
  {
    JoinPairsAccounted(e);
    DropContradictedAccounted(JoinPairs(e).0);
  }

  // ----- the whole simplification -----

  // One more round is needed.
  predicate Unfinished(e: Expr) {
    IsConnective(e) && OnePass(e).1 > 0
  }

  function NextRound(e: Expr): (r: Expr)
    requires Unfinished(e)
    ensures Size(r) < Size(e)
  {
    OnePassAccounted(e);
    EliminateYnShrinks(OnePass(e).0);
    EliminateYn(OnePass(e).0)
  }

  function Simplify(e: Expr): (r: Expr)
    ensures Size(r) <= Size(e)
    decreases Size(e)
  {
    if Unfinished(e) then Simplify(NextRound(e)) else e
  }

  /** The loop as it runs: both passes, then constant elimination, while something was rewritten.
      Every round but the last makes the tree smaller. */
  method EliminateDups(e0: Expr) returns (e: Expr)
    ensures e == Simplify(e0)
  {
    e := e0;
    while true
      invariant Simplify(e) == Simplify(e0)
      decreases Size(e)
    {
      var transCount := 0;
      ghost var before := e;
      if IsConnective(e) {
        var joined := JoinPairs(e);
        var dropped := DropContradicted(joined.0);
        e, transCount := dropped.0, joined.1 + dropped.1;
        OnePassAccounted(before);
      }
      if transCount == 0 {
        return;
      }
      EliminateYnShrinks(e);
      e := EliminateYn(e);
      assert e == NextRound(before);
    }
  }

  /** Simplifying keeps every value but `m`. */
  lemma {:induction false} SimplifyKeeps(e: Expr, v: Valuation)
    requires WellTyped(v)
    ensures Keeps(Value(e, v), Value(Simplify(e), v))
    decreases Size(e)
  {
    if Unfinished(e) {
      OnePassKeeps(e, v);
      EliminateYnPreservesValue(OnePass(e).0, v);
      SimplifyKeeps(NextRound(e), v);
    }
  }

  /** A simplified tree is stable: neither pass finds anything more to do. */
  lemma {:induction false} SimplifyIdempotent(e: Expr)
    ensures Simplify(Simplify(e)) == Simplify(e)
    ensures IsConnective(Simplify(e)) ==> OnePass(Simplify(e)) == (Simplify(e), 0)
    decreases Size(e)
  {
    if Unfinished(e) {
      SimplifyIdempotent(NextRound(e));
    } else if IsConnective(e) {
      OnePassAccounted(e);
    }
  }
}
