/**
 Comparing dependency trees: constant elimination, the pairwise cancelling of common operands,
 and the equality test that is mutually recursive with it.
 */
module ExprEquality {
  import opened Expressions

  // ----- constant elimination -----

  // One node whose operands are already free of constants.
  function EliminateYnNode(op: Op, l: Expr, r: Expr): (e: Expr)
    ensures Size(e) <= 1 + Size(l) + Size(r)
    ensures IsYn(l) || IsYn(r) ==> Size(e) < 1 + Size(l) + Size(r)
  {
    if l == Absorbing(op) then l
    else if l == Neutral(op) then r
    else if r == Absorbing(op) then r
    else if r == Neutral(op) then l
    else Node(op, l, r)
  }

  function EliminateYn(e: Expr): (r: Expr)
    ensures Size(r) <= Size(e)
  {
    match e
    case Or(a, b) => EliminateYnNode(OrOp, EliminateYn(a), EliminateYn(b))
    case And(a, b) => EliminateYnNode(AndOp, EliminateYn(a), EliminateYn(b))
    case _ => e
  }

  lemma {:induction false} EliminateYnPreservesValue(e: Expr, v: Valuation)
    requires FixesYn(v)
    ensures Value(EliminateYn(e), v) == Value(e, v)
  {
    if IsConnective(e) {
      EliminateYnPreservesValue(e.left, v);
      EliminateYnPreservesValue(e.right, v);
      EliminateYnNodeExact(OpOf(e), EliminateYn(e.left), EliminateYn(e.right), v);
      ValueOfNode(OpOf(e), e, v);
    }
  }

  lemma EliminateYnNodeExact(op: Op, l: Expr, r: Expr, v: Valuation)
    requires FixesYn(v)
    ensures Value(EliminateYnNode(op, l, r), v) == Apply(op, Value(l, v), Value(r, v))
  {
    if l == Absorbing(op) || l == Neutral(op) {
      Units(op, Value(r, v), v);
    } else if r == Absorbing(op) || r == Neutral(op) {
      Units(op, Value(l, v), v);
    } else {
      ValueOfNode(op, Node(op, l, r), v);
    }
  }

  // A constant directly below a connective, somewhere that elimination looks.
  predicate HasYnOperand(e: Expr) {
    IsConnective(e) &&
    (IsYn(e.left) || IsYn(e.right) || HasYnOperand(e.left) || HasYnOperand(e.right))
  }

  lemma {:induction false} EliminateYnShrinks(e: Expr)
    requires HasYnOperand(e)
    ensures Size(EliminateYn(e)) < Size(e)
  {
    if HasYnOperand(e.left) {
      EliminateYnShrinks(e.left);
    }
    if HasYnOperand(e.right) {
      EliminateYnShrinks(e.right);
    }
  }

  lemma {:induction false} EliminateYnLeavesNone(e: Expr)
    ensures !HasYnOperand(EliminateYn(e))
  {
    if IsConnective(e) {
      EliminateYnLeavesNone(e.left);
      EliminateYnLeavesNone(e.right);
    }
  }

  // ----- cancelling common operands, and equality -----

  /** Every operand of `e1` under `op` against every operand of `e2`; a pair found equal is
      replaced on both sides by the constant that changes nothing. */
  function CancelCommon(op: Op, e1: Expr, e2: Expr): (r: (Expr, Expr))
    ensures Size(r.0) <= Size(e1) && Size(r.1) <= Size(e2)
    decreases Size(e1) + Size(e2), if IsNode(op, e1) || IsNode(op, e2) then 0 else 3
  {
    if IsNode(op, e1) then
      var (l, e2') := CancelCommon(op, e1.left, e2);
      var (r, e2'') := CancelCommon(op, e1.right, e2');
      (Node(op, l, r), e2'')
    else if IsNode(op, e2) then
      var (e1', l) := CancelCommon(op, e1, e2.left);
      var (e1'', r) := CancelCommon(op, e1', e2.right);
      (e1'', Node(op, l, r))
    else if e1 == e2 && IsYn(e1) then
      (e1, e2)
    else if ExprEq(e1, e2) then
      (Neutral(op), Neutral(op))
    else
      (e1, e2)
  }

  function EliminateEq(e1: Expr, e2: Expr): (r: (Expr, Expr))
    decreases Size(e1) + Size(e2), 1
  {
    var (a, b) := if IsConnective(e1) then CancelCommon(OpOf(e1), e1, e2) else (e1, e2);
    var (c, d) := if IsConnective(b) && !IsNode(OpOf(b), a) then CancelCommon(OpOf(b), a, b) else (a, b);
    (EliminateYn(c), EliminateYn(d))
  }

  predicate ExprEq(e1: Expr, e2: Expr)
    decreases Size(e1) + Size(e2), 2
  {
    match (e1, e2)
    case (Equal(a, b), Equal(c, d)) => a == c && b == d
    case (Unequal(a, b), Unequal(c, d)) => a == c && b == d
    case (Sym(a), Sym(b)) => a == b
    case (Not(a), Not(b)) => ExprEq(a, b)
    case (And(_, _), And(_, _)) => SameSymbol(EliminateEq(e1, e2))
    case (Or(_, _), Or(_, _)) => SameSymbol(EliminateEq(e1, e2))
    case _ => false
  }

  predicate SameSymbol(p: (Expr, Expr)) {
    p.0.Sym? && p.1.Sym? && p.0.sym == p.1.sym
  }

  // ----- soundness -----

  /** Cancelling conserves meaning: one common part `m` was taken out of both sides. */
  lemma {:induction false} CancelCommonConserves(op: Op, e1: Expr, e2: Expr, v: Valuation) returns (m: Tristate)
    requires FixesYn(v)
    ensures var (r1, r2) := CancelCommon(op, e1, e2);
            && Value(e1, v) == Apply(op, Value(r1, v), m)
            && Value(e2, v) == Apply(op, Value(r2, v), m)
    decreases Size(e1) + Size(e2), if IsNode(op, e1) || IsNode(op, e2) then 0 else 3
  {
    if IsNode(op, e1) {
      var (l, e2') := CancelCommon(op, e1.left, e2);
      var (r, e2'') := CancelCommon(op, e1.right, e2');
      var m1 := CancelCommonConserves(op, e1.left, e2, v);
      var m2 := CancelCommonConserves(op, e1.right, e2', v);
      m := Apply(op, m1, m2);
      Regroup(op, Value(l, v), Value(r, v), m1, m2);
      Assoc(op, Value(e2'', v), m2, m1);
      Comm(op, m1, m2);
      ValueOfNode(op, e1, v);
      ValueOfNode(op, Node(op, l, r), v);
    } else if IsNode(op, e2) {
      var (e1', l) := CancelCommon(op, e1, e2.left);
      var (e1'', r) := CancelCommon(op, e1', e2.right);
      var m1 := CancelCommonConserves(op, e1, e2.left, v);
      var m2 := CancelCommonConserves(op, e1', e2.right, v);
      m := Apply(op, m1, m2);
      Regroup(op, Value(l, v), Value(r, v), m1, m2);
      Assoc(op, Value(e1'', v), m2, m1);
      Comm(op, m1, m2);
      ValueOfNode(op, e2, v);
      ValueOfNode(op, Node(op, l, r), v);
    } else if !(e1 == e2 && IsYn(e1)) && ExprEq(e1, e2) {
      ExprEqSound(e1, e2, v);
      m := Value(e1, v);
      Units(op, m, v);
    } else {
      m := Value(Neutral(op), v);
      Units(op, Value(e1, v), v);
      Units(op, Value(e2, v), v);
    }
  }

  /** What is left on both sides orders the two trees as they were ordered. */
  lemma {:induction false} EliminateEqOrders(e1: Expr, e2: Expr, v: Valuation)
    requires FixesYn(v)
    ensures var (r1, r2) := EliminateEq(e1, e2);
            && (Value(r1, v) <= Value(r2, v) ==> Value(e1, v) <= Value(e2, v))
            && (Value(r2, v) <= Value(r1, v) ==> Value(e2, v) <= Value(e1, v))
    decreases Size(e1) + Size(e2), 1
  {
    var (a, b) := if IsConnective(e1) then CancelCommon(OpOf(e1), e1, e2) else (e1, e2);
    var (c, d) := if IsConnective(b) && !IsNode(OpOf(b), a) then CancelCommon(OpOf(b), a, b) else (a, b);
    EliminateYnPreservesValue(c, v);
    EliminateYnPreservesValue(d, v);
    if IsConnective(b) && !IsNode(OpOf(b), a) {
      var m := CancelCommonConserves(OpOf(b), a, b, v);
      BothMonotone(OpOf(b), Value(c, v), Value(d, v), m);
    }
    if IsConnective(e1) {
      var m := CancelCommonConserves(OpOf(e1), e1, e2, v);
      BothMonotone(OpOf(e1), Value(a, v), Value(b, v), m);
    }
  }

  lemma BothMonotone(op: Op, a: Tristate, b: Tristate, m: Tristate)
    ensures a <= b ==> Apply(op, a, m) <= Apply(op, b, m)
    ensures b <= a ==> Apply(op, b, m) <= Apply(op, a, m)
  {
    if a <= b {
      Monotone(op, a, b, m);
    } else {
      Monotone(op, b, a, m);
    }
  }

  /** A positive answer of the equality test means the same value everywhere. */
  lemma {:induction false} ExprEqSound(e1: Expr, e2: Expr, v: Valuation)
    requires FixesYn(v)
    requires ExprEq(e1, e2)
    ensures Value(e1, v) == Value(e2, v)
    decreases Size(e1) + Size(e2), 2
  {
    match (e1, e2)
    case (Not(a), Not(b)) => ExprEqSound(a, b, v);
    case (And(_, _), And(_, _)) => EliminateEqOrders(e1, e2, v);
    case (Or(_, _), Or(_, _)) => EliminateEqOrders(e1, e2, v);
    case _ =>
  }

  // ----- reflexivity -----

  // `e` with every operand under `op` cancelled, as comparing it with itself leaves it.
  function Cancelled(op: Op, e: Expr): Expr {
    if IsNode(op, e) then Node(op, Cancelled(op, e.left), Cancelled(op, e.right))
    else if IsYn(e) then e
    else Neutral(op)
  }

  // All operands under `op` are constants.
  predicate AllYn(op: Op, e: Expr) {
    if IsNode(op, e) then AllYn(op, e.left) && AllYn(op, e.right) else IsYn(e)
  }

  // One step of the way from a tree to one of its operands.
  datatype Frame = InLeft(right: Expr) | InRight(left: Expr)

  function Plug(op: Op, ctx: seq<Frame>, e: Expr): Expr {
    if ctx == [] then e
    else match ctx[0]
      case InLeft(r) => Node(op, Plug(op, ctx[1..], e), r)
      case InRight(l) => Node(op, l, Plug(op, ctx[1..], e))
  }

  lemma {:induction false} PlugSnoc(op: Op, ctx: seq<Frame>, f: Frame, e: Expr)
    ensures Plug(op, ctx + [f], e) == Plug(op, ctx, Plug(op, [f], e))
  {
    if ctx == [] {
      assert ctx + [f] == [f];
    } else {
      assert (ctx + [f])[1..] == ctx[1..] + [f];
      PlugSnoc(op, ctx[1..], f, e);
    }
  }

  // Everything to the left of the hole is cancelled already.
  predicate LeftDone(op: Op, ctx: seq<Frame>) {
    forall i :: 0 <= i < |ctx| && ctx[i].InRight? ==> AllYn(op, ctx[i].left)
  }

  lemma {:induction false} CancelledAllYn(op: Op, e: Expr)
    ensures AllYn(op, Cancelled(op, e))
  {
    if IsNode(op, e) {
      CancelledAllYn(op, e.left);
      CancelledAllYn(op, e.right);
    }
  }

  // A constant operand cancels against nothing.
  lemma {:induction false} ConstantIsInert(op: Op, c: Expr, t: Expr)
    requires IsYn(c)
    ensures CancelCommon(op, c, t) == (c, t)
  {
    if IsNode(op, t) {
      ConstantIsInert(op, c, t.left);
      ConstantIsInert(op, c, t.right);
    }
  }

  // Nothing but a constant cancels against constants.
  lemma {:induction false} ConstantsAreInert(op: Op, x: Expr, t: Expr)
    requires !IsNode(op, x) && AllYn(op, t)
    ensures CancelCommon(op, x, t) == (x, t)
  {
    if IsNode(op, t) {
      ConstantsAreInert(op, x, t.left);
      ConstantsAreInert(op, x, t.right);
    }
  }

  lemma {:induction false} OperandMeetsItself(op: Op, x: Expr, ctx: seq<Frame>)
    requires !IsNode(op, x) && ExprEq(x, x) && LeftDone(op, ctx)
    ensures CancelCommon(op, x, Plug(op, ctx, x)) == (Cancelled(op, x), Plug(op, ctx, Cancelled(op, x)))
    decreases |ctx|
  {
    if ctx != [] {
      OperandMeetsItself(op, x, ctx[1..]);
      match ctx[0]
      case InLeft(r) => ConstantIsInert(op, Cancelled(op, x), r);
      case InRight(l) => assert AllYn(op, l); ConstantsAreInert(op, x, l);
    }
  }

  /** Comparing a part of a tree with the tree cancels exactly that part. */
  lemma {:induction false} PartMeetsItself(op: Op, s: Expr, ctx: seq<Frame>)
    requires LeftDone(op, ctx)
    ensures CancelCommon(op, s, Plug(op, ctx, s)) == (Cancelled(op, s), Plug(op, ctx, Cancelled(op, s)))
    decreases s, 2
  {
    if IsNode(op, s) {
      var inL, inR := InLeft(s.right), InRight(Cancelled(op, s.left));
      CancelledAllYn(op, s.left);
      PlugSnoc(op, ctx, inL, s.left);
      PlugSnoc(op, ctx, inL, Cancelled(op, s.left));
      PlugSnoc(op, ctx, inR, s.right);
      PlugSnoc(op, ctx, inR, Cancelled(op, s.right));
      PartMeetsItself(op, s.left, ctx + [inL]);
      PartMeetsItself(op, s.right, ctx + [inR]);
    } else {
      ExprEqReflexive(s);
      OperandMeetsItself(op, s, ctx);
    }
  }

  lemma {:induction false} AllYnCollapses(op: Op, e: Expr)
    requires AllYn(op, e)
    ensures IsYn(EliminateYn(e))
  {
    if IsNode(op, e) {
      AllYnCollapses(op, e.left);
      AllYnCollapses(op, e.right);
    }
  }

  lemma {:induction false} ExprEqReflexive(e: Expr)
    ensures ExprEq(e, e)
    decreases e, 1
  {
    match e
    case Not(x) => ExprEqReflexive(x);
    case Or(_, _) => ConnectiveEqualsItself(OrOp, e);
    case And(_, _) => ConnectiveEqualsItself(AndOp, e);
    case _ =>
  }

  lemma {:induction false} ConnectiveEqualsItself(op: Op, e: Expr)
    requires IsNode(op, e)
    ensures ExprEq(e, e)
    decreases e, 0
  {
    var c := Cancelled(op, e);
    assert CancelCommon(op, e, e) == (c, c) by {
      var inL, inR := InLeft(e.right), InRight(Cancelled(op, e.left));
      CancelledAllYn(op, e.left);
      PartMeetsItself(op, e.left, [inL]);
      PartMeetsItself(op, e.right, [inR]);
      assert Plug(op, [inL], e.left) == e;
    }
    CancelledAllYn(op, e);
    AllYnCollapses(op, c);
  }
}
