/**
 What the duplicate removal reaches and where it stops: simplified trees are exactly those with no
 two operands to join and no contradicted operand, and `m` is exactly the value it may change.
 */
module ExprStable {
  import opened Expressions
  import opened ExprEquality
  import opened Wrappers
  import opened ExprTransform
  import opened ExprSpine
  import opened ExprJoin
  import opened ExprDups

  // ----- trees on which the first pass does nothing -----

  // No two operands can be joined, here or inside an operand.
  ghost predicate NoJoin(e: Expr)
    requires IsConnective(e)
    decreases Size(e)
  {
    forall p1, p2 | Operand(e, p1) && Operand(e, p2) && p1 != p2 :: NoJoinAt(e, p1, p2)
  }

  ghost predicate NoJoinAt(e: Expr, p1: Path, p2: Path)
    requires Operand(e, p1) && Operand(e, p2)
    decreases Size(e), 0
  {
    var op := OpOf(e);
    && Join(op, Get(op, e, p1), Get(op, e, p2)).None?
    && (IsConnective(Get(op, e, p1)) ==> NoJoin(Get(op, e, p1)))
  }

  // `q` is at or below `p`.
  predicate Below(p: Path, q: Path) {
    p <= q
  }

  // An operand below an inner node is below one of its children.
  lemma BelowChild(s: Shape, p: Path, q: Path)
    requires On(s, p) && At(s, p).Fork? && On(s, q) && Below(p, q)
    ensures q == p || Below(p + [L], q) || Below(p + [R], q)
  {
    if q != p {
      assert q[..|p| + 1] == p + [q[|p|]];
    }
  }

  // Nothing is below an operand but itself.
  lemma {:induction false} OnlyTip(s: Shape, p: Path, q: Path)
    requires On(s, p) && At(s, p).Tip? && On(s, q)
    ensures Below(p, q) ==> q == p
    decreases |p|
  {
    if p != [] && Below(p, q) {
      assert p == [p[0]] + p[1..] && q == [q[0]] + q[1..];
      OnlyTip(Child(s, p[0]), p[1..], q[1..]);
    }
  }

  // No operand at or below `p1` can be joined with one at or below `p2`.
  ghost predicate NoJoinBelow(e: Expr, p1: Path, p2: Path)
    requires IsConnective(e)
  {
    forall q1, q2 | Operand(e, q1) && Operand(e, q2) && q1 != q2 && Below(p1, q1) && Below(p2, q2) ::
      NoJoinAt(e, q1, q2)
  }

  lemma {:induction false} NoJoinBelowFork(e: Expr, p1: Path, p2: Path)
    requires IsConnective(e) && On(Top(e), p1) && On(Top(e), p2)
    ensures At(Top(e), p1).Fork? ==>
              (NoJoinBelow(e, p1, p2) <==> NoJoinBelow(e, p1 + [L], p2) && NoJoinBelow(e, p1 + [R], p2))
    ensures At(Top(e), p2).Fork? ==>
              (NoJoinBelow(e, p1, p2) <==> NoJoinBelow(e, p1, p2 + [L]) && NoJoinBelow(e, p1, p2 + [R]))
  {
    forall q | Operand(e, q)
      ensures At(Top(e), p1).Fork? && Below(p1, q) ==> Below(p1 + [L], q) || Below(p1 + [R], q)
      ensures At(Top(e), p2).Fork? && Below(p2, q) ==> Below(p2 + [L], q) || Below(p2 + [R], q)
    {
      if At(Top(e), p1).Fork? && Below(p1, q) {
        BelowChild(Top(e), p1, q);
      }
      if At(Top(e), p2).Fork? && Below(p2, q) {
        BelowChild(Top(e), p2, q);
      }
    }
  }

  lemma {:induction false} NoJoinBelowTips(e: Expr, p1: Path, p2: Path)
    requires Operand(e, p1) && Operand(e, p2)
    ensures NoJoinBelow(e, p1, p2) <==> p1 == p2 || NoJoinAt(e, p1, p2)
  {
    forall q | Operand(e, q)
      ensures Below(p1, q) ==> q == p1
      ensures Below(p2, q) ==> q == p2
    {
      OnlyTip(Top(e), p1, q);
      OnlyTip(Top(e), p2, q);
    }
    assert Below(p1, p1) && Below(p2, p2);
  }

  /** The first pass rewrites nothing exactly when no two operands can be joined. */
  lemma {:induction false} JoinPairsDone(e: Expr)
    requires IsConnective(e)
    ensures JoinPairs(e).1 == 0 <==> NoJoin(e)
    decreases Size(e), 2 * Forks(Top(e)) + 1
  {
    JoinFromDone(e, [], []);
    assert forall q | Operand(e, q) :: Below([], q);
  }

  lemma {:induction false} JoinFromDone(e: Expr, p1: Path, p2: Path)
    requires IsConnective(e) && On(Top(e), p1) && On(Top(e), p2)
    ensures JoinFrom(e, p1, p2).1 == 0 <==> NoJoinBelow(e, p1, p2)
    decreases Size(e), Forks(At(Top(e), p1)) + Forks(At(Top(e), p2)), 1
  {
    var s := Top(e);
    NoJoinBelowFork(e, p1, p2);
    if At(s, p1).Fork? {
      OnSnoc(s, p1, L);
      OnSnoc(s, p1, R);
      JoinFromAccounted(e, p1 + [L], p2);
      JoinFromDone(e, p1 + [L], p2);
      JoinFromDone(e, p1 + [R], p2);
    } else if At(s, p2).Fork? {
      OnSnoc(s, p2, L);
      OnSnoc(s, p2, R);
      JoinFromAccounted(e, p1, p2 + [L]);
      JoinFromDone(e, p1, p2 + [L]);
      JoinFromDone(e, p1, p2 + [R]);
    } else {
      NoJoinBelowTips(e, p1, p2);
      if p1 != p2 {
        JoinOperandsDone(e, p1, p2);
      }
    }
  }

  lemma {:induction false} JoinOperandsDone(e: Expr, p1: Path, p2: Path)
    requires Operand(e, p1) && Operand(e, p2) && p1 != p2
    ensures JoinOperands(e, p1, p2).1 == 0 <==> NoJoinAt(e, p1, p2)
    decreases Size(e), 0, 0
  {
    var x := Get(OpOf(e), e, p1);
    PutGet(OpOf(e), e, p1);
    if IsConnective(x) {
      JoinPairsAccounted(x);
      JoinPairsDone(x);
    }
  }

  // ----- trees on which the second pass does nothing -----

  // No operand is contradicted by another part of the tree, here or inside an operand.
  ghost predicate NoContradiction(e: Expr)
    requires IsConnective(e)
    decreases Size(e)
  {
    forall p1, p2 | Operand(e, p1) && On(Top(e), p2) && p1 != p2 :: NoContradictionAt(e, p1, p2)
  }

  ghost predicate NoContradictionAt(e: Expr, p1: Path, p2: Path)
    requires Operand(e, p1) && On(Top(e), p2)
    decreases Size(e), 0
  {
    var op := OpOf(e);
    var x := Get(op, e, p1);
    IsConnective(x) ==> NoContradiction(x) && !Contradicts(op, x, Get(op, e, p2))
  }

  ghost predicate NoContradictionBelow(e: Expr, p1: Path, p2: Path)
    requires IsConnective(e)
  {
    forall q1, q2 | Operand(e, q1) && On(Top(e), q2) && q1 != q2 && Below(p1, q1) && Below(p2, q2) ::
      NoContradictionAt(e, q1, q2)
  }

  lemma {:induction false} NoContradictionFirstFork(e: Expr, p1: Path, p2: Path)
    requires IsConnective(e) && On(Top(e), p1) && On(Top(e), p2) && At(Top(e), p1).Fork?
    ensures NoContradictionBelow(e, p1, p2)
            <==> NoContradictionBelow(e, p1 + [L], p2) && NoContradictionBelow(e, p1 + [R], p2)
  {
    forall q | Operand(e, q) && Below(p1, q)
      ensures Below(p1 + [L], q) || Below(p1 + [R], q)
    {
      BelowChild(Top(e), p1, q);
    }
  }

  lemma {:induction false} NoContradictionSecondFork(e: Expr, p1: Path, p2: Path)
    requires Operand(e, p1) && On(Top(e), p2) && At(Top(e), p2).Fork?
    ensures NoContradictionBelow(e, p1, p2) <==>
            NoContradictionBelow(e, p1, p2 + [L]) && NoContradictionBelow(e, p1, p2 + [R])
            && NoContradictionAt(e, p1, p2)
  {
    assert Below(p1, p1) && Below(p2, p2);
    forall q | On(Top(e), q) && Below(p2, q)
      ensures q == p2 || Below(p2 + [L], q) || Below(p2 + [R], q)
    {
      BelowChild(Top(e), p2, q);
    }
    forall q | Operand(e, q) && Below(p1, q)
      ensures q == p1
    {
      OnlyTip(Top(e), p1, q);
    }
  }

  lemma {:induction false} NoContradictionTips(e: Expr, p1: Path, p2: Path)
    requires Operand(e, p1) && Operand(e, p2)
    ensures NoContradictionBelow(e, p1, p2) <==> p1 == p2 || NoContradictionAt(e, p1, p2)
  {
    forall q | On(Top(e), q)
      ensures Below(p1, q) ==> q == p1
      ensures Below(p2, q) ==> q == p2
    {
      OnlyTip(Top(e), p1, q);
      OnlyTip(Top(e), p2, q);
    }
    assert Below(p1, p1) && Below(p2, p2);
  }

  /** The second pass rewrites nothing exactly when no operand is contradicted. */
  lemma {:induction false} DropContradictedDone(e: Expr)
    requires IsConnective(e)
    ensures DropContradicted(e).1 == 0 <==> NoContradiction(e)
    decreases Size(e), 2 * Forks(Top(e)) + 1
  {
    DropFromDone(e, [], []);
    assert forall q | On(Top(e), q) :: Below([], q);
  }

  lemma {:induction false} DropFromDone(e: Expr, p1: Path, p2: Path)
    requires IsConnective(e) && On(Top(e), p1) && On(Top(e), p2)
    ensures DropFrom(e, p1, p2).1 == 0 <==> NoContradictionBelow(e, p1, p2)
    decreases Size(e), Forks(At(Top(e), p1)) + Forks(At(Top(e), p2)), 1
  {
    var s := Top(e);
    if At(s, p1).Fork? {
      NoContradictionFirstFork(e, p1, p2);
      OnSnoc(s, p1, L);
      OnSnoc(s, p1, R);
      DropFromAccounted(e, p1 + [L], p2);
      DropFromDone(e, p1 + [L], p2);
      DropFromDone(e, p1 + [R], p2);
    } else if At(s, p2).Fork? {
      NoContradictionSecondFork(e, p1, p2);
      OnSnoc(s, p2, L);
      OnSnoc(s, p2, R);
      DropFromAccounted(e, p1, p2 + [L]);
      DropFromDone(e, p1, p2 + [L]);
      DropFromAccounted(e, p1, p2 + [R]);
      DropFromDone(e, p1, p2 + [R]);
      DropOperandDone(e, p1, p2);
    } else {
      NoContradictionTips(e, p1, p2);
      if p1 != p2 {
        DropOperandDone(e, p1, p2);
      }
    }
  }

  lemma {:induction false} DropOperandDone(e: Expr, p1: Path, p2: Path)
    requires Operand(e, p1) && On(Top(e), p2)
    ensures DropOperand(e, p1, p2).1 == 0 <==> NoContradictionAt(e, p1, p2)
    decreases Size(e), 0, 0
  {
    var x := Get(OpOf(e), e, p1);
    PutGet(OpOf(e), e, p1);
    if IsConnective(x) {
      DropContradictedAccounted(x);
      DropContradictedDone(x);
    }
  }

  // ----- simplified trees -----

  /** Nothing can be joined and nothing is contradicted. */
  ghost predicate Irreducible(e: Expr) {
    IsConnective(e) ==> NoJoin(e) && NoContradiction(e)
  }

  lemma {:induction false} OnePassDone(e: Expr)
    requires IsConnective(e)
    ensures OnePass(e).1 == 0 <==> Irreducible(e)
  {
    JoinPairsAccounted(e);
    JoinPairsDone(e);
    if JoinPairs(e).1 == 0 {
      DropContradictedDone(e);
    }
  }

  /** Simplifying always reaches an irreducible tree, and leaves exactly those unchanged. */
  lemma {:induction false} SimplifyIsIrreducible(e: Expr)
    ensures Irreducible(Simplify(e))
    ensures Simplify(e) == e <==> Irreducible(e)
    decreases Size(e)
  {
    if IsConnective(e) {
      OnePassDone(e);
    }
    if Unfinished(e) {
      SimplifyIsIrreducible(NextRound(e));
    }
  }

  /** Constants are eliminated only after a rewrite: they survive exactly in trees that are left alone. */
  lemma {:induction false} ConstantsSurvive(e: Expr)
    ensures HasYnOperand(Simplify(e)) <==> Irreducible(e) && HasYnOperand(e)
    decreases Size(e)
  {
    SimplifyIsIrreducible(e);
    if Unfinished(e) {
      EliminateYnLeavesNone(OnePass(e).0);
      ConstantsSurvive(NextRound(e));
      OnePassDone(e);
    }
  }

  // ----- the value that may change -----

  /** `(s || y = n) && (!s && y != n)`: worth `m` when `s` is. */
  function Contradiction(s: Symbol): Expr {
    And(Or(Sym(s), Equal(SymYes, SymNo)), And(Not(Sym(s)), Unequal(SymYes, SymNo)))
  }

  // The positions in a conjunction of three.
  lemma ThreeOperands(x: Expr, y: Expr, z: Expr)
    requires !x.And? && !y.And? && !z.And?
    ensures var e := And(x, And(y, z));
            && Top(e) == Fork(Tip, Fork(Tip, Tip))
            && Operand(e, [L]) && Operand(e, [R, L]) && Operand(e, [R, R])
            && On(Top(e), [R]) && At(Top(e), [R]).Fork?
            && Get(AndOp, e, [L]) == x && Get(AndOp, e, [R]) == And(y, z)
            && Get(AndOp, e, [R, L]) == y && Get(AndOp, e, [R, R]) == z
    ensures forall p :: Operand(And(x, And(y, z)), p) ==> p == [L] || p == [R, L] || p == [R, R]
  {
    var e := And(x, And(y, z));
    assert Spine(AndOp, x) == Spine(AndOp, y) == Spine(AndOp, z) == Tip;
    assert Spine(AndOp, e.right) == Fork(Tip, Tip);
    assert [R, L][1..] == [L] && [R, R][1..] == [R] && [L][1..] == [] && [R][1..] == [];
    forall p | Operand(e, p)
      ensures p == [L] || p == [R, L] || p == [R, R]
    {
      TipsOfThree(p);
    }
  }

  lemma TipsOfThree(p: Path)
    requires var s := Fork(Tip, Fork(Tip, Tip)); On(s, p) && At(s, p).Tip?
    ensures p == [L] || p == [R, L] || p == [R, R]
  {
    assert p == [p[0]] + p[1..];
    if p[0] == R {
      var q := p[1..];
      assert On(Fork(Tip, Tip), q) && At(Fork(Tip, Tip), q).Tip?;
      assert q == [q[0]] + q[1..];
      assert On(Child(Fork(Tip, Tip), q[0]), q[1..]);
    }
  }

  lemma {:induction false} ContradictionJoinsNothing(s: Symbol)
    requires !s.BuiltIn()
    ensures NoJoin(Contradiction(s))
  {
    var e := Contradiction(s);
    var x := e.left;
    ThreeOperands(x, e.right.left, e.right.right);
    assert NoJoin(x) by {
      assert Spine(OrOp, x.left) == Spine(OrOp, x.right) == Tip;
      forall p1, p2 | Operand(x, p1) && Operand(x, p2) && p1 != p2
        ensures NoJoinAt(x, p1, p2)
      {
        assert p1 == [p1[0]] + p1[1..] && p2 == [p2[0]] + p2[1..];
      }
    }
  }

  // Only the conjunction of both negated operands contradicts the disjunction.
  lemma {:induction false} WhatContradicts(s: Symbol)
    requires !s.BuiltIn()
    ensures var e := Contradiction(s);
            && !Contradicts(AndOp, e.left, e.right.left)
            && !Contradicts(AndOp, e.left, e.right.right)
            && Contradicts(AndOp, e.left, e.right)
  {
    var e := Contradiction(s);
    var a, b := e.right.left, e.right.right;
    assert Transform(Not(e.left)) == e.right by {
      assert Transform(e.left) == e.left;
      assert Transform(Not(Sym(s))) == a && Transform(Not(Equal(SymYes, SymNo))) == b;
    }
    ExprEqReflexive(a);
    ExprEqReflexive(b);
    var y := Sym(SymYes);
    assert ExtractEq(AndOp, None, a, a) == Extraction(Some(a), y, y);
    assert ExtractEq(AndOp, Some(a), b, y) == Extraction(Some(a), b, y);
    assert ExtractEq(AndOp, None, a, b) == Extraction(None, a, b);
    assert ExtractEq(AndOp, None, b, b) == Extraction(Some(b), y, y);
    assert ExtractEq(AndOp, Some(a), y, b) == Extraction(Some(a), y, b);
    assert ExtractEq(AndOp, None, e.right, a) == Extraction(Some(a), And(y, b), y);
    assert ExtractEq(AndOp, None, e.right, b) == Extraction(Some(b), And(a, y), y);
    assert EliminateYn(And(y, b)) == b && EliminateYn(And(a, y)) == a;
    assert ExtractEq(AndOp, None, a, e.right) == Extraction(Some(a), y, And(y, b));
    assert ExtractEq(AndOp, Some(a), b, b) == Extraction(Some(And(a, b)), y, y);
    assert ExtractEq(AndOp, Some(a), b, And(y, b)) == Extraction(Some(And(a, b)), y, And(y, y));
  }

  // An operand with nothing to do inside.
  lemma {:induction false} DropSettledOperand(e: Expr, p1: Path, p2: Path)
    requires Operand(e, p1) && On(Top(e), p2)
    requires var x := Get(OpOf(e), e, p1); IsConnective(x) && DropContradicted(x) == (x, 0)
    ensures DropOperand(e, p1, p2) ==
            if Contradicts(OpOf(e), Get(OpOf(e), e, p1), Get(OpOf(e), e, p2))
            then (WithOperand(e, p1, Absorbing(OpOf(e))), 1) else (e, 0)
  {
    PutGet(OpOf(e), e, p1);
  }

  // The second pass with its first pointer at the disjunction.
  lemma {:induction false} DisjunctionDrops(s: Symbol)
    requires !s.BuiltIn()
    ensures Operand(Contradiction(s), [L])
    ensures DropFrom(Contradiction(s), [L], []) == (And(Sym(SymNo), Contradiction(s).right), 1)
  {
    var e := Contradiction(s);
    var x, y, z := e.left, e.right.left, e.right.right;
    var r := And(Sym(SymNo), e.right);
    ThreeOperands(x, y, z);
    ThreeOperands(Sym(SymNo), y, z);
    assert DropFrom(e, [L], [R]) == (r, 1) by {
      assert [R] + [L] == [R, L] && [R] + [R] == [R, R];
      SecondHalfDrops(s);
    }
    assert [] + [L] == [L] && [] + [R] == [R];
    assert DropFrom(e, [L], [L]) == (e, 0);
    assert DropOperand(r, [L], []) == (r, 0);
  }

  lemma {:induction false} SecondHalfDrops(s: Symbol)
    requires !s.BuiltIn()
    ensures var e := Contradiction(s);
            && Operand(e, [L]) && Operand(e, [R, L]) && Operand(e, [R, R]) && On(Top(e), [R])
            && DropOperand(e, [L], [R, L]) == (e, 0)
            && DropOperand(e, [L], [R, R]) == (e, 0)
            && DropOperand(e, [L], [R]) == (And(Sym(SymNo), e.right), 1)
  {
    var e := Contradiction(s);
    ThreeOperands(e.left, e.right.left, e.right.right);
    DisjunctionIsDone(s);
    WhatContradicts(s);
    DropSettledOperand(e, [L], [R, L]);
    DropSettledOperand(e, [L], [R, R]);
    DropSettledOperand(e, [L], [R]);
  }

  lemma {:induction false} DisjunctionIsDone(s: Symbol)
    ensures DropContradicted(Contradiction(s).left) == (Contradiction(s).left, 0)
  {
    var x := Contradiction(s).left;
    assert Spine(OrOp, x.left) == Spine(OrOp, x.right) == Tip;
    forall p1, p2 | Operand(x, p1) && On(Top(x), p2)
      ensures NoContradictionAt(x, p1, p2)
    {
      assert p1 == [p1[0]] + p1[1..];
    }
    DropContradictedDone(x);
    DropContradictedAccounted(x);
  }

  lemma {:induction false} ContradictionDrops(s: Symbol)
    requires !s.BuiltIn()
    ensures DropContradicted(Contradiction(s)) == (And(Sym(SymNo), Contradiction(s).right), 1)
  {
    var e := Contradiction(s);
    var r := And(Sym(SymNo), e.right);
    DisjunctionDrops(s);
    ThreeOperands(Sym(SymNo), e.right.left, e.right.right);
    assert [] + [L] == [L] && [] + [R] == [R];
    NothingMoreDrops(e.right.left, e.right.right);
  }

  // Operands that are no connectives contradict nothing.
  lemma {:induction false} NothingMoreDrops(y: Expr, z: Expr)
    requires !IsConnective(y) && !IsConnective(z)
    ensures var r := And(Sym(SymNo), And(y, z)); On(Top(r), [R]) && On(Top(r), []) && DropFrom(r, [R], []) == (r, 0)
  {
    var r := And(Sym(SymNo), And(y, z));
    ThreeOperands(Sym(SymNo), y, z);
    assert NoContradictionBelow(r, [R], []);
    DropFromDone(r, [R], []);
    DropFromAccounted(r, [R], []);
  }

  lemma {:induction false} ContradictionSimplifies(s: Symbol)
    requires !s.BuiltIn()
    ensures Simplify(Contradiction(s)) == Sym(SymNo)
  {
    var e := Contradiction(s);
    ContradictionJoinsNothing(s);
    JoinPairsDone(e);
    JoinPairsAccounted(e);
    ContradictionDrops(s);
    var r := And(Sym(SymNo), e.right);
    assert OnePass(e) == (r, 1);
    assert EliminateYn(r) == EliminateYnNode(AndOp, Sym(SymNo), EliminateYn(e.right));
    assert NextRound(e) == Sym(SymNo);
  }

  // The symbols that stand by themselves, outside comparisons.
  function PlainSymbols(e: Expr): set<Symbol> {
    match e
    case Or(a, b) => PlainSymbols(a) + PlainSymbols(b)
    case And(a, b) => PlainSymbols(a) + PlainSymbols(b)
    case Not(x) => PlainSymbols(x)
    case Sym(s) => {s}
    case _ => {}
  }

  lemma {:induction false} TwoValued(e: Expr, v: Valuation)
    requires forall s :: s in PlainSymbols(e) ==> v.tri(s) != MOD
    ensures Value(e, v) != MOD
  {
    match e
    case Or(a, b) => TwoValued(a, v); TwoValued(b, v);
    case And(a, b) => TwoValued(a, v); TwoValued(b, v);
    case Not(x) => TwoValued(x, v);
    case _ =>
  }

  /** A valuation in which all tristate symbols are worth `t`. */
  function Uniform(t: Tristate): Valuation {
    Valuation(
      (s: Symbol) =>
        match s
        case SymYes => YES
        case SymMod => MOD
        case SymNo => NO
        case Literal(_) => NO
        case Entry(_, ty) => if ty == TTristate then t else NO,
      (s: Symbol) =>
        match s
        case SymYes => "y"
        case SymMod => "m"
        case SymNo => "n"
        case Literal(k) => seq(k + 2, _ => '0')
        case Entry(_, ty) => if ty == TTristate then TriText(t) else "n")
  }

  lemma UniformIsWellTyped(t: Tristate)
    ensures WellTyped(Uniform(t))
  {
    var v := Uniform(t);
    forall a: Symbol, b: Symbol | a.Const() && b.Const() && a != b
      ensures v.str(a) != v.str(b)
    {
      assert a.Literal? ==> |v.str(a)| == a.id + 2;
      assert b.Literal? ==> |v.str(b)| == b.id + 2;
    }
  }

  /** The exact boundary, value by value: simplifying keeps a value everywhere if and only if that
      value is not `m`. */
  lemma {:induction false} SimplifyBoundary(t: Tristate)
    ensures (forall e, v :: WellTyped(v) && Value(e, v) == t ==> Value(Simplify(e), v) == t) <==> t != MOD
  {
    if t != MOD {
      forall e, v | WellTyped(v) && Value(e, v) == t
        ensures Value(Simplify(e), v) == t
      {
        SimplifyKeeps(e, v);
      }
    } else {
      ModIsLost(Entry(0, TTristate));
    }
  }

  lemma ModIsLost(s: Symbol)
    requires s.Type() == TTristate
    ensures exists e, v :: WellTyped(v) && Value(e, v) == MOD && Value(Simplify(e), v) == NO
  {
    var e, v := Contradiction(s), Uniform(MOD);
    UniformIsWellTyped(MOD);
    ContradictionIsMod(s, v);
    ContradictionSimplifies(s);
    assert WellTyped(v) && Value(e, v) == MOD && Value(Simplify(e), v) == NO;
  }

  lemma ContradictionIsMod(s: Symbol, v: Valuation)
    requires WellTyped(v) && v.tri(s) == MOD
    ensures Value(Contradiction(s), v) == MOD
  {
    var e := Contradiction(s);
    assert Value(e.left.left, v) == MOD && Value(e.right.left, v) == MOD;
    assert v.str(SymYes) != v.str(SymNo);
    assert Value(e.left.right, v) == NO && Value(e.right.right, v) == YES;
    assert Value(e.left, v) == MOD && Value(e.right, v) == MOD;
  }

  lemma SymbolOfContradiction(s: Symbol)
    ensures PlainSymbols(Contradiction(s)) == {s}
  {
    var e := Contradiction(s);
    assert PlainSymbols(e.left) == {s};
    assert PlainSymbols(e.right.left) == {s} && PlainSymbols(e.right.right) == {};
    assert PlainSymbols(e.right) == {s};
  }

  /** The exact boundary, valuation by valuation: simplifying is exact on all trees in which
      the constant `m` does not stand by itself, if and only if no other symbol is worth `m`. */
  lemma {:induction false} ValuationBoundary(v: Valuation)
    requires WellTyped(v)
    ensures (forall e :: SymMod !in PlainSymbols(e) ==> Value(Simplify(e), v) == Value(e, v))
            <==> (forall s: Symbol :: s != SymMod ==> v.tri(s) != MOD)
  {
    if forall s: Symbol :: s != SymMod ==> v.tri(s) != MOD {
      forall e | SymMod !in PlainSymbols(e)
        ensures Value(Simplify(e), v) == Value(e, v)
      {
        TwoValued(e, v);
        SimplifyKeeps(e, v);
      }
    } else {
      var s: Symbol :| s != SymMod && v.tri(s) == MOD;
      ContradictionIsMod(s, v);
      ContradictionSimplifies(s);
      SymbolOfContradiction(s);
    }
  }
}
