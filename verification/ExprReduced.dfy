/**
 What duplicate removal removes, without looking at how it joins: in a simplified tree no two operands of
 one connective are equal, and no two say together what one comparison could.
 */
module ExprReduced {
  import opened Expressions
  import opened ExprEquality
  import opened Wrappers
  import opened ExprTransform
  import opened ExprSpine
  import opened ExprJoin
  import opened ExprDups
  import opened ExprStable
  import opened ExprFlat

  // ----- which pairs are joined -----

  predicate Pair(x: Expr, y: Expr, a: Expr, b: Expr) {
    (x == a && y == b) || (x == b && y == a)
  }

  // Alternatives about one symbol.
  predicate OrPair(s: Symbol, x: Expr, y: Expr) {
    if s.Type() == TTristate then
      || Pair(x, y, Equal(s, SymYes), Equal(s, SymMod))
      || Pair(x, y, Equal(s, SymYes), Equal(s, SymNo))
      || Pair(x, y, Equal(s, SymMod), Equal(s, SymNo))
    else
      s.Type() == TBoolean && Pair(x, y, Sym(s), Not(Sym(s)))
  }

  // A value of the symbol and a value that it does not have.
  predicate IsAndIsNot(s: Symbol, x: Expr, y: Expr) {
    && x.Equal? && y.Unequal? && x.lhs == s && y.lhs == s && x.rhs.Const() && y.rhs.Const()
  }

  // Requirements on one symbol.
  predicate AndPair(s: Symbol, x: Expr, y: Expr) {
    && s.Logical()
    && (|| Pair(x, y, Sym(s), Equal(s, SymYes))
        || Pair(x, y, Sym(s), Unequal(s, SymNo))
        || Pair(x, y, Sym(s), Unequal(s, SymMod))
        || (&& s.Type() == TTristate
            && (|| IsAndIsNot(s, x, y) || IsAndIsNot(s, y, x)
                || Pair(x, y, Unequal(s, SymYes), Unequal(s, SymNo))
                || Pair(x, y, Unequal(s, SymYes), Unequal(s, SymMod))
                || Pair(x, y, Unequal(s, SymMod), Unequal(s, SymNo)))))
  }

  predicate PairOf(op: Op, s: Symbol, x: Expr, y: Expr) {
    if op == OrOp then OrPair(s, x, y) else AndPair(s, x, y)
  }

  /** Two operands can stay beside each other: they are not equal, and no pair about one symbol. */
  ghost predicate Apart(op: Op, x: Expr, y: Expr) {
    !ExprEq(x, y) && forall s: Symbol :: !PairOf(op, s, x, y)
  }

  /** Exactly the equal operands and the pairs above are joined. */
  lemma JoinsAllPairs(op: Op, x: Expr, y: Expr)
    ensures Join(op, x, y).None? <==> Apart(op, x, y)
  {
    if !ExprEq(x, y) {
      if op == OrOp {
        OrJoinsPairs(x, y);
      } else {
        AndJoinsPairs(x, y);
      }
    }
  }

  lemma OrJoinsPairs(x: Expr, y: Expr)
    requires !ExprEq(x, y)
    ensures JoinOr(x, y).None? <==> forall s: Symbol :: !PairOf(OrOp, s, x, y)
  {
    if JoinOr(x, y).Some? {
      assert PairOf(OrOp, FirstSymbol(x).value, x, y);
    }
  }

  lemma AndJoinsPairs(x: Expr, y: Expr)
    requires !ExprEq(x, y)
    ensures JoinAnd(x, y).None? <==> forall s: Symbol :: !PairOf(AndOp, s, x, y)
  {
    if JoinAnd(x, y).Some? {
      assert PairOf(AndOp, FirstSymbol(x).value, x, y);
    }
  }

  // ----- which operands are dropped -----

  lemma {:induction false} ExtractLeaves(op: Op, common: Option<Expr>, e1: Expr, e2: Expr, r: Extraction)
    requires !IsNode(op, e1) && !IsNode(op, e2) && Atom(e1) && Atom(e2) && r == ExtractEq(op, common, e1, e2)
    ensures Differ(op, e1, e2, r.rest1, r.rest2)
  {
    AtomsCompare(e1, e2);
    SingleRests(e1, e2);
    assert Kept(op, e1, r.rest1) && Kept(op, e2, r.rest2);
  }

  /** Extracting leaves on each side the operands that the other side does not have. */
  lemma {:induction false} ExtractIsDifference(op: Op, common: Option<Expr>, e1: Expr, e2: Expr, r: Extraction)
    requires Flat(op, e1) && Flat(op, e2) && r == ExtractEq(op, common, e1, e2)
    ensures Differ(op, e1, e2, r.rest1, r.rest2)
    decreases Size(e1) + Size(e2)
  {
    if IsNode(op, e1) {
      var a := ExtractEq(op, common, e1.left, e2);
      var b := ExtractEq(op, a.common, e1.right, a.rest2);
      ExtractIsDifference(op, common, e1.left, e2, a);
      ExtractIsDifference(op, a.common, e1.right, a.rest2, b);
      DifferFirst(op, e1, e2, a.rest1, a.rest2, b.rest1, b.rest2);
    } else if IsNode(op, e2) {
      var a := ExtractEq(op, common, e1, e2.left);
      var b := ExtractEq(op, a.common, a.rest1, e2.right);
      ExtractIsDifference(op, common, e1, e2.left, a);
      ExtractIsDifference(op, a.common, a.rest1, e2.right, b);
      DifferBack(op, e1, e2.left, a.rest1, a.rest2);
      DifferBack(op, a.rest1, e2.right, b.rest1, b.rest2);
      DifferFirst(op, e2, e1, a.rest2, a.rest1, b.rest2, b.rest1);
      DifferBack(op, e2, e1, Node(op, a.rest2, b.rest2), b.rest1);
    } else {
      ExtractLeaves(op, common, e1, e2, r);
    }
  }

  // As long as nothing was taken out, both trees are as they were.
  lemma {:induction false} NothingExtracted(op: Op, common: Option<Expr>, e1: Expr, e2: Expr)
    ensures var r := ExtractEq(op, common, e1, e2);
            && (common.Some? ==> r.common.Some?)
            && (r.common.None? ==> r.rest1 == e1 && r.rest2 == e2)
    decreases Size(e1) + Size(e2)
  {
    if IsNode(op, e1) {
      var a := ExtractEq(op, common, e1.left, e2);
      NothingExtracted(op, common, e1.left, e2);
      NothingExtracted(op, a.common, e1.right, a.rest2);
    } else if IsNode(op, e2) {
      var a := ExtractEq(op, common, e1, e2.left);
      NothingExtracted(op, common, e1, e2.left);
      NothingExtracted(op, a.common, a.rest1, e2.right);
    }
  }

  /** An operand is contradicted by a part of the tree just when the part has all operands of its negation. */
  lemma {:induction false} ContradictsExactly(op: Op, x: Expr, y: Expr)
    requires var n := Transform(Not(x)); IsNode(op, n) && Flat(op, n) && !AnyYn(op, n)
    requires Flat(op, y) && !AnyYn(op, y)
    ensures Contradicts(op, x, y) <==> Operands(op, Transform(Not(x))) <= Operands(op, y)
  {
    var n := Transform(Not(x));
    var r := ExtractEq(op, None, n, y);
    ExtractIsDifference(op, None, n, y, r);
    NothingExtracted(op, None, n, y);
    NoYnIsNeutral(op, n);
    EliminatedIsOperand(op, r.rest1);
    SubsetIsNoRest(Operands(op, n), Operands(op, y));
  }

  lemma SubsetIsNoRest(a: multiset<Expr>, b: multiset<Expr>)
    ensures a <= b <==> a - b == multiset{}
  {
    if a - b == multiset{} {
      forall x
        ensures a[x] <= b[x]
      {
        assert (a - b)[x] == 0;
      }
    }
  }

  // ----- simplified trees -----

  /** All operands of the tree can stay, and so can those inside them. */
  ghost predicate Reduced(e: Expr)
    decreases Size(e)
  {
    IsConnective(e) ==>
      && (forall p1, p2 | Operand(e, p1) && Operand(e, p2) && p1 != p2 ::
            Apart(OpOf(e), Get(OpOf(e), e, p1), Get(OpOf(e), e, p2)))
      && (forall p | Operand(e, p) :: ReducedAt(e, p))
  }

  ghost predicate ReducedAt(e: Expr, p: Path)
    requires Operand(e, p)
    decreases Size(e), 0
  {
    p != [] && Reduced(Get(OpOf(e), e, p))
  }

  lemma {:induction false} SomeTip(s: Shape) returns (p: Path)
    ensures On(s, p) && At(s, p).Tip?
  {
    p := [];
    if s.Fork? {
      var q := SomeTip(s.left);
      p := [L] + q;
      assert p[1..] == q;
    }
  }

  // A connective has more than one operand.
  lemma OtherOperand(e: Expr, p: Path) returns (q: Path)
    requires Operand(e, p)
    ensures Operand(e, q) && q != p && p != []
  {
    var s := Top(e);
    var r := SomeTip(if p[0] == L then s.right else s.left);
    q := [if p[0] == L then R else L] + r;
    assert q[1..] == r;
  }

  lemma {:induction false} NoJoinIsReduced(e: Expr)
    requires IsConnective(e) && NoJoin(e)
    ensures Reduced(e)
    decreases Size(e)
  {
    var op := OpOf(e);
    forall p1, p2 | Operand(e, p1) && Operand(e, p2) && p1 != p2
      ensures Apart(op, Get(op, e, p1), Get(op, e, p2))
    {
      assert NoJoinAt(e, p1, p2);
      JoinsAllPairs(op, Get(op, e, p1), Get(op, e, p2));
    }
    forall p | Operand(e, p)
      ensures ReducedAt(e, p)
    {
      var q := OtherOperand(e, p);
      assert NoJoinAt(e, p, q);
      var x := Get(op, e, p);
      if IsConnective(x) {
        NoJoinIsReduced(x);
      }
    }
  }

  /** Duplicate removal does its work: no tree that it returns keeps two operands that can be joined, at
      any depth. */
  lemma SimplifyIsReduced(e: Expr)
    ensures Reduced(Simplify(e))
  {
    SimplifyIsIrreducible(e);
    if IsConnective(Simplify(e)) {
      NoJoinIsReduced(Simplify(e));
    }
  }

  // The part `y` has all operands of the negation of `x`.
  predicate Opposed(op: Op, x: Expr, y: Expr) {
    var n := Transform(Not(x));
    IsNode(op, n) && Flat(op, n) && !AnyYn(op, n) && Flat(op, y) && !AnyYn(op, y) && Operands(op, n) <= Operands(op, y)
  }

  ghost predicate Unopposed(e: Expr)
    decreases Size(e)
  {
    IsConnective(e) ==>
      forall p1, p2 | Operand(e, p1) && On(Top(e), p2) && p1 != p2 :: UnopposedAt(e, p1, p2)
  }

  ghost predicate UnopposedAt(e: Expr, p1: Path, p2: Path)
    requires Operand(e, p1) && On(Top(e), p2)
    decreases Size(e), 0
  {
    var op, x := OpOf(e), Get(OpOf(e), e, p1);
    IsConnective(x) ==> Unopposed(x) && !Opposed(op, x, Get(op, e, p2))
  }

  lemma {:induction false} NoContradictionIsUnopposed(e: Expr)
    requires IsConnective(e) && NoContradiction(e)
    ensures Unopposed(e)
    decreases Size(e)
  {
    forall p1, p2 | Operand(e, p1) && On(Top(e), p2) && p1 != p2
      ensures UnopposedAt(e, p1, p2)
    {
      assert NoContradictionAt(e, p1, p2);
      var op := OpOf(e);
      var x, y := Get(op, e, p1), Get(op, e, p2);
      if IsConnective(x) {
        NoContradictionIsUnopposed(x);
        if Opposed(op, x, y) {
          ContradictsExactly(op, x, y);
        }
      }
    }
  }

  /** And none keeps an operand beside all operands of its negation, at any depth. */
  lemma SimplifyIsUnopposed(e: Expr)
    ensures Unopposed(Simplify(e))
  {
    SimplifyIsIrreducible(e);
    if IsConnective(Simplify(e)) {
      NoContradictionIsUnopposed(Simplify(e));
    }
  }
}
