/**
 Where the equality test is exact: trees of one connective over symbols, comparisons and their negations
 are equal just when they have the same operands, in whatever order and grouping.
 */
module ExprFlat {
  import opened Expressions
  import opened ExprEquality

  // A symbol or a comparison, perhaps negated.
  predicate Atom(e: Expr) {
    match e
    case Or(_, _) => false
    case And(_, _) => false
    case Not(x) => Atom(x)
    case _ => true
  }

  lemma {:induction false} AtomsCompare(a: Expr, b: Expr)
    requires Atom(a) && Atom(b)
    ensures ExprEq(a, b) <==> a == b
  {
    if a.Not? && b.Not? {
      AtomsCompare(a.arg, b.arg);
    }
  }

  // Every operand under `op` is an atom.
  predicate Flat(op: Op, e: Expr) {
    if IsNode(op, e) then Flat(op, e.left) && Flat(op, e.right) else Atom(e)
  }

  // Every operand under `op` that is a constant is the one that changes nothing.
  predicate NeutralOnly(op: Op, e: Expr) {
    if IsNode(op, e) then NeutralOnly(op, e.left) && NeutralOnly(op, e.right) else IsYn(e) ==> e == Neutral(op)
  }

  // Some operand under `op` is a constant.
  predicate AnyYn(op: Op, e: Expr) {
    if IsNode(op, e) then AnyYn(op, e.left) || AnyYn(op, e.right) else IsYn(e)
  }

  lemma {:induction false} NoYnIsNeutral(op: Op, e: Expr)
    requires !AnyYn(op, e)
    ensures NeutralOnly(op, e) && Operands(op, e) != multiset{}
  {
    if IsNode(op, e) {
      NoYnIsNeutral(op, e.left);
      NoYnIsNeutral(op, e.right);
    }
  }

  /** The operands under `op` that are no constants, as often as they occur. */
  function Operands(op: Op, e: Expr): multiset<Expr> {
    if IsNode(op, e) then Operands(op, e.left) + Operands(op, e.right)
    else if IsYn(e) then multiset{}
    else multiset{e}
  }

  // Of two collections, what the other does not have.
  ghost predicate Rests(m1: multiset<Expr>, m2: multiset<Expr>, r1: multiset<Expr>, r2: multiset<Expr>) {
    r1 == m1 - m2 && r2 == m2 - m1
  }

  lemma RestsFirst(a: multiset<Expr>, b: multiset<Expr>, c: multiset<Expr>,
                   l: multiset<Expr>, c': multiset<Expr>, r: multiset<Expr>, c'': multiset<Expr>)
    requires Rests(a, c, l, c') && Rests(b, c', r, c'')
    ensures Rests(a + b, c, l + r, c'')
  {}

  // What is left of a tree is still of the kind considered here.
  predicate Kept(op: Op, e: Expr, r: Expr) {
    Flat(op, r) && (NeutralOnly(op, e) ==> NeutralOnly(op, r)) && (IsNode(op, e) ==> IsNode(op, r))
  }

  lemma KeptNode(op: Op, e: Expr, l: Expr, r: Expr)
    requires IsNode(op, e) && Kept(op, e.left, l) && Kept(op, e.right, r)
    ensures Kept(op, e, Node(op, l, r))
  {}

  lemma KeptTwice(op: Op, e: Expr, e': Expr, e'': Expr)
    requires Kept(op, e, e') && Kept(op, e', e'')
    ensures Kept(op, e, e'')
  {}

  // What is left of two trees are the operands that the other does not have.
  ghost predicate Differ(op: Op, e1: Expr, e2: Expr, r1: Expr, r2: Expr) {
    && Rests(Operands(op, e1), Operands(op, e2), Operands(op, r1), Operands(op, r2))
    && Kept(op, e1, r1) && Kept(op, e2, r2)
  }

  lemma DifferFirst(op: Op, e1: Expr, e2: Expr, l: Expr, e2': Expr, r: Expr, e2'': Expr)
    requires IsNode(op, e1) && Differ(op, e1.left, e2, l, e2') && Differ(op, e1.right, e2', r, e2'')
    ensures Differ(op, e1, e2, Node(op, l, r), e2'')
  {
    KeptNode(op, e1, l, r);
    KeptTwice(op, e2, e2', e2'');
    var a, b, c := Operands(op, e1.left), Operands(op, e1.right), Operands(op, e2);
    RestsFirst(a, b, c, Operands(op, l), Operands(op, e2'), Operands(op, r), Operands(op, e2''));
    NodeOperands(op, l, r);
  }

  lemma DifferBack(op: Op, e1: Expr, e2: Expr, r1: Expr, r2: Expr)
    requires Differ(op, e1, e2, r1, r2)
    ensures Differ(op, e2, e1, r2, r1)
  {}

  lemma SingleRests(x: Expr, y: Expr)
    ensures x == y ==> Rests(multiset{x}, multiset{y}, multiset{}, multiset{})
    ensures x != y ==> Rests(multiset{x}, multiset{y}, multiset{x}, multiset{y})
    ensures Rests(multiset{}, multiset{y}, multiset{}, multiset{y})
    ensures Rests(multiset{x}, multiset{}, multiset{x}, multiset{})
    ensures Rests(multiset{}, multiset{}, multiset{}, multiset{})
  {}

  lemma DifferLeaves(op: Op, e1: Expr, e2: Expr, r1: Expr, r2: Expr)
    requires !IsNode(op, e1) && !IsNode(op, e2) && Atom(e1) && Atom(e2) && (r1, r2) == CancelCommon(op, e1, e2)
    ensures Differ(op, e1, e2, r1, r2)
  {
    AtomsCompare(e1, e2);
    SingleRests(e1, e2);
    assert Kept(op, e1, r1) && Kept(op, e2, r2);
  }

  /** Cancelling leaves on each side the operands that the other side does not have. */
  lemma {:induction false} CancelIsDifference(op: Op, e1: Expr, e2: Expr, r1: Expr, r2: Expr)
    requires Flat(op, e1) && Flat(op, e2) && (r1, r2) == CancelCommon(op, e1, e2)
    ensures Differ(op, e1, e2, r1, r2)
    decreases Size(e1) + Size(e2)
  {
    if IsNode(op, e1) {
      var (l, e2') := CancelCommon(op, e1.left, e2);
      var (r, e2'') := CancelCommon(op, e1.right, e2');
      CancelIsDifference(op, e1.left, e2, l, e2');
      CancelIsDifference(op, e1.right, e2', r, e2'');
      DifferFirst(op, e1, e2, l, e2', r, e2'');
    } else if IsNode(op, e2) {
      var (e1', l) := CancelCommon(op, e1, e2.left);
      var (e1'', r) := CancelCommon(op, e1', e2.right);
      CancelIsDifference(op, e1, e2.left, e1', l);
      CancelIsDifference(op, e1', e2.right, e1'', r);
      DifferBack(op, e1, e2.left, e1', l);
      DifferBack(op, e1', e2.right, e1'', r);
      DifferFirst(op, e2, e1, l, e1', r, e1'');
      DifferBack(op, e2, e1, Node(op, l, r), e1'');
    } else {
      DifferLeaves(op, e1, e2, r1, r2);
    }
  }

  lemma NodeOperands(op: Op, l: Expr, r: Expr)
    ensures Operands(op, Node(op, l, r)) == Operands(op, l) + Operands(op, r)
  {}

  /** What is left after removing constants: nothing but the neutral one, or some operand. */
  lemma {:induction false} EliminatedIsOperand(op: Op, e: Expr)
    requires Flat(op, e) && NeutralOnly(op, e)
    ensures var r := EliminateYn(e);
            && (r == Neutral(op) <==> Operands(op, e) == multiset{})
            && r != Absorbing(op)
            && (r != Neutral(op) && !IsNode(op, r) ==> r in Operands(op, e))
  {
    if IsNode(op, e) {
      EliminatedIsOperand(op, e.left);
      EliminatedIsOperand(op, e.right);
      assert EliminateYn(e) == EliminateYnNode(op, EliminateYn(e.left), EliminateYn(e.right));
    }
  }

  /** On such trees without constants the equality test compares exactly the operands. */
  lemma {:induction false} ExprEqExact(op: Op, e1: Expr, e2: Expr)
    requires IsNode(op, e1) && IsNode(op, e2) && Flat(op, e1) && Flat(op, e2)
    requires NeutralOnly(op, e1) && NeutralOnly(op, e2)
    ensures ExprEq(e1, e2) <==> Operands(op, e1) == Operands(op, e2)
  {
    var (a, b) := CancelCommon(op, e1, e2);
    CancelIsDifference(op, e1, e2, a, b);
    assert EliminateEq(e1, e2) == (EliminateYn(a), EliminateYn(b));
    EliminatedIsOperand(op, a);
    EliminatedIsOperand(op, b);
    var m1, m2 := Operands(op, e1), Operands(op, e2);
    if m1 != m2 {
      DifferencesApart(m1, m2, EliminateYn(a));
    }
  }

  lemma DifferencesApart(m1: multiset<Expr>, m2: multiset<Expr>, x: Expr)
    requires m1 != m2
    ensures m1 - m2 != multiset{} || m2 - m1 != multiset{}
    ensures x !in m1 - m2 || x !in m2 - m1
  {
    var y :| m1[y] != m2[y];
    assert y in m1 - m2 || y in m2 - m1;
  }

  /** A single operand against a tree of it and others: the operand is gone from the tree, once. */
  lemma {:induction false} OperandIsTaken(op: Op, x: Expr, e: Expr)
    requires Atom(x) && !IsYn(x) && IsNode(op, e) && Flat(op, e) && NeutralOnly(op, e) && x in Operands(op, e)
    ensures EliminateEq(x, e).0 == Neutral(op)
    ensures exists rest ::
              EliminateEq(x, e).1 == EliminateYn(rest) && Operands(op, rest) == Operands(op, e) - multiset{x}
  {
    var (a, b) := CancelCommon(op, x, e);
    CancelIsDifference(op, x, e, a, b);
    assert EliminateEq(x, e) == (EliminateYn(a), EliminateYn(b));
    assert Operands(op, x) == multiset{x} && multiset{x} - Operands(op, e) == multiset{};
    EliminatedIsOperand(op, a);
  }
}
