/**
 Joining two operands of one connective into one, and taking out what two trees have in common.
 */
module ExprJoin {
  import opened Expressions
  import opened ExprEquality
  import opened Wrappers

  // ----- joining two operands -----

  // The symbol that a first operand is about; a negated comparison counts.
  function FirstSymbol(e: Expr): Option<Symbol> {
    match e
    case Equal(a, _) => Some(a)
    case Unequal(a, _) => Some(a)
    case Sym(s) => Some(s)
    case Not(Equal(a, _)) => Some(a)
    case Not(Unequal(a, _)) => Some(a)
    case Not(Sym(s)) => Some(s)
    case _ => None
  }

  // The symbol that a second operand is about; a negated comparison does not count.
  function SecondSymbol(e: Expr): Option<Symbol> {
    match e
    case Equal(a, _) => Some(a)
    case Unequal(a, _) => Some(a)
    case Sym(s) => Some(s)
    case Not(Sym(s)) => Some(s)
    case _ => None
  }

  predicate BothWays(a: Symbol, b: Symbol, x: Symbol, y: Symbol) {
    (a == x && b == y) || (a == y && b == x)
  }

  // One of the two is the plain symbol, the other compares it: equal to `c`.
  predicate SymAndEqual(e1: Expr, e2: Expr, c: Symbol) {
    (e1.Sym? && e2.Equal? && e2.rhs == c) || (e2.Sym? && e1.Equal? && e1.rhs == c)
  }

  predicate SymAndUnequal(e1: Expr, e2: Expr, c: Symbol) {
    (e1.Sym? && e2.Unequal? && e2.rhs == c) || (e2.Sym? && e1.Unequal? && e1.rhs == c)
  }

  predicate OneNegates(e1: Expr, e2: Expr) {
    (e1.Not? && e1.arg.Sym? && e2.Sym?) || (e2.Not? && e2.arg.Sym? && e1.Sym?)
  }

  function JoinOr(e1: Expr, e2: Expr): Option<Expr> {
    var s1, s2 := FirstSymbol(e1), SecondSymbol(e2);
    if ExprEq(e1, e2) then Some(e1)
    else if s1.None? || s2.None? || s1.value != s2.value || !s1.value.Logical() then None
    else if s1.value.Type() == TTristate then
      if !(e1.Equal? && e2.Equal?) then None
      else if BothWays(e1.rhs, e2.rhs, SymYes, SymMod) then Some(Unequal(s1.value, SymNo))
      else if BothWays(e1.rhs, e2.rhs, SymYes, SymNo) then Some(Unequal(s1.value, SymMod))
      else if BothWays(e1.rhs, e2.rhs, SymMod, SymNo) then Some(Unequal(s1.value, SymYes))
      else None
    else if OneNegates(e1, e2) then Some(Sym(SymYes))
    else None
  }

  function JoinAnd(e1: Expr, e2: Expr): Option<Expr> {
    var s1, s2 := FirstSymbol(e1), SecondSymbol(e2);
    if ExprEq(e1, e2) then Some(e1)
    else if s1.None? || s2.None? || s1.value != s2.value || !s1.value.Logical() then None
    else if SymAndEqual(e1, e2, SymYes) then Some(Equal(s1.value, SymYes))
    else if SymAndUnequal(e1, e2, SymNo) then Some(Sym(s1.value))
    else if SymAndUnequal(e1, e2, SymMod) then Some(Equal(s1.value, SymYes))
    else if s1.value.Type() != TTristate then None
    else if e1.Equal? && e2.Unequal? && e1.rhs.Const() && e2.rhs.Const() then
      Some(if e1.rhs != e2.rhs then Equal(s1.value, e1.rhs) else Sym(SymNo))
    else if e1.Unequal? && e2.Equal? && e1.rhs.Const() && e2.rhs.Const() then
      Some(if e2.rhs != e1.rhs then Equal(s1.value, e2.rhs) else Sym(SymNo))
    else if !(e1.Unequal? && e2.Unequal?) then None
    else if BothWays(e1.rhs, e2.rhs, SymYes, SymNo) then Some(Equal(s1.value, SymMod))
    else if BothWays(e1.rhs, e2.rhs, SymYes, SymMod) then Some(Equal(s1.value, SymNo))
    else if BothWays(e1.rhs, e2.rhs, SymMod, SymNo) then Some(Equal(s1.value, SymYes))
    else None
  }

  function Join(op: Op, e1: Expr, e2: Expr): Option<Expr> {
    if op == OrOp then JoinOr(e1, e2) else JoinAnd(e1, e2)
  }

  // A join is no larger than the first operand, or a single leaf; never a new node of `op`.
  lemma JoinIsSmall(op: Op, e1: Expr, e2: Expr)
    requires Join(op, e1, e2).Some? && !IsNode(op, e1)
    ensures !IsNode(op, Join(op, e1, e2).value)
    ensures Size(Join(op, e1, e2).value) <= Size(e1)
  {}

  /** A join is worth what the two operands are worth together, in every well-typed valuation. */
  lemma JoinOrExact(e1: Expr, e2: Expr, v: Valuation)
    requires WellTyped(v) && JoinOr(e1, e2).Some?
    ensures Value(JoinOr(e1, e2).value, v) == TriOr(Value(e1, v), Value(e2, v))
  {
    if ExprEq(e1, e2) {
      ExprEqSound(e1, e2, v);
    } else {
      var s := FirstSymbol(e1).value;
      assert s.Logical() && v.str(s) == TriText(v.tri(s));
    }
  }

  lemma JoinAndExact(e1: Expr, e2: Expr, v: Valuation)
    requires WellTyped(v) && JoinAnd(e1, e2).Some?
    ensures Value(JoinAnd(e1, e2).value, v) == TriAnd(Value(e1, v), Value(e2, v))
  {
    if ExprEq(e1, e2) {
      ExprEqSound(e1, e2, v);
    } else {
      var s := FirstSymbol(e1).value;
      assert s.Logical() && v.str(s) == TriText(v.tri(s));
    }
  }

  lemma JoinExact(op: Op, e1: Expr, e2: Expr, v: Valuation)
    requires WellTyped(v) && Join(op, e1, e2).Some?
    ensures Value(Join(op, e1, e2).value, v) == Apply(op, Value(e1, v), Value(e2, v))
  {
    if op == OrOp {
      JoinOrExact(e1, e2, v);
    } else {
      JoinAndExact(e1, e2, v);
    }
  }

  // ----- extracting common operands -----

  /** What was taken out so far, and the two trees that remain. */
  datatype Extraction = Extraction(common: Option<Expr>, rest1: Expr, rest2: Expr)

  function ExtractEq(op: Op, common: Option<Expr>, e1: Expr, e2: Expr): (r: Extraction)
    ensures Size(r.rest1) <= Size(e1) && Size(r.rest2) <= Size(e2)
    decreases Size(e1) + Size(e2)
  {
    if IsNode(op, e1) then
      var a := ExtractEq(op, common, e1.left, e2);
      var b := ExtractEq(op, a.common, e1.right, a.rest2);
      Extraction(b.common, Node(op, a.rest1, b.rest1), b.rest2)
    else if IsNode(op, e2) then
      var a := ExtractEq(op, common, e1, e2.left);
      var b := ExtractEq(op, a.common, a.rest1, e2.right);
      Extraction(b.common, b.rest1, Node(op, a.rest2, b.rest2))
    else if ExprEq(e1, e2) then
      Extraction(Some(if common.Some? then Node(op, common.value, e1) else e1), Neutral(op), Neutral(op))
    else
      Extraction(common, e1, e2)
  }

  // The caller's form: constants are cleaned up only if something was taken out.
  function ExtractCommon(op: Op, e1: Expr, e2: Expr): Extraction {
    var r := ExtractEq(op, None, e1, e2);
    if r.common.Some? then Extraction(r.common, EliminateYn(r.rest1), EliminateYn(r.rest2)) else r
  }

  function ValueOr(o: Option<Expr>, op: Op, v: Valuation): Tristate {
    if o.Some? then Value(o.value, v) else Value(Neutral(op), v)
  }

  lemma {:induction false} ExtractEqConserves(op: Op, common: Option<Expr>, e1: Expr, e2: Expr, v: Valuation)
    returns (m: Tristate)
    requires FixesYn(v)
    ensures var r := ExtractEq(op, common, e1, e2);
            && ValueOr(r.common, op, v) == Apply(op, ValueOr(common, op, v), m)
            && Value(e1, v) == Apply(op, Value(r.rest1, v), m)
            && Value(e2, v) == Apply(op, Value(r.rest2, v), m)
    decreases Size(e1) + Size(e2)
  {
    var c := ValueOr(common, op, v);
    if IsNode(op, e1) {
      var a := ExtractEq(op, common, e1.left, e2);
      var b := ExtractEq(op, a.common, e1.right, a.rest2);
      var m1 := ExtractEqConserves(op, common, e1.left, e2, v);
      var m2 := ExtractEqConserves(op, a.common, e1.right, a.rest2, v);
      m := Apply(op, m1, m2);
      Regroup(op, Value(a.rest1, v), Value(b.rest1, v), m1, m2);
      Assoc(op, Value(b.rest2, v), m2, m1);
      Comm(op, m1, m2);
      Assoc(op, c, m1, m2);
      ValueOfNode(op, e1, v);
      ValueOfNode(op, Node(op, a.rest1, b.rest1), v);
    } else if IsNode(op, e2) {
      var a := ExtractEq(op, common, e1, e2.left);
      var b := ExtractEq(op, a.common, a.rest1, e2.right);
      var m1 := ExtractEqConserves(op, common, e1, e2.left, v);
      var m2 := ExtractEqConserves(op, a.common, a.rest1, e2.right, v);
      m := Apply(op, m1, m2);
      Regroup(op, Value(a.rest2, v), Value(b.rest2, v), m1, m2);
      Assoc(op, Value(b.rest1, v), m2, m1);
      Comm(op, m1, m2);
      Assoc(op, c, m1, m2);
      ValueOfNode(op, e2, v);
      ValueOfNode(op, Node(op, a.rest2, b.rest2), v);
    } else if ExprEq(e1, e2) {
      ExprEqSound(e1, e2, v);
      m := Value(e1, v);
      Units(op, m, v);
    } else {
      m := Value(Neutral(op), v);
      Units(op, Value(e1, v), v);
      Units(op, Value(e2, v), v);
      Units(op, c, v);
    }
  }

  /** Nothing is lost: each tree is worth its remainder together with the common part. */
  lemma {:induction false} ExtractCommonConserves(op: Op, e1: Expr, e2: Expr, v: Valuation)
    requires FixesYn(v)
    ensures var r := ExtractCommon(op, e1, e2);
            var c := ValueOr(r.common, op, v);
            && Value(e1, v) == Apply(op, Value(r.rest1, v), c)
            && Value(e2, v) == Apply(op, Value(r.rest2, v), c)
  {
    var r := ExtractEq(op, None, e1, e2);
    var m := ExtractEqConserves(op, None, e1, e2, v);
    Units(op, m, v);
    assert ValueOr(r.common, op, v) == m;
    if r.common.Some? {
      EliminateYnPreservesValue(r.rest1, v);
      EliminateYnPreservesValue(r.rest2, v);
    }
  }
}
