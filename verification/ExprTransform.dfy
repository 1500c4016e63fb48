/**
 Normalising dependency trees: comparisons of booleans become plain symbols, and negations are
 pushed down to symbols. Also the pass that reads `FOO != n` as `FOO`.
 */
module ExprTransform {
  import opened Expressions

  // Doubling under a negation pays for the two negations that De Morgan's laws put in its place.
  function Weight(e: Expr): nat
    ensures Weight(e) >= 1
  {
    match e
    case Or(l, r) => 1 + Weight(l) + Weight(r)
    case And(l, r) => 1 + Weight(l) + Weight(r)
    case Not(x) => 2 * Weight(x)
    case Sym(_) => 1
    case _ => 2
  }

  // A comparison, by itself.
  function TransformComparison(e: Expr): (r: Expr)
    requires e.Equal? || e.Unequal?
    ensures Weight(r) <= Weight(e)
  {
    if e.lhs.Type() != TBoolean then e
    else if e.rhs == SymNo then (if e.Equal? then Not(Sym(e.lhs)) else Sym(e.lhs))
    else if e.rhs == SymMod then (if e.Equal? then Sym(SymNo) else Sym(SymYes))
    else if e.rhs == SymYes then (if e.Equal? then Sym(e.lhs) else Not(Sym(e.lhs)))
    else e
  }

  function Transform(e: Expr): (r: Expr)
    ensures Weight(r) <= Weight(e)
    decreases Weight(e)
  {
    match e
    case Or(a, b) => Or(Transform(a), Transform(b))
    case And(a, b) => And(Transform(a), Transform(b))
    case Equal(_, _) => TransformComparison(e)
    case Unequal(_, _) => TransformComparison(e)
    case Sym(_) => e
    case Not(x) =>
      match Transform(x)
      case Not(y) => Transform(y)
      case Equal(a, b) => Unequal(a, b)
      case Unequal(a, b) => Equal(a, b)
      case Or(a, b) =>
        assert Weight(Not(a)) == 2 * Weight(a) && Weight(Not(b)) == 2 * Weight(b);
        Transform(And(Not(a), Not(b)))
      case And(a, b) =>
        assert Weight(Not(a)) == 2 * Weight(a) && Weight(Not(b)) == 2 * Weight(b);
        Transform(Or(Not(a), Not(b)))
      case Sym(s) =>
        match s
        case SymYes => Sym(SymNo)
        case SymMod => Sym(SymMod)
        case SymNo => Sym(SymYes)
        case _ => Not(Sym(s))
  }

  lemma TransformComparisonExact(e: Expr, v: Valuation)
    requires WellTyped(v) && (e.Equal? || e.Unequal?)
    ensures Value(TransformComparison(e), v) == Value(e, v)
  {
    assert e.lhs.Type() == TBoolean ==> e.lhs.Logical();
  }

  /** Transforming keeps the value in every valuation of the symbol table. */
  lemma {:induction false} TransformPreservesValue(e: Expr, v: Valuation)
    requires WellTyped(v)
    ensures Value(Transform(e), v) == Value(e, v)
    decreases Weight(e)
  {
    match e
    case Or(a, b) => TransformPreservesValue(a, v); TransformPreservesValue(b, v);
    case And(a, b) => TransformPreservesValue(a, v); TransformPreservesValue(b, v);
    case Equal(_, _) => TransformComparisonExact(e, v);
    case Unequal(_, _) => TransformComparisonExact(e, v);
    case Sym(_) =>
    case Not(x) =>
      TransformPreservesValue(x, v);
      match Transform(x)
      case Not(y) => TransformPreservesValue(y, v);
      case Or(a, b) =>
        assert Weight(Not(a)) == 2 * Weight(a) && Weight(Not(b)) == 2 * Weight(b);
        TransformPreservesValue(And(Not(a), Not(b)), v);
        assert Value(Not(a), v) == TriNot(Value(a, v)) && Value(Not(b), v) == TriNot(Value(b, v));
      case And(a, b) =>
        assert Weight(Not(a)) == 2 * Weight(a) && Weight(Not(b)) == 2 * Weight(b);
        TransformPreservesValue(Or(Not(a), Not(b)), v);
        assert Value(Not(a), v) == TriNot(Value(a, v)) && Value(Not(b), v) == TriNot(Value(b, v));
      case _ =>
  }

  // ----- normal form -----

  // A boolean compared with one of the built-in constants.
  predicate Reducible(a: Symbol, b: Symbol) {
    a.Type() == TBoolean && b.BuiltIn()
  }

  predicate Normal(e: Expr) {
    match e
    case Or(a, b) => Normal(a) && Normal(b)
    case And(a, b) => Normal(a) && Normal(b)
    case Not(x) => x.Sym? && !x.sym.BuiltIn()
    case Equal(a, b) => !Reducible(a, b)
    case Unequal(a, b) => !Reducible(a, b)
    case Sym(_) => true
  }

  /** Negations are left on symbols other than `y`, `m` and `n` only, and no boolean is compared with `y`, `m` or
      `n`. */
  lemma {:induction false} TransformIsNormal(e: Expr)
    ensures Normal(Transform(e))
    decreases Weight(e)
  {
    match e
    case Or(a, b) => TransformIsNormal(a); TransformIsNormal(b);
    case And(a, b) => TransformIsNormal(a); TransformIsNormal(b);
    case Equal(_, _) =>
    case Unequal(_, _) =>
    case Sym(_) =>
    case Not(x) =>
      TransformIsNormal(x);
      match Transform(x)
      case Not(y) => TransformIsNormal(y);
      case Or(a, b) =>
        assert Weight(Not(a)) == 2 * Weight(a) && Weight(Not(b)) == 2 * Weight(b);
        TransformIsNormal(And(Not(a), Not(b)));
      case And(a, b) =>
        assert Weight(Not(a)) == 2 * Weight(a) && Weight(Not(b)) == 2 * Weight(b);
        TransformIsNormal(Or(Not(a), Not(b)));
      case _ =>
  }

  /** The transformed trees are exactly the normal ones: nothing else is left alone. */
  lemma {:induction false} NormalIffFixed(e: Expr)
    ensures Normal(e) <==> Transform(e) == e
  {
    if Normal(e) {
      NormalIsFixed(e);
    } else {
      TransformIsNormal(e);
    }
  }

  lemma {:induction false} NormalIsFixed(e: Expr)
    requires Normal(e)
    ensures Transform(e) == e
  {
    match e
    case Or(a, b) => NormalIsFixed(a); NormalIsFixed(b);
    case And(a, b) => NormalIsFixed(a); NormalIsFixed(b);
    case Not(x) => assert Transform(x) == x;
    case _ =>
  }

  lemma {:induction false} TransformIdempotent(e: Expr)
    ensures Transform(Transform(e)) == Transform(e)
  {
    TransformIsNormal(e);
    NormalIsFixed(Transform(e));
  }

  // ----- FOO != n read as FOO -----

  function TransBool(e: Expr): Expr {
    match e
    case Or(a, b) => Or(TransBool(a), TransBool(b))
    case And(a, b) => And(TransBool(a), TransBool(b))
    case Not(x) => Not(TransBool(x))
    case Unequal(a, b) => if a.Type() == TTristate && b == SymNo then Sym(a) else e
    case _ => e
  }

  // No negation stands above a comparison that the pass rewrites.
  predicate NegationsSafe(e: Expr, positive: bool) {
    match e
    case Or(a, b) => NegationsSafe(a, positive) && NegationsSafe(b, positive)
    case And(a, b) => NegationsSafe(a, positive) && NegationsSafe(b, positive)
    case Not(x) => NegationsSafe(x, false)
    case Unequal(a, b) => positive || a.Type() != TTristate || b != SymNo
    case _ => true
  }

  lemma {:induction false} SafeBelowNegation(e: Expr)
    requires NegationsSafe(e, false)
    ensures TransBool(e) == e
  {
    match e
    case Or(a, b) => SafeBelowNegation(a); SafeBelowNegation(b);
    case And(a, b) => SafeBelowNegation(a); SafeBelowNegation(b);
    case Not(x) => SafeBelowNegation(x);
    case _ =>
  }

  /** On a tree whose negations are safe the pass only lowers values, and never to or from `n`. */
  lemma {:induction false} TransBoolKeepsOn(e: Expr, v: Valuation)
    requires WellTyped(v) && NegationsSafe(e, true)
    ensures Value(TransBool(e), v) <= Value(e, v)
    ensures Value(TransBool(e), v) == NO <==> Value(e, v) == NO
  {
    match e
    case Or(a, b) => TransBoolKeepsOn(a, v); TransBoolKeepsOn(b, v);
    case And(a, b) => TransBoolKeepsOn(a, v); TransBoolKeepsOn(b, v);
    case Not(x) => SafeBelowNegation(x);
    case Unequal(a, _) => assert a.Type() == TTristate ==> a.Logical();
    case _ =>
  }

  lemma {:induction false} NormalIsSafe(e: Expr)
    requires Normal(e)
    ensures NegationsSafe(e, true)
  {
    match e
    case Or(a, b) => NormalIsSafe(a); NormalIsSafe(b);
    case And(a, b) => NormalIsSafe(a); NormalIsSafe(b);
    case _ =>
  }

  // A comparison `FOO != n` of a tristate symbol, anywhere in the tree.
  predicate ComparesWithNo(e: Expr) {
    match e
    case Or(a, b) => ComparesWithNo(a) || ComparesWithNo(b)
    case And(a, b) => ComparesWithNo(a) || ComparesWithNo(b)
    case Not(x) => ComparesWithNo(x)
    case Unequal(a, b) => a.Type() == TTristate && b == SymNo
    case _ => false
  }

  /** The pass leaves no such comparison, and changes only trees that have one. */
  lemma {:induction false} TransBoolDropsAll(e: Expr)
    ensures !ComparesWithNo(TransBool(e))
    ensures TransBool(e) == e <==> !ComparesWithNo(e)
  {
    match e
    case Or(a, b) => TransBoolDropsAll(a); TransBoolDropsAll(b);
    case And(a, b) => TransBoolDropsAll(a); TransBoolDropsAll(b);
    case Not(x) => TransBoolDropsAll(x);
    case _ =>
  }
}
