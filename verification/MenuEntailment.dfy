/**
 The tests by which a menu entry is moved below the entry before it: its condition names the symbol
 of that entry, or implies that entry's own prompt condition.
 */
module MenuEntailment {
  import opened Expressions
  import opened ExprEquality
  import opened Wrappers
  import opened ExprTransform
  import opened ExprSpine
  import opened ExprJoin
  import opened ExprDups
  import opened ExprStable

  // ----- which symbols a condition names -----

  predicate ContainsSymbol(e: Expr, s: Symbol) {
    match e
    case Or(a, b) => ContainsSymbol(a, s) || ContainsSymbol(b, s)
    case And(a, b) => ContainsSymbol(a, s) || ContainsSymbol(b, s)
    case Not(x) => ContainsSymbol(x, s)
    case Equal(a, b) => a == s || b == s
    case Unequal(a, b) => a == s || b == s
    case Sym(a) => a == s
  }

  /** The search finds exactly the symbols that the value of a condition may depend on. */
  lemma {:induction false} ContainsIsNamed(e: Expr, s: Symbol)
    ensures ContainsSymbol(e, s) <==> s in ExprSymbols(e)
  {
    match e
    case Or(a, b) => ContainsIsNamed(a, s); ContainsIsNamed(b, s);
    case And(a, b) => ContainsIsNamed(a, s); ContainsIsNamed(b, s);
    case Not(x) => ContainsIsNamed(x, s);
    case _ =>
  }

  predicate DependsOnSymbol(e: Expr, s: Symbol) {
    match e
    case And(a, b) => DependsOnSymbol(a, s) || DependsOnSymbol(b, s)
    case Sym(a) => a == s
    case Equal(a, b) => a == s && (b == SymYes || b == SymMod)
    case Unequal(a, b) => a == s && b == SymNo
    case _ => false
  }

  /** A condition that depends on a symbol can hold only while the symbol is on. */
  lemma {:induction false} DependsForcesOn(e: Expr, s: Symbol, v: Valuation)
    requires WellTyped(v) && s.Logical() && DependsOnSymbol(e, s)
    requires Value(e, v) != NO
    ensures v.tri(s) != NO
  {
    match e
    case And(a, b) =>
      if DependsOnSymbol(a, s) {
        DependsForcesOn(a, s, v);
      } else {
        DependsForcesOn(b, s, v);
      }
    case _ =>
  }

  // ----- reading a condition as a comparison with n -----

  /** The tree for `e = s`, or `e != s` when `ne` is set. */
  function TransCompare(e: Expr, ne: bool, s: Symbol): Expr
    requires s.BuiltIn()
  {
    match e
    case And(a, b) =>
      var l, r := TransCompare(a, false, s), TransCompare(b, false, s);
      var t := if s == SymYes then And(l, r) else if s == SymNo then Or(l, r) else e;
      if ne then Not(t) else t
    case Or(a, b) =>
      var l, r := TransCompare(a, false, s), TransCompare(b, false, s);
      var t := if s == SymYes then Or(l, r) else if s == SymNo then And(l, r) else e;
      if ne then Not(t) else t
    case Not(x) => TransCompare(x, !ne, s)
    case Sym(a) => if ne then Unequal(a, s) else Equal(a, s)
    case _ =>
      if s == SymMod then Sym(if ne then SymYes else SymNo)
      else if ne == (s == SymYes) then Not(e)
      else e
  }

  function OnOff(t: Tristate): Tristate {
    if t == NO then NO else YES
  }

  // The comparison with `n` says in `v` whether the condition holds.
  ghost predicate ComparesExactly(e: Expr, v: Valuation) {
    && Value(TransCompare(e, true, SymNo), v) == OnOff(Value(e, v))
    && Value(TransCompare(e, false, SymNo), v) == TriNot(OnOff(Value(e, v)))
  }

  /** Nothing below a negation is worth `m`, and the plain symbols are named `n` just when they are off. */
  ghost predicate Settled(e: Expr, v: Valuation) {
    match e
    case Or(a, b) => Settled(a, v) && Settled(b, v)
    case And(a, b) => Settled(a, v) && Settled(b, v)
    case Not(x) => Settled(x, v) && Value(x, v) != MOD
    case Sym(s) => v.tri(s) == NO <==> v.str(s) == "n"
    case _ => true
  }

  lemma {:induction false} SettledComparesExactly(e: Expr, v: Valuation)
    requires WellTyped(v) && Settled(e, v)
    ensures ComparesExactly(e, v)
  {
    match e
    case Or(a, b) =>
      SettledComparesExactly(a, v);
      SettledComparesExactly(b, v);
      assert Value(TransCompare(e, true, SymNo), v) == TriNot(Value(TransCompare(e, false, SymNo), v));
    case And(a, b) =>
      SettledComparesExactly(a, v);
      SettledComparesExactly(b, v);
      assert Value(TransCompare(e, true, SymNo), v) == TriNot(Value(TransCompare(e, false, SymNo), v));
    case Not(x) => SettledComparesExactly(x, v);
    case _ =>
  }

  // What a constant is worth.
  function Worth(s: Symbol): Tristate {
    if s == SymYes then YES else if s == SymMod then MOD else NO
  }

  /** A single comparison, or a boolean or tristate symbol, is compared with any of the three constants exactly. */
  lemma LeafComparesExactly(e: Expr, ne: bool, s: Symbol, v: Valuation)
    requires WellTyped(v) && s.BuiltIn() && !IsConnective(e) && !e.Not? && (e.Sym? ==> e.sym.Logical())
    ensures Value(TransCompare(e, ne, s), v) == if (Value(e, v) == Worth(s)) != ne then YES else NO
  {}

  /** Without `m`, a whole condition is compared with `y` exactly. */
  lemma {:induction false} YesComparesExactly(e: Expr, ne: bool, v: Valuation)
    requires WellTyped(v)
    requires forall s :: s in PlainSymbols(e) ==> s.Logical() && v.tri(s) != MOD
    ensures Value(TransCompare(e, ne, SymYes), v) == if (Value(e, v) == YES) != ne then YES else NO
  {
    match e
    case Or(a, b) => YesComparesExactly(a, false, v); YesComparesExactly(b, false, v);
    case And(a, b) => YesComparesExactly(a, false, v); YesComparesExactly(b, false, v);
    case Not(x) => YesComparesExactly(x, !ne, v); TwoValued(x, v);
    case Sym(s) => assert s in PlainSymbols(e); LeafComparesExactly(e, ne, SymYes, v);
    case _ => LeafComparesExactly(e, ne, SymYes, v);
  }

  /** A connective is not compared with `m` at all. */
  lemma ModIsNotCompared(e: Expr, ne: bool)
    requires IsConnective(e)
    ensures TransCompare(e, ne, SymMod) == if ne then Not(e) else e
  {}

  /** Where the comparison goes wrong: below a negation, exactly at `m`. */
  lemma NegationBoundary(x: Expr, v: Valuation)
    requires ComparesExactly(x, v)
    ensures ComparesExactly(Not(x), v) <==> Value(x, v) != MOD
  {
    assert TransCompare(Not(x), true, SymNo) == TransCompare(x, false, SymNo);
    assert TransCompare(Not(x), false, SymNo) == TransCompare(x, true, SymNo);
  }

  /** With no symbol worth `m`, conditions over logical symbols and constants are settled. */
  lemma {:induction false} NoModSettles(e: Expr, v: Valuation)
    requires WellTyped(v)
    requires forall s :: s in PlainSymbols(e) ==> (s.Logical() || s.BuiltIn()) && v.tri(s) != MOD
    ensures Settled(e, v)
  {
    match e
    case Or(a, b) => NoModSettles(a, v); NoModSettles(b, v);
    case And(a, b) => NoModSettles(a, v); NoModSettles(b, v);
    case Not(x) => NoModSettles(x, v); TwoValued(x, v);
    case Sym(s) => assert s in PlainSymbols(e);
    case _ =>
  }

  // ----- the tests -----

  // A prompt condition, normalised for comparison; a missing one always holds.
  function Normalised(e: Option<Expr>): Expr {
    var t := if e.None? then Not(Sym(SymNo)) else TransCompare(e.value, true, SymNo);
    Simplify(Transform(t))
  }

  /** Whether the entry with condition `dep` goes below the entry of `sym` with prompt condition `base`. */
  predicate Pulls(sym: Symbol, base: Option<Expr>, dep: Option<Expr>) {
    && dep.Some?
    && ContainsSymbol(dep.value, sym)
    && (|| DependsOnSymbol(dep.value, sym)
        || EliminateEq(Normalised(dep), Normalised(base)).1 == Sym(SymYes))
  }

  ghost predicate Holds(e: Option<Expr>, v: Valuation) {
    e.Some? ==> Value(e.value, v) != NO
  }

  ghost predicate SettledCondition(e: Option<Expr>, v: Valuation) {
    e.Some? ==> Settled(e.value, v)
  }

  lemma {:induction false} NormalisedSays(e: Option<Expr>, v: Valuation)
    requires WellTyped(v) && SettledCondition(e, v)
    ensures Value(Normalised(e), v) == if Holds(e, v) then YES else NO
  {
    var t := if e.None? then Not(Sym(SymNo)) else TransCompare(e.value, true, SymNo);
    if e.Some? {
      SettledComparesExactly(e.value, v);
    }
    TransformPreservesValue(t, v);
    SimplifyKeeps(Transform(t), v);
  }

  /** Cancelling down to `y` is a sound entailment test, in every valuation. */
  lemma {:induction false} LeavingYesEntails(e1: Expr, e2: Expr, v: Valuation)
    requires FixesYn(v) && EliminateEq(e1, e2).1 == Sym(SymYes)
    ensures Value(e1, v) <= Value(e2, v)
  {
    EliminateEqOrders(e1, e2, v);
  }

  /** An entry is pulled below another only if its condition holding forces the other's symbol on,
      or the other's prompt condition to hold. */
  lemma {:induction false} PulledOnlyIfForced(sym: Symbol, base: Option<Expr>, dep: Option<Expr>, v: Valuation)
    requires WellTyped(v) && sym.Logical() && Pulls(sym, base, dep)
    requires SettledCondition(base, v) && SettledCondition(dep, v)
    requires Holds(dep, v)
    ensures v.tri(sym) != NO || Holds(base, v)
  {
    if DependsOnSymbol(dep.value, sym) {
      DependsForcesOn(dep.value, sym, v);
    } else {
      NormalisedSays(dep, v);
      NormalisedSays(base, v);
      LeavingYesEntails(Normalised(dep), Normalised(base), v);
    }
  }

  // The conditions that a conjunction asks for.
  function Conjuncts(e: Expr): set<Expr> {
    if e.And? then Conjuncts(e.left) + Conjuncts(e.right) else {e}
  }

  // The conditions that ask for a symbol to be on.
  function AsksFor(s: Symbol): set<Expr> {
    {Sym(s), Equal(s, SymYes), Equal(s, SymMod), Unequal(s, SymNo)}
  }

  /** A condition depends on a symbol just when one of its conjuncts asks for the symbol. */
  lemma {:induction false} DependsExactly(e: Expr, s: Symbol)
    ensures DependsOnSymbol(e, s) <==> Conjuncts(e) * AsksFor(s) != {}
    ensures DependsOnSymbol(e, s) ==> ContainsSymbol(e, s)
  {
    match e
    case And(a, b) =>
      DependsExactly(a, s);
      DependsExactly(b, s);
      assert Conjuncts(e) * AsksFor(s) == Conjuncts(a) * AsksFor(s) + Conjuncts(b) * AsksFor(s);
    case _ =>
      assert Conjuncts(e) * AsksFor(s) == if e in AsksFor(s) then {e} else {};
  }

  /** Whatever asks for the symbol is pulled, and whatever does not name it is not; an entry without a
      prompt condition pulls all that name its symbol. */
  lemma {:induction false} AskingIsPulled(sym: Symbol, base: Option<Expr>, dep: Expr)
    ensures Conjuncts(dep) * AsksFor(sym) != {} ==> Pulls(sym, base, Some(dep))
    ensures sym !in ExprSymbols(dep) ==> !Pulls(sym, base, Some(dep))
    ensures base.None? ==> (Pulls(sym, base, Some(dep)) <==> sym in ExprSymbols(dep))
  {
    DependsExactly(dep, sym);
    ContainsIsNamed(dep, sym);
    if base.None? {
      YesIsLeft(Normalised(Some(dep)));
    }
  }

  // Cancelling against `y` leaves `y`.
  lemma {:induction false} YesIsLeft(e: Expr)
    ensures Normalised(None) == Sym(SymYes)
    ensures EliminateEq(e, Sym(SymYes)).1 == Sym(SymYes)
  {
    assert Transform(Not(Sym(SymNo))) == Sym(SymYes);
    if IsConnective(e) {
      YesStays(OpOf(e), e);
    }
  }

  lemma {:induction false} YesStays(op: Op, e: Expr)
    ensures CancelCommon(op, e, Sym(SymYes)).1 == Sym(SymYes)
  {
    if IsNode(op, e) {
      YesStays(op, e.left);
      YesStays(op, e.right);
    }
  }

  // ----- where the tests can go wrong -----

  // The comparison of `q` with `n`, as it is normalised: a negation if `q` is boolean.
  function IsOff(q: Symbol): Expr {
    if q.Type() == TBoolean then Not(Sym(q)) else Equal(q, SymNo)
  }

  // Two leaves that cannot be joined have nothing to simplify.
  lemma {:induction false} PairIsIrreducible(a: Expr, b: Expr)
    requires !IsConnective(a) && !IsConnective(b) && Join(AndOp, a, b).None? && Join(AndOp, b, a).None?
    ensures Irreducible(And(a, b))
  {
    var e := And(a, b);
    assert Spine(AndOp, a) == Spine(AndOp, b) == Tip;
    assert Get(AndOp, a, []) == a && Get(AndOp, b, []) == b;
    forall q | Operand(e, q)
      ensures q == [L] || q == [R]
    {
      assert Top(e) == Fork(Tip, Tip) && q != [];
      assert On(Child(Top(e), q[0]), q[1..]) && Child(Top(e), q[0]) == Tip;
      assert q == [q[0]] + q[1..];
    }
    assert Get(AndOp, e, [L]) == a && Get(AndOp, e, [R]) == b;
  }

  // The comparison that normalising `q != n` comes down to, and its negation.
  lemma IsOffNormalised(q: Symbol)
    requires q.Logical()
    ensures Transform(Not(Transform(Unequal(q, SymNo)))) == IsOff(q)
  {
    if q.Type() == TBoolean {
      assert Transform(Unequal(q, SymNo)) == Sym(q);
      assert Transform(Sym(q)) == Sym(q);
    } else {
      assert Transform(Unequal(q, SymNo)) == Unequal(q, SymNo);
    }
  }

  lemma {:induction false} NegatedPairNormalised(p: Symbol, q: Symbol)
    requires p != q && p.Type() == TTristate && q.Logical()
    ensures Normalised(Some(And(Not(Sym(p)), Not(Sym(q))))) == And(Equal(p, SymNo), IsOff(q))
    ensures Normalised(Some(Equal(p, SymNo))) == Equal(p, SymNo)
  {
    var dep := And(Not(Sym(p)), Not(Sym(q)));
    var a, b := Equal(p, SymNo), IsOff(q);
    var t := TransCompare(dep, true, SymNo);
    assert TransCompare(dep.left, false, SymNo) == Unequal(p, SymNo);
    assert TransCompare(dep.right, false, SymNo) == Unequal(q, SymNo);
    assert t == Not(Or(Unequal(p, SymNo), Unequal(q, SymNo)));
    IsOffNormalised(p);
    IsOffNormalised(q);
    assert Transform(t.arg) == Or(Transform(Unequal(p, SymNo)), Transform(Unequal(q, SymNo)));
    assert Transform(t) == And(a, b);
    assert !IsConnective(b) && Join(AndOp, a, b).None? && Join(AndOp, b, a).None?;
    PairIsIrreducible(a, b);
    SimplifyIsIrreducible(And(a, b));
  }

  lemma {:induction false} NegatedPairPulled(p: Symbol, q: Symbol)
    requires p != q && p.Type() == TTristate && q.Logical()
    ensures Pulls(q, Some(Equal(p, SymNo)), Some(And(Not(Sym(p)), Not(Sym(q)))))
  {
    var a, b, y := Equal(p, SymNo), IsOff(q), Sym(SymYes);
    NegatedPairNormalised(p, q);
    assert CancelCommon(AndOp, a, a) == (y, y);
    assert CancelCommon(AndOp, b, y) == (b, y);
    assert CancelCommon(AndOp, And(a, b), a) == (And(y, b), y);
    assert EliminateEq(And(a, b), a).1 == y;
    var dep := And(Not(Sym(p)), Not(Sym(q)));
    assert ContainsSymbol(dep.right, q);
  }

  /** Whenever `p` is worth `m` and `q` is off: the entry with condition `!p && !q` is pulled below the
      entry of `q` with prompt condition `p = n`, although its own condition holds and the other fails. */
  lemma {:induction false} PulledThoughNotForced(p: Symbol, q: Symbol, v: Valuation)
    requires p.Logical() && q.Logical() && WellTyped(v) && v.tri(p) == MOD && v.tri(q) == NO
    ensures var base, dep := Some(Equal(p, SymNo)), Some(And(Not(Sym(p)), Not(Sym(q))));
            Pulls(q, base, dep) && Holds(dep, v) && !Holds(base, v)
  {
    NegatedPairValue(p, q, v);
    NegatedPairPulled(p, q);
  }

  lemma NegatedPairValue(p: Symbol, q: Symbol, v: Valuation)
    requires p.Logical() && WellTyped(v) && v.tri(p) == MOD && v.tri(q) == NO
    ensures Value(And(Not(Sym(p)), Not(Sym(q))), v) == MOD && Value(Equal(p, SymNo), v) == NO
  {
    assert Value(Sym(p), v) == MOD && Value(Sym(q), v) == NO;
    assert Value(Not(Sym(p)), v) == MOD && Value(Not(Sym(q)), v) == YES;
  }

  // Symbols that stand by themselves are booleans, tristates, `y` or `n`.
  ghost predicate PlainlyLogical(e: Option<Expr>) {
    e.Some? ==> forall s :: s in PlainSymbols(e.value) ==> s.Logical() || s == SymYes || s == SymNo
  }

  // Pulling the entry below the other one is justified.
  ghost predicate Forced(sym: Symbol, base: Option<Expr>, dep: Option<Expr>, v: Valuation) {
    Pulls(sym, base, dep) && Holds(dep, v) ==> v.tri(sym) != NO || Holds(base, v)
  }

  ghost predicate AlwaysForced(v: Valuation) {
    forall sym: Symbol, base, dep {:trigger Forced(sym, base, dep, v)} ::
      sym.Logical() && PlainlyLogical(base) && PlainlyLogical(dep) ==> Forced(sym, base, dep, v)
  }

  lemma NegatedPairIsPlain(p: Symbol, q: Symbol)
    requires p.Logical() && q.Logical()
    ensures PlainlyLogical(Some(And(Not(Sym(p)), Not(Sym(q)))))
  {
    assert PlainSymbols(Sym(p)) == {p} && PlainSymbols(Sym(q)) == {q};
    assert PlainSymbols(Not(Sym(p))) == {p} && PlainSymbols(Not(Sym(q))) == {q};
  }

  lemma {:induction false} ForcedWithoutMod(sym: Symbol, base: Option<Expr>, dep: Option<Expr>, v: Valuation)
    requires WellTyped(v) && sym.Logical() && PlainlyLogical(base) && PlainlyLogical(dep)
    requires v.tri(sym) == NO && forall p: Symbol :: p.Logical() ==> v.tri(p) != MOD
    ensures Forced(sym, base, dep, v)
  {
    if Pulls(sym, base, dep) && Holds(dep, v) {
      NoModSettles(dep.value, v);
      if base.Some? {
        NoModSettles(base.value, v);
      }
      PulledOnlyIfForced(sym, base, dep, v);
    }
  }

  /** The exact boundary: in a valuation the tests pull only what is forced if and only if there are no
      two symbols of which one is `m` and the other off. */
  lemma {:induction false} PullBoundary(v: Valuation)
    requires WellTyped(v)
    ensures AlwaysForced(v)
            <==> !exists p: Symbol, q: Symbol :: p.Logical() && q.Logical() && v.tri(p) == MOD && v.tri(q) == NO
  {
    if p: Symbol, q: Symbol :| p.Logical() && q.Logical() && v.tri(p) == MOD && v.tri(q) == NO {
      PulledThoughNotForced(p, q, v);
      var base, dep := Some(Equal(p, SymNo)), Some(And(Not(Sym(p)), Not(Sym(q))));
      NegatedPairIsPlain(p, q);
      assert !Forced(q, base, dep, v);
    } else {
      forall sym: Symbol, base, dep | sym.Logical() && PlainlyLogical(base) && PlainlyLogical(dep)
        ensures Forced(sym, base, dep, v)
      {
        if v.tri(sym) == NO {
          ForcedWithoutMod(sym, base, dep, v);
        }
      }
    }
  }
}
