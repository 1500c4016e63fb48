/**
 Dependency expressions of the configuration language: the three-valued logic,
 the expression trees, and what a tree is worth under a valuation of its symbols.
 */
module Expressions {

  // ----- the three-valued logic -----

  type Tristate = t: int | 0 <= t <= 2

  const NO: Tristate := 0
  const MOD: Tristate := 1
  const YES: Tristate := 2

  function TriOr(a: Tristate, b: Tristate): Tristate {
    if a > b then a else b
  }

  function TriAnd(a: Tristate, b: Tristate): Tristate {
    if a < b then a else b
  }

  function TriNot(a: Tristate): Tristate {
    2 - a
  }

  // The name that a boolean or tristate value has in a configuration file.
  function TriText(t: Tristate): string {
    if t == NO then "n" else if t == MOD then "m" else "y"
  }

  // ----- symbols and trees -----

  datatype SymbolType = TUnknown | TBoolean | TTristate | TInt | THex | TString | TOther

  /** A symbol, up to pointer identity: the three built-in constants, the other quoted constants,
      which have no type, and the configuration symbols. */
  datatype Symbol =
    | SymYes
    | SymMod
    | SymNo
    | Literal(id: nat)
    | Entry(id: nat, stype: SymbolType)
  {
    function Type(): SymbolType {
      if Entry? then stype else TUnknown
    }

    predicate BuiltIn() {
      SymYes? || SymMod? || SymNo?
    }

    predicate Const() {
      !Entry?
    }

    predicate Logical() {
      Type() == TBoolean || Type() == TTristate
    }
  }

  datatype Expr =
    | Or(left: Expr, right: Expr)
    | And(left: Expr, right: Expr)
    | Not(arg: Expr)
    | Equal(lhs: Symbol, rhs: Symbol)
    | Unequal(lhs: Symbol, rhs: Symbol)
    | Sym(sym: Symbol)

  // The two connectives that the rewriting passes treat alike.
  datatype Op = OrOp | AndOp

  predicate IsNode(op: Op, e: Expr) {
    if op == OrOp then e.Or? else e.And?
  }

  function Node(op: Op, l: Expr, r: Expr): (e: Expr)
    ensures IsNode(op, e) && e.left == l && e.right == r
  {
    if op == OrOp then Or(l, r) else And(l, r)
  }

  predicate IsConnective(e: Expr) {
    e.Or? || e.And?
  }

  function OpOf(e: Expr): (op: Op)
    requires IsConnective(e)
    ensures IsNode(op, e)
  {
    if e.Or? then OrOp else AndOp
  }

  // The constant that changes nothing under `op`, and the one that decides it.
  function Neutral(op: Op): Expr {
    if op == OrOp then Sym(SymNo) else Sym(SymYes)
  }

  function Absorbing(op: Op): Expr {
    if op == OrOp then Sym(SymYes) else Sym(SymNo)
  }

  predicate IsYn(e: Expr) {
    e == Sym(SymYes) || e == Sym(SymNo)
  }

  // Number of nodes of the tree.
  function Size(e: Expr): nat
    ensures Size(e) >= 1
  {
    match e
    case Or(l, r) => 1 + Size(l) + Size(r)
    case And(l, r) => 1 + Size(l) + Size(r)
    case Not(x) => 1 + Size(x)
    case _ => 1
  }

  // ----- meaning -----

  /** What symbols are worth: their tristate value and their text. */
  datatype Valuation = Valuation(tri: Symbol -> Tristate, str: Symbol -> string)

  function Apply(op: Op, a: Tristate, b: Tristate): Tristate {
    if op == OrOp then TriOr(a, b) else TriAnd(a, b)
  }

  // The value of a tree, with the value of every symbol given.
  function Value(e: Expr, v: Valuation): Tristate {
    match e
    case Or(l, r) => TriOr(Value(l, v), Value(r, v))
    case And(l, r) => TriAnd(Value(l, v), Value(r, v))
    case Not(x) => TriNot(Value(x, v))
    case Equal(a, b) => if v.str(a) == v.str(b) then YES else NO
    case Unequal(a, b) => if v.str(a) == v.str(b) then NO else YES
    case Sym(s) => v.tri(s)
  }

  // The constants `y` and `n` are what they say.
  ghost predicate FixesYn(v: Valuation) {
    v.tri(SymYes) == YES && v.tri(SymNo) == NO
  }

  /** The valuations that evaluating a symbol table can give: built-in constants are fixed,
      booleans are never `m`, the text of a logical symbol spells its value, and constants
      that are different symbols have different texts. */
  ghost predicate WellTyped(v: Valuation) {
    && FixesYn(v)
    && v.tri(SymMod) == MOD
    && v.str(SymYes) == "y" && v.str(SymMod) == "m" && v.str(SymNo) == "n"
    && (forall s: Symbol :: s.Type() == TBoolean ==> v.tri(s) != MOD)
    && (forall s: Symbol :: s.Logical() ==> v.str(s) == TriText(v.tri(s)))
    && (forall s: Symbol, t: Symbol :: s.Const() && t.Const() && s != t ==> v.str(s) != v.str(t))
  }

  // All symbols that a tree names.
  function ExprSymbols(e: Expr): set<Symbol> {
    match e
    case Or(a, b) => ExprSymbols(a) + ExprSymbols(b)
    case And(a, b) => ExprSymbols(a) + ExprSymbols(b)
    case Not(x) => ExprSymbols(x)
    case Equal(a, b) => {a, b}
    case Unequal(a, b) => {a, b}
    case Sym(s) => {s}
  }

  /** The value of a tree depends only on the symbols that it names. */
  lemma {:induction false} ValueFrame(e: Expr, v: Valuation, w: Valuation)
    requires forall s :: s in ExprSymbols(e) ==> v.tri(s) == w.tri(s) && v.str(s) == w.str(s)
    ensures Value(e, v) == Value(e, w)
  {
    match e
    case Or(a, b) => ValueFrame(a, v, w); ValueFrame(b, v, w);
    case And(a, b) => ValueFrame(a, v, w); ValueFrame(b, v, w);
    case Not(x) => ValueFrame(x, v, w);
    case Equal(a, b) => assert a in ExprSymbols(e) && b in ExprSymbols(e);
    case Unequal(a, b) => assert a in ExprSymbols(e) && b in ExprSymbols(e);
    case Sym(a) => assert a in ExprSymbols(e);
  }

  lemma ValueOfNode(op: Op, e: Expr, v: Valuation)
    requires IsNode(op, e)
    ensures Value(e, v) == Apply(op, Value(e.left, v), Value(e.right, v))
  {}

  // Both connectives are associative and commutative, with a neutral and an absorbing value.
  lemma Assoc(op: Op, a: Tristate, b: Tristate, c: Tristate)
    ensures Apply(op, Apply(op, a, b), c) == Apply(op, a, Apply(op, b, c))
  {}

  lemma Comm(op: Op, a: Tristate, b: Tristate)
    ensures Apply(op, a, b) == Apply(op, b, a)
  {}

  lemma Regroup(op: Op, l: Tristate, r: Tristate, m1: Tristate, m2: Tristate)
    ensures Apply(op, Apply(op, l, m1), Apply(op, r, m2)) == Apply(op, Apply(op, l, r), Apply(op, m1, m2))
  {}

  lemma Monotone(op: Op, a: Tristate, b: Tristate, m: Tristate)
    requires a <= b
    ensures Apply(op, a, m) <= Apply(op, b, m)
  {}

  lemma Units(op: Op, a: Tristate, v: Valuation)
    requires FixesYn(v)
    ensures Apply(op, a, Value(Neutral(op), v)) == a && Apply(op, Value(Neutral(op), v), a) == a
    ensures Apply(op, a, Value(Absorbing(op), v)) == Value(Absorbing(op), v) == Apply(op, Value(Absorbing(op), v), a)
  {}
}
