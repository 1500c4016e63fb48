/**
 Handing conditions down the menus: every entry gets the conjunction of its own condition and the
 one above it, normalised and simplified; and the link from the pulling tests to the moved entries.
 */
module MenuConditions {
  import opened Expressions
  import opened ExprEquality
  import opened Wrappers
  import opened ExprTransform
  import opened ExprSpine
  import opened ExprJoin
  import opened ExprDups
  import opened MenuEntailment
  import opened MenuForest
  import opened SymbolTable
  import SymbolEquations

  function AllocAnd(a: Option<Expr>, b: Option<Expr>): Option<Expr> {
    if a.None? then b else if b.None? then a else Some(And(a.value, b.value))
  }

  // The condition of an entry or a prompt, from the one above it and its own.
  function Propagate(above: Option<Expr>, own: Option<Expr>): Option<Expr> {
    var e := AllocAnd(above, if own.None? then None else Some(Transform(own.value)));
    if e.None? then None else Some(Simplify(e.value))
  }

  // The same for the prompt of a symbol; comparisons with `n` are dropped unless it is tristate.
  function PropagatePrompt(above: Option<Expr>, own: Option<Expr>, tristateSymbol: bool): Option<Expr> {
    var e := Propagate(above, own);
    if e.None? || tristateSymbol then e else Some(TransBool(e.value))
  }

  // A missing condition holds.
  function ValueOf(e: Option<Expr>, v: Valuation): Tristate {
    if e.None? then YES else Value(e.value, v)
  }

  /** The condition handed down is the conjunction of both, unless that is `m`. */
  lemma {:induction false} PropagateKeeps(above: Option<Expr>, own: Option<Expr>, v: Valuation)
    requires WellTyped(v)
    ensures Keeps(TriAnd(ValueOf(above, v), ValueOf(own, v)), ValueOf(Propagate(above, own), v))
  {
    if own.Some? {
      TransformPreservesValue(own.value, v);
    }
    var e := AllocAnd(above, if own.None? then None else Some(Transform(own.value)));
    if e.Some? {
      SimplifyKeeps(e.value, v);
    }
  }

  // The conditions on the way from the root to an entry, handed down one by one.
  function PathCondition(conditions: seq<Option<Expr>>): Option<Expr> {
    if conditions == [] then None
    else Propagate(PathCondition(conditions[..|conditions| - 1]), conditions[|conditions| - 1])
  }

  function PathValue(conditions: seq<Option<Expr>>, v: Valuation): Tristate {
    if conditions == [] then YES
    else TriAnd(PathValue(conditions[..|conditions| - 1], v), ValueOf(conditions[|conditions| - 1], v))
  }

  /** At any depth, an entry is on exactly when all conditions on the way to it are, unless they come to `m`. */
  lemma {:induction false} PathConditionKeeps(conditions: seq<Option<Expr>>, v: Valuation)
    requires WellTyped(v)
    ensures Keeps(PathValue(conditions, v), ValueOf(PathCondition(conditions), v))
  {
    if conditions != [] {
      var front, last := conditions[..|conditions| - 1], conditions[|conditions| - 1];
      PathConditionKeeps(front, v);
      PropagateKeeps(PathCondition(front), last, v);
    }
  }

  // ----- prompts of symbols that are not tristate -----

  /** Conditions in which reading `FOO != n` as `FOO` is safe. */
  predicate Safe(e: Expr) {
    NegationsSafe(e, true)
  }

  lemma {:induction false} GetSafe(op: Op, e: Expr, p: Path)
    requires On(Spine(op, e), p) && Safe(e)
    ensures Safe(Get(op, e, p))
    decreases |p|
  {
    if p != [] {
      GetSafe(op, if p[0] == L then e.left else e.right, p[1..]);
    }
  }

  lemma {:induction false} PutSafe(op: Op, e: Expr, p: Path, x: Expr)
    requires On(Spine(op, e), p) && Safe(e) && Safe(x)
    ensures Safe(Put(op, e, p, x))
    decreases |p|
  {
    if p != [] {
      PutSafe(op, if p[0] == L then e.left else e.right, p[1..], x);
    }
  }

  lemma {:induction false} JoinPairsSafe(e: Expr)
    requires IsConnective(e) && Safe(e)
    ensures Safe(JoinPairs(e).0)
    decreases Size(e), 2 * Forks(Top(e)) + 1
  {
    JoinFromSafe(e, [], []);
  }

  lemma {:induction false} JoinFromSafe(e: Expr, p1: Path, p2: Path)
    requires IsConnective(e) && On(Top(e), p1) && On(Top(e), p2) && Safe(e)
    ensures Safe(JoinFrom(e, p1, p2).0)
    decreases Size(e), Forks(At(Top(e), p1)) + Forks(At(Top(e), p2)), 1
  {
    var s := Top(e);
    if At(s, p1).Fork? {
      OnSnoc(s, p1, L);
      OnSnoc(s, p1, R);
      JoinFromSafe(e, p1 + [L], p2);
      JoinFromSafe(JoinFrom(e, p1 + [L], p2).0, p1 + [R], p2);
    } else if At(s, p2).Fork? {
      OnSnoc(s, p2, L);
      OnSnoc(s, p2, R);
      JoinFromSafe(e, p1, p2 + [L]);
      JoinFromSafe(JoinFrom(e, p1, p2 + [L]).0, p1, p2 + [R]);
    } else if p1 != p2 {
      JoinOperandsSafe(e, p1, p2);
    }
  }

  lemma {:induction false} JoinOperandsSafe(e: Expr, p1: Path, p2: Path)
    requires Operand(e, p1) && Operand(e, p2) && p1 != p2 && Safe(e)
    ensures Safe(JoinOperands(e, p1, p2).0)
    decreases Size(e), 0, 0
  {
    var x := Get(OpOf(e), e, p1);
    GetSafe(OpOf(e), e, p1);
    var inner := if IsConnective(x) then JoinPairs(x) else (x, 0);
    if IsConnective(x) {
      JoinPairsSafe(x);
    }
    PutSafe(OpOf(e), e, p1, inner.0);
    JoinTwoSafe(WithOperand(e, p1, inner.0), p1, p2);
  }

  lemma {:induction false} JoinTwoSafe(e: Expr, p1: Path, p2: Path)
    requires Operand(e, p1) && Operand(e, p2) && p1 != p2 && Safe(e)
    ensures Safe(JoinTwo(e, p1, p2).0)
  {
    var op := OpOf(e);
    var x, y := Get(op, e, p1), Get(op, e, p2);
    if Join(op, x, y).Some? {
      GetSafe(op, e, p1);
      JoinIsSmall(op, x, y);
      PutSafe(op, e, p1, Neutral(op));
      PutSafe(op, WithOperand(e, p1, Neutral(op)), p2, Join(op, x, y).value);
    }
  }

  lemma {:induction false} DropContradictedSafe(e: Expr)
    requires IsConnective(e) && Safe(e)
    ensures Safe(DropContradicted(e).0)
    decreases Size(e), 2 * Forks(Top(e)) + 1
  {
    DropFromSafe(e, [], []);
  }

  lemma {:induction false} DropFromSafe(e: Expr, p1: Path, p2: Path)
    requires IsConnective(e) && On(Top(e), p1) && On(Top(e), p2) && Safe(e)
    ensures Safe(DropFrom(e, p1, p2).0)
    decreases Size(e), Forks(At(Top(e), p1)) + Forks(At(Top(e), p2)), 1
  {
    var s := Top(e);
    if At(s, p1).Fork? {
      OnSnoc(s, p1, L);
      OnSnoc(s, p1, R);
      DropFromSafe(e, p1 + [L], p2);
      DropFromSafe(DropFrom(e, p1 + [L], p2).0, p1 + [R], p2);
    } else if At(s, p2).Fork? {
      OnSnoc(s, p2, L);
      OnSnoc(s, p2, R);
      var a := DropFrom(e, p1, p2 + [L]);
      DropFromSafe(e, p1, p2 + [L]);
      DropFromSafe(a.0, p1, p2 + [R]);
      DropOperandSafe(DropFrom(a.0, p1, p2 + [R]).0, p1, p2);
    } else if p1 != p2 {
      DropOperandSafe(e, p1, p2);
    }
  }

  lemma {:induction false} DropOperandSafe(e: Expr, p1: Path, p2: Path)
    requires Operand(e, p1) && On(Top(e), p2) && Safe(e)
    ensures Safe(DropOperand(e, p1, p2).0)
    decreases Size(e), 0, 0
  {
    var op, x := OpOf(e), Get(OpOf(e), e, p1);
    GetSafe(op, e, p1);
    if IsConnective(x) {
      DropContradictedSafe(x);
      PutSafe(op, e, p1, DropContradicted(x).0);
      PutSafe(op, WithOperand(e, p1, DropContradicted(x).0), p1, Absorbing(op));
    }
  }

  lemma {:induction false} EliminateYnSafe(e: Expr)
    requires Safe(e)
    ensures Safe(EliminateYn(e))
  {
    if IsConnective(e) {
      EliminateYnSafe(e.left);
      EliminateYnSafe(e.right);
    }
  }

  lemma {:induction false} SimplifySafe(e: Expr)
    requires Safe(e)
    ensures Safe(Simplify(e))
    decreases Size(e)
  {
    if Unfinished(e) {
      JoinPairsSafe(e);
      DropContradictedSafe(JoinPairs(e).0);
      EliminateYnSafe(OnePass(e).0);
      SimplifySafe(NextRound(e));
    }
  }

  lemma {:induction false} TransBoolSafe(e: Expr)
    requires Safe(e)
    ensures Safe(TransBool(e))
  {
    match e
    case Or(a, b) => TransBoolSafe(a); TransBoolSafe(b);
    case And(a, b) => TransBoolSafe(a); TransBoolSafe(b);
    case Not(x) => SafeBelowNegation(x);
    case _ =>
  }

  ghost predicate SafeCondition(e: Option<Expr>) {
    e.Some? ==> Safe(e.value)
  }

  /** Conditions handed down stay safe for the comparison-dropping pass, and that pass changes neither
      whether such a prompt is visible nor anything but `y` into `m`. */
  lemma {:induction false} PropagatePromptVisible(above: Option<Expr>, own: Option<Expr>, tristateSymbol: bool,
                                                  v: Valuation)
    requires WellTyped(v) && SafeCondition(above)
    ensures SafeCondition(PropagatePrompt(above, own, tristateSymbol))
    ensures var before, after := Propagate(above, own), PropagatePrompt(above, own, tristateSymbol);
            && (ValueOf(after, v) == NO <==> ValueOf(before, v) == NO)
            && ValueOf(after, v) <= ValueOf(before, v)
  {
    if own.Some? {
      TransformIsNormal(own.value);
      NormalIsSafe(Transform(own.value));
    }
    var e := AllocAnd(above, if own.None? then None else Some(Transform(own.value)));
    if e.Some? {
      SimplifySafe(e.value);
      TransBoolKeepsOn(Simplify(e.value), v);
      TransBoolSafe(Simplify(e.value));
    }
  }

  /** For a tristate symbol the condition of a prompt is the one handed down; for others no comparison of a
      tristate symbol with `n` is left in it. */
  lemma PropagatePromptDrops(above: Option<Expr>, own: Option<Expr>, tristateSymbol: bool)
    ensures var before, after := Propagate(above, own), PropagatePrompt(above, own, tristateSymbol);
            && (after.None? <==> above.None? && own.None?)
            && (tristateSymbol || before.None? || !ComparesWithNo(before.value) ==> after == before)
            && (!tristateSymbol && after.Some? ==> !ComparesWithNo(after.value))
  {
    var before := Propagate(above, own);
    if before.Some? {
      TransBoolDropsAll(before.value);
    }
  }

  // ----- what the user sees of a symbol -----

  function DroppedCondition(e: Option<Expr>): Option<Expr> {
    if e.None? then None else Some(TransBool(e.value))
  }

  /** The properties of a symbol with comparisons dropped from all conditions. */
  function Dropped(ps: seq<Property>): seq<Property> {
    seq(|ps|, i requires 0 <= i < |ps| => ps[i].(visible := DroppedCondition(ps[i].visible)))
  }

  lemma {:induction false} DroppedPrompts(ps: seq<Property>, v: Valuation)
    requires WellTyped(v) && forall i :: 0 <= i < |ps| && ps[i].hasText ==> SafeCondition(ps[i].visible)
    ensures SymbolEquations.PromptsValue(Dropped(ps), v) == NO <==> SymbolEquations.PromptsValue(ps, v) == NO
  {
    if ps != [] {
      var n := |ps| - 1;
      assert Dropped(ps)[..n] == Dropped(ps[..n]);
      DroppedPrompts(ps[..n], v);
      if ps[n].hasText && ps[n].visible.Some? {
        TransBoolKeepsOn(ps[n].visible.value, v);
      }
    }
  }

  /** For a symbol that is no tristate, with however many prompts, dropping comparisons from all their
      conditions changes nothing about how far it is visible. */
  lemma VisibilityIsKept(s: Symbol, m: Tristate, ps: seq<Property>, v: Valuation)
    requires s.Type() != TTristate && WellTyped(v)
    requires forall i :: 0 <= i < |ps| && ps[i].hasText ==> SafeCondition(ps[i].visible)
    ensures SymbolEquations.VisibleFrom(s, m, SymbolEquations.PromptsValue(Dropped(ps), v))
            == SymbolEquations.VisibleFrom(s, m, SymbolEquations.PromptsValue(ps, v))
  {
    DroppedPrompts(ps, v);
  }

  // ----- the conditions of the entries of a symbol -----

  // Dropping comparisons with `n` loses the constant `n` and no other symbol.
  lemma {:induction false} TransBoolNames(e: Expr)
    ensures ExprSymbols(e) <= ExprSymbols(TransBool(e)) + {SymNo}
  {
    match e
    case Or(a, b) => TransBoolNames(a); TransBoolNames(b);
    case And(a, b) => TransBoolNames(a); TransBoolNames(b);
    case Not(x) => TransBoolNames(x);
    case _ =>
  }

  function AllocOr(a: Option<Expr>, b: Option<Expr>): Option<Expr> {
    if a.None? then b else if b.None? then a else Some(Or(a.value, b.value))
  }

  // The direct dependencies of a symbol, from the conditions of its entries.
  function AnyOf(conditions: seq<Option<Expr>>): Option<Expr> {
    if conditions == [] then None
    else AllocOr(AnyOf(conditions[..|conditions| - 1]), conditions[|conditions| - 1])
  }

  lemma {:induction false} AnyOfNames(conditions: seq<Option<Expr>>, named: set<Symbol>)
    requires forall i :: 0 <= i < |conditions| ==> OptSymbols(conditions[i]) <= named
    ensures OptSymbols(AnyOf(conditions)) <= named
  {
    if conditions != [] {
      AnyOfNames(conditions[..|conditions| - 1], named);
    }
  }

  /** They are missing if no entry has a condition; otherwise they hold as far as the best of the conditions
      that there are. */
  lemma {:induction false} AnyOfIs(conditions: seq<Option<Expr>>, v: Valuation)
    ensures AnyOf(conditions).None? <==> forall i :: 0 <= i < |conditions| ==> conditions[i].None?
    ensures var d := AnyOf(conditions);
            d.Some? ==>
              && (forall i :: 0 <= i < |conditions| && conditions[i].Some? ==>
                    Value(conditions[i].value, v) <= Value(d.value, v))
              && (exists i :: 0 <= i < |conditions| && conditions[i].Some?
                    && Value(conditions[i].value, v) == Value(d.value, v))
  {
    if conditions != [] {
      var n := |conditions| - 1;
      var front, d := conditions[..n], AnyOf(conditions);
      AnyOfIs(front, v);
      assert conditions == front + [conditions[n]];
      if d.Some? {
        if conditions[n].Some? && Value(conditions[n].value, v) == Value(d.value, v) {
        } else {
          var i :| 0 <= i < |front| && front[i].Some? && Value(front[i].value, v) == Value(AnyOf(front).value, v);
          assert conditions[i] == front[i];
        }
      }
    }
  }

  // Every entry adds a property without text or condition to its symbol; this is what becomes of it.
  function EntryProperty(condition: Option<Expr>, tristateSymbol: bool): Property {
    Property(PSymbol, PropagatePrompt(condition, None, tristateSymbol), false, None)
  }

  /** Such a property is neither a prompt nor a default. */
  lemma EntryPropertyIsSilent(ps: seq<Property>, condition: Option<Expr>, tristateSymbol: bool, v: Valuation)
    ensures var all := ps + [EntryProperty(condition, tristateSymbol)];
            && SymbolEquations.PromptsValue(all, v) == SymbolEquations.PromptsValue(ps, v)
            && SymbolEquations.FirstDefault(all, v) == SymbolEquations.FirstDefault(ps, v)
  {
    var p := EntryProperty(condition, tristateSymbol);
    assert (ps + [p])[..|ps|] == ps;
    LastIsNoDefault(ps, p, v);
  }

  lemma {:induction false} LastIsNoDefault(ps: seq<Property>, p: Property, v: Valuation)
    requires p.kind != PDefault
    ensures SymbolEquations.FirstDefault(ps + [p], v) == SymbolEquations.FirstDefault(ps, v)
    decreases |ps|
  {
    if ps == [] {
      assert [p][1..] == [];
      assert ps + [p] == [p];
    } else {
      assert (ps + [p])[1..] == ps[1..] + [p];
      LastIsNoDefault(ps[1..], p, v);
    }
  }

  lemma {:induction false} PropertyNames(ps: seq<Property>, i: nat)
    requires i < |ps|
    ensures PropertySymbols(ps[i]) <= PropsSymbols(ps)
  {
    PropsStep(ps, i);
    PropsBelow(ps, i + 1);
  }

  // The condition of an entry names nothing that its property does not name, but perhaps `n`.
  lemma {:induction false} EntryNames(above: Option<Expr>, own: Option<Expr>, tristateSymbol: bool)
    ensures var base := Propagate(above, own);
            OptSymbols(base) <= PropertySymbols(EntryProperty(base, tristateSymbol)) + {SymNo}
  {
    var e := AllocAnd(above, if own.None? then None else Some(Transform(own.value)));
    if e.Some? {
      SimplifyIdempotent(e.value);
      TransBoolNames(Simplify(e.value));
    }
  }

  /** The condition of an entry of the symbol, as it was handed down, and the property that goes with it. */
  ghost predicate HandedDown(props: seq<Property>, condition: Option<Expr>, tristateSymbol: bool) {
    && EntryProperty(condition, tristateSymbol) in props
    && exists above, own :: condition == Propagate(above, own)
  }

  /** So the direct dependencies that finalising the menus collects name only what the symbol depends on
      anyway, and constants. */
  lemma {:induction false} EntriesAreSeen(t: Table, s: Symbol, conditions: seq<Option<Expr>>, tristateSymbol: bool)
    requires s in t && SymNo in t && t[s].dirDep == AnyOf(conditions)
    requires forall i :: 0 <= i < |conditions| ==> HandedDown(t[s].props, conditions[i], tristateSymbol)
    ensures DirectlySeen(t, s)
  {
    forall i | 0 <= i < |conditions|
      ensures OptSymbols(conditions[i]) <= Deps(t, s) + BuiltIns(t)
    {
      assert HandedDown(t[s].props, conditions[i], tristateSymbol);
      var above, own :| conditions[i] == Propagate(above, own);
      EntryNames(above, own, tristateSymbol);
      var k :| 0 <= k < |t[s].props| && t[s].props[k] == EntryProperty(conditions[i], tristateSymbol);
      PropertyNames(t[s].props, k);
    }
    AnyOfNames(conditions, Deps(t, s) + BuiltIns(t));
  }

  // ----- moved entries -----

  /** What the pulling tests look at: the symbol and the prompt condition of each entry, and the
      condition under which it is shown. */
  datatype Menu = Menu(sym: Id -> Symbol, prompt: Id -> Option<Expr>, shown: Id -> Option<Expr>)

  ghost predicate Decides(menu: Menu, rules: Rules) {
    forall p, c :: rules.pulls(p, c) == Pulls(menu.sym(p), menu.prompt(p), menu.shown(c))
  }

  /** Every entry moved below another one is, when shown, forced to have that one's symbol on or its
      prompt shown; and the entry at which the moving stops failed the tests. */
  lemma {:induction false} MovedOnlyIfForced(menu: Menu, rules: Rules, p: Id, f: Forest, v: Valuation)
    requires Decides(menu, rules) && menu.sym(p).Logical() && WellTyped(v)
    requires SettledCondition(menu.prompt(p), v) && forall c :: c in Heads(f) ==> SettledCondition(menu.shown(c), v)
    ensures var (moved, rest) := Absorb(rules, p, f);
            && (forall c :: c in Heads(moved) && Holds(menu.shown(c), v) ==>
                  v.tri(menu.sym(p)) != NO || Holds(menu.prompt(p), v))
            && (rest.Entry? ==> !Pulls(menu.sym(p), menu.prompt(p), menu.shown(rest.id)))
  {
    var (moved, rest) := Absorb(rules, p, f);
    AbsorbTakesLongestRun(rules, p, f);
    forall c | c in Heads(moved) && Holds(menu.shown(c), v)
      ensures v.tri(menu.sym(p)) != NO || Holds(menu.prompt(p), v)
    {
      assert rules.pulls(p, c);
      PulledOnlyIfForced(menu.sym(p), menu.prompt(p), menu.shown(c), v);
    }
  }
}
