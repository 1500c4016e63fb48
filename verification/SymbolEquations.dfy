/**
 What the value of every symbol should be: one equation for each symbol, in terms of the symbols it
 depends on. For a table without recursive dependencies the equations have exactly one solution.
 */
module SymbolEquations {
  import opened Expressions
  import opened Wrappers
  import opened SymbolTable

  /** The calculated fields of a symbol: its value and text, its visibility, the level at which others
      select it, and whether it is to be written. */
  datatype Fields = Fields(tri: Tristate, val: string, visible: Tristate, rev: Tristate, write: bool)

  datatype UserValue = UserValue(tri: Tristate, val: string)

  /** The table, the symbol that enables modules, and the texts of quoted constants. */
  datatype Config = Config(table: Table, modules: Symbol, literal: nat -> string)

  type Env = map<Symbol, Fields>

  function NoFields(val: string): Fields {
    Fields(NO, val, NO, NO, false)
  }

  // A constant is worth what it says.
  function ConstFields(c: Config, s: Symbol): Fields
    requires s.Const()
  {
    match s
    case SymYes => NoFields("y").(tri := YES)
    case SymMod => NoFields("m").(tri := MOD)
    case SymNo => NoFields("n")
    case Literal(k) => NoFields(c.literal(k))
  }

  // The fields of a symbol, with something harmless for symbols that are not in the table.
  function Lookup(c: Config, env: Env, s: Symbol): Fields {
    if s in env then env[s] else if s.Const() then ConstFields(c, s) else NoFields("n")
  }

  function Text(s: Symbol, f: Fields): string {
    if s.Logical() then TriText(f.tri) else f.val
  }

  function ValuationOf(c: Config, env: Env): Valuation {
    Valuation(s => Lookup(c, env, s).tri, s => Text(s, Lookup(c, env, s)))
  }

  // ----- the equation of one symbol -----

  function OptValue(e: Option<Expr>, missing: Tristate, v: Valuation): Tristate {
    if e.None? then missing else Value(e.value, v)
  }

  // The best of all prompts.
  function PromptsValue(ps: seq<Property>, v: Valuation): Tristate {
    if ps == [] then NO
    else
      var t, p := PromptsValue(ps[..|ps| - 1], v), ps[|ps| - 1];
      if p.hasText then TriOr(t, OptValue(p.visible, YES, v)) else t
  }

  // Without modules a tristate symbol is treated as a boolean.
  function EffectiveType(s: Symbol, m: Tristate): SymbolType {
    if s.Type() == TTristate && m == NO then TBoolean else s.Type()
  }

  // The first default whose condition holds.
  function FirstDefault(ps: seq<Property>, v: Valuation): Option<Property> {
    if ps == [] then None
    else if ps[0].kind == PDefault && OptValue(ps[0].visible, YES, v) != NO then Some(ps[0])
    else FirstDefault(ps[1..], v)
  }

  // The symbol whose text is the default of a string or number.
  function DefaultSymbol(p: Option<Property>): Option<Symbol> {
    if p.Some? && p.value.value.Some? && p.value.value.value.Sym? then Some(p.value.value.value.sym) else None
  }

  // What a default is worth: its value, limited by its condition.
  function DefaultValue(p: Option<Property>, v: Valuation): Tristate {
    if p.None? then NO else TriAnd(OptValue(p.value.value, YES, v), OptValue(p.value.visible, YES, v))
  }

  function DefaultText(c: Config, p: Option<Property>, env: Env): Option<string> {
    var from := DefaultSymbol(p);
    if from.None? then None else Some(Lookup(c, env, from.value).val)
  }

  /** All that the value of a symbol is made of, besides the user's value. */
  datatype Inputs = Inputs(prompts: Tristate, rev: Tristate, hasDefault: bool, default: Tristate, text: Option<string>)

  function InputsOf(c: Config, d: Declaration, env: Env): Inputs {
    var v := ValuationOf(c, env);
    var p := FirstDefault(d.props, v);
    Inputs(PromptsValue(d.props, v), OptValue(d.revDep, NO, v), p.Some?, DefaultValue(p, v), DefaultText(c, p, env))
  }

  function VisibleFrom(s: Symbol, m: Tristate, prompts: Tristate): Tristate {
    if prompts == MOD && EffectiveType(s, m) != TTristate then YES else prompts
  }

  function RevFrom(s: Symbol, m: Tristate, rev: Tristate): Tristate {
    if rev == MOD && EffectiveType(s, m) == TBoolean then YES else rev
  }

  // A boolean or tristate symbol: the user's value as far as it is visible, else the default; and at
  // least what others select.
  function LogicalFields(s: Symbol, m: Tristate, u: Option<UserValue>, i: Inputs): Fields {
    var visible, rev := VisibleFrom(s, m, i.prompts), RevFrom(s, m, i.rev);
    var t := TriOr(if visible != NO && u.Some? then TriAnd(u.value.tri, visible) else i.default, rev);
    Fields(if t == MOD && EffectiveType(s, m) == TBoolean then YES else t, "n", visible, rev,
           visible != NO || rev != NO || i.hasDefault)
  }

  // A string or number: the user's text if it is visible, else the default.
  function TextFields(s: Symbol, m: Tristate, u: Option<UserValue>, i: Inputs): Fields {
    var visible := VisibleFrom(s, m, i.prompts);
    var text := if visible != NO && u.Some? then u.value.val else if i.text.Some? then i.text.value else "";
    Fields(NO, text, visible, RevFrom(s, m, i.rev), visible != NO || i.text.Some?)
  }

  function UserOf(user: map<Symbol, UserValue>, s: Symbol): Option<UserValue> {
    if s in user then Some(user[s]) else None
  }

  predicate Typed(s: Symbol) {
    s.Entry? && s.Type() != TUnknown && s.Type() != TOther
  }

  function OutcomeFrom(c: Config, u: Option<UserValue>, m: Tristate, s: Symbol, i: Inputs): Fields
    requires s in c.table
  {
    if s.Const() then ConstFields(c, s)
    else if !Typed(s) then NoFields(c.table[s].name)
    else if s.Logical() then LogicalFields(s, m, u, i)
    else TextFields(s, m, u, i)
  }

  /** What the fields of `s` should be, with everything it depends on as in `env`. */
  function Outcome(c: Config, user: map<Symbol, UserValue>, m: Tristate, s: Symbol, env: Env): Fields
    requires s in c.table
  {
    OutcomeFrom(c, UserOf(user, s), m, s, InputsOf(c, c.table[s], env))
  }

  // The equation of `s` holds.
  ghost predicate Satisfied(c: Config, user: map<Symbol, UserValue>, m: Tristate, s: Symbol, env: Env) {
    s in c.table && s in env && env[s] == Outcome(c, user, m, s, env)
  }

  /** All equations hold. */
  ghost predicate Solution(c: Config, user: map<Symbol, UserValue>, m: Tristate, env: Env) {
    env.Keys == c.table.Keys && AllSatisfied(c, user, m, env)
  }

  // ----- equations read only what the symbol depends on -----

  // The two environments agree on a set of symbols.
  ghost predicate AgreeOn(c: Config, env: Env, env': Env, deps: set<Symbol>) {
    forall s :: s in deps ==> Lookup(c, env, s) == Lookup(c, env', s)
  }

  lemma {:induction false} OptFrame(c: Config, e: Option<Expr>, missing: Tristate, env: Env, env': Env)
    requires AgreeOn(c, env, env', OptSymbols(e))
    ensures OptValue(e, missing, ValuationOf(c, env)) == OptValue(e, missing, ValuationOf(c, env'))
  {
    if e.Some? {
      ValueFrame(e.value, ValuationOf(c, env), ValuationOf(c, env'));
    }
  }

  lemma {:induction false} PromptsFrame(c: Config, ps: seq<Property>, env: Env, env': Env)
    requires AgreeOn(c, env, env', PropsSymbols(ps))
    requires TextsAreVisible(ps)
    ensures PromptsValue(ps, ValuationOf(c, env)) == PromptsValue(ps, ValuationOf(c, env'))
  {
    if ps != [] {
      PromptsFrame(c, ps[..|ps| - 1], env, env');
      if ps[|ps| - 1].hasText {
        OptFrame(c, ps[|ps| - 1].visible, YES, env, env');
      }
    }
  }

  // Only properties whose conditions count carry a prompt text.
  predicate TextsAreVisible(ps: seq<Property>) {
    forall i :: 0 <= i < |ps| ==> ps[i].hasText ==> ps[i].kind != PChoice && ps[i].kind != PSelect
  }

  lemma {:induction false} PropsHead(ps: seq<Property>)
    requires ps != []
    ensures PropsSymbols(ps) == PropertySymbols(ps[0]) + PropsSymbols(ps[1..])
    decreases |ps|
  {
    var n := |ps| - 1;
    if n > 0 {
      PropsHead(ps[..n]);
      assert ps[..n][1..] == ps[1..][..n - 1];
    } else {
      assert ps[..n] == [] && ps[1..] == [];
    }
  }

  lemma {:induction false} DefaultFrame(c: Config, ps: seq<Property>, env: Env, env': Env)
    requires AgreeOn(c, env, env', PropsSymbols(ps))
    ensures FirstDefault(ps, ValuationOf(c, env)) == FirstDefault(ps, ValuationOf(c, env'))
    ensures FirstDefault(ps, ValuationOf(c, env)).Some? ==>
              var p := FirstDefault(ps, ValuationOf(c, env)).value;
              p.kind == PDefault && OptSymbols(p.visible) + OptSymbols(p.value) <= PropsSymbols(ps)
  {
    if ps != [] {
      PropsHead(ps);
      if ps[0].kind == PDefault {
        OptFrame(c, ps[0].visible, YES, env, env');
      }
      DefaultFrame(c, ps[1..], env, env');
    }
  }

  lemma {:induction false} InputsFrame(c: Config, s: Symbol, env: Env, env': Env)
    requires s in c.table && TextsAreVisible(c.table[s].props)
    requires AgreeOn(c, env, env', Deps(c.table, s))
    ensures InputsOf(c, c.table[s], env) == InputsOf(c, c.table[s], env')
  {
    var d := c.table[s];
    PromptsFrame(c, d.props, env, env');
    OptFrame(c, d.revDep, NO, env, env');
    DefaultFrame(c, d.props, env, env');
    var p := FirstDefault(d.props, ValuationOf(c, env));
    if p.Some? {
      OptFrame(c, p.value.visible, YES, env, env');
      OptFrame(c, p.value.value, YES, env, env');
    }
  }

  // ----- solutions -----

  // The modules symbol is one of the configuration, or the constant `n` if none is declared to be it.
  ghost predicate WellFormed(c: Config) {
    && Closed(c.table)
    && (forall s {:trigger WellDeclared(c, s)} :: s in c.table ==> WellDeclared(c, s))
    && c.modules in c.table && (c.modules.Entry? || c.modules == SymNo)
  }

  // Prompts are ordinary properties.
  ghost predicate WellDeclared(c: Config, s: Symbol)
    requires s in c.table
  {
    TextsAreVisible(c.table[s].props)
  }

  /** Equal equations with equal inputs have equal outcomes. */
  lemma {:induction false} OutcomeFrame(c: Config, s: Symbol, user: map<Symbol, UserValue>, m: Tristate, env: Env,
                                        user': map<Symbol, UserValue>, m': Tristate, env': Env)
    requires s in c.table && WellDeclared(c, s) && SameEquation(user, m, user', m', s)
    requires AgreeOn(c, env, env', Deps(c.table, s))
    ensures Outcome(c, user, m, s, env) == Outcome(c, user', m', s, env')
  {
    InputsFrame(c, s, env, env');
    ModulesOnlyForTristate(c, UserOf(user, s), m, m', s, InputsOf(c, c.table[s], env));
  }

  lemma ModulesOnlyForTristate(c: Config, u: Option<UserValue>, m: Tristate, m': Tristate, s: Symbol, i: Inputs)
    requires s in c.table && (m == m' || s.Type() != TTristate)
    ensures OutcomeFrom(c, u, m, s, i) == OutcomeFrom(c, u, m', s, i)
  {}

  // The equations of `s` are the same for both.
  ghost predicate SameEquation(user: map<Symbol, UserValue>, m: Tristate, user': map<Symbol, UserValue>, m': Tristate,
                               s: Symbol) {
    UserOf(user, s) == UserOf(user', s) && (m == m' || s.Type() != TTristate)
  }

  /** Solutions agree wherever their equations are the same, all the way down. */
  lemma {:induction false} SolutionsAgree(c: Config, order: seq<Symbol>, among: set<Symbol>,
                                          user: map<Symbol, UserValue>, m: Tristate, env: Env,
                                          user': map<Symbol, UserValue>, m': Tristate, env': Env)
    requires WellFormed(c) && Topological(c.table, order)
    requires Solution(c, user, m, env) && Solution(c, user', m', env')
    requires forall s :: s in among ==> s in c.table && Deps(c.table, s) <= among && SameEquation(user, m, user', m', s)
    ensures forall s :: s in among && s in Elements(order) ==> env[s] == env'[s]
  {
    if order != [] {
      var front, last := order[..|order| - 1], order[|order| - 1];
      SolutionsAgree(c, front, among, user, m, env, user', m', env');
      if last in among {
        assert WellDeclared(c, last);
        assert AgreeOn(c, env, env', Deps(c.table, last));
        assert Satisfied(c, user, m, last, env) && Satisfied(c, user', m', last, env');
        OutcomeFrame(c, last, user, m, env, user', m', env');
      }
    }
  }

  /** At most one solution. */
  lemma {:induction false} SolutionUnique(c: Config, order: seq<Symbol>, user: map<Symbol, UserValue>, m: Tristate,
                                          env: Env, env': Env)
    requires WellFormed(c) && Topological(c.table, order) && Elements(order) == c.table.Keys
    requires Solution(c, user, m, env) && Solution(c, user, m, env')
    ensures env == env'
  {
    forall s | s in c.table.Keys
      ensures Deps(c.table, s) <= c.table.Keys
    {
      assert DepsInside(c.table, s);
    }
    SolutionsAgree(c, order, c.table.Keys, user, m, env, user, m, env');
  }

  // Adding a symbol does not disturb equations that do not depend on it.
  lemma {:induction false} StaysSatisfied(c: Config, user: map<Symbol, UserValue>, m: Tristate, s: Symbol, env: Env,
                                          x: Symbol, f: Fields)
    requires WellFormed(c) && s in c.table && x !in env && Deps(c.table, s) <= env.Keys
    requires if s == x then f == Outcome(c, user, m, s, env) else Satisfied(c, user, m, s, env)
    ensures Satisfied(c, user, m, s, env[x := f])
  {
    assert WellDeclared(c, s);
    assert AgreeOn(c, env, env[x := f], Deps(c.table, s));
    OutcomeFrame(c, s, user, m, env, user, m, env[x := f]);
  }

  ghost predicate AllSatisfied(c: Config, user: map<Symbol, UserValue>, m: Tristate, env: Env) {
    forall s {:trigger Satisfied(c, user, m, s, env)} :: s in env ==> Satisfied(c, user, m, s, env)
  }

  lemma {:induction false} OneMoreSatisfied(c: Config, user: map<Symbol, UserValue>, m: Tristate, env: Env, x: Symbol)
    requires WellFormed(c) && AllSatisfied(c, user, m, env) && x in c.table && x !in env && Deps(c.table, x) <= env.Keys
    requires forall s :: s in env ==> s in c.table && Deps(c.table, s) <= env.Keys
    ensures AllSatisfied(c, user, m, env[x := Outcome(c, user, m, x, env)])
  {
    var f := Outcome(c, user, m, x, env);
    var env' := env[x := f];
    forall s | s in env'
      ensures Satisfied(c, user, m, s, env')
    {
      assert s != x ==> Satisfied(c, user, m, s, env);
      StaysSatisfied(c, user, m, s, env, x, f);
    }
  }

  // The equations solved one after the other.
  lemma {:induction false} Solve(c: Config, user: map<Symbol, UserValue>, m: Tristate, order: seq<Symbol>)
    returns (env: Env)
    requires WellFormed(c) && Topological(c.table, order)
    ensures env.Keys == Elements(order) && AllSatisfied(c, user, m, env)
  {
    if order == [] {
      env := map[];
    } else {
      var front, last := order[..|order| - 1], order[|order| - 1];
      var before := Solve(c, user, m, front);
      forall s | s in before
        ensures s in c.table && Deps(c.table, s) <= before.Keys
      {
        DependenciesInside(c.table, front, s);
      }
      OneMoreSatisfied(c, user, m, before, last);
      env := before[last := Outcome(c, user, m, last, before)];
    }
  }

  /** Exactly one solution, when an order of all symbols respects the dependencies. */
  lemma {:induction false} ExactlyOneSolution(c: Config, user: map<Symbol, UserValue>, m: Tristate, order: seq<Symbol>)
    returns (env: Env)
    requires WellFormed(c) && Topological(c.table, order) && Elements(order) == c.table.Keys
    ensures Solution(c, user, m, env)
    ensures forall env' :: Solution(c, user, m, env') ==> env' == env
  {
    env := Solve(c, user, m, order);
    forall env' | Solution(c, user, m, env')
      ensures env' == env
    {
      SolutionUnique(c, order, user, m, env, env');
    }
  }

  // ----- the symbol that enables modules -----

  /** The value of the modules symbol in the solution is the one that the equations assume. */
  ghost predicate Settled(c: Config, user: map<Symbol, UserValue>, m: Tristate, env: Env) {
    Solution(c, user, m, env) && c.modules in env && env[c.modules].tri == m
  }

  /** A set of symbols without tristates, closed under dependencies, that contains the modules symbol. */
  ghost predicate ModulesCone(c: Config, cone: set<Symbol>) {
    && c.modules in cone
    && forall s {:trigger InCone(c, cone, s)} :: s in cone ==> InCone(c, cone, s)
  }

  ghost predicate InCone(c: Config, cone: set<Symbol>, s: Symbol) {
    s in c.table && Deps(c.table, s) <= cone && s.Type() != TTristate
  }

  lemma {:induction false} SolutionsAgreeOnCone(c: Config, order: seq<Symbol>, cone: set<Symbol>,
                                                user: map<Symbol, UserValue>, m: Tristate, env: Env,
                                                user': map<Symbol, UserValue>, m': Tristate, env': Env)
    requires WellFormed(c) && Topological(c.table, order) && Elements(order) == c.table.Keys && ModulesCone(c, cone)
    requires Solution(c, user, m, env) && Solution(c, user', m', env')
    requires forall s :: s in cone ==> UserOf(user, s) == UserOf(user', s)
    ensures forall s :: s in cone ==> s in env && s in env' && env[s] == env'[s]
  {
    forall s | s in cone
      ensures s in c.table && Deps(c.table, s) <= cone && SameEquation(user, m, user', m', s)
    {
      assert InCone(c, cone, s);
    }
    SolutionsAgree(c, order, cone, user, m, env, user', m', env');
  }

  /** If the modules symbol depends on no tristate, there is exactly one settled solution. */
  lemma {:induction false} SettledExists(c: Config, user: map<Symbol, UserValue>, order: seq<Symbol>, cone: set<Symbol>)
    returns (m: Tristate, env: Env)
    requires WellFormed(c) && Topological(c.table, order) && Elements(order) == c.table.Keys && ModulesCone(c, cone)
    ensures Settled(c, user, m, env)
  {
    var env0 := Solve(c, user, NO, order);
    m := env0[c.modules].tri;
    env := Solve(c, user, m, order);
    SolutionsAgreeOnCone(c, order, cone, user, NO, env0, user, m, env);
  }

  lemma {:induction false} SettledUnique(c: Config, user: map<Symbol, UserValue>, order: seq<Symbol>, cone: set<Symbol>,
                                         m: Tristate, env: Env, m': Tristate, env': Env)
    requires WellFormed(c) && Topological(c.table, order) && Elements(order) == c.table.Keys && ModulesCone(c, cone)
    requires Settled(c, user, m, env) && Settled(c, user, m', env')
    ensures m == m' && env == env'
  {
    SolutionsAgreeOnCone(c, order, cone, user, m, env, user, m', env');
    SolutionUnique(c, order, user, m, env, env');
  }

  // ----- what every solution has -----

  ghost predicate LiteralsDistinct(c: Config) {
    && (forall j: nat, k: nat :: c.literal(j) == c.literal(k) ==> j == k)
    && (forall k: nat :: c.literal(k) != "y" && c.literal(k) != "m" && c.literal(k) != "n")
  }

  /** A boolean, or a tristate without modules, is never `m`; and no symbol is below what selects it. */
  lemma SolutionBounds(c: Config, user: map<Symbol, UserValue>, m: Tristate, env: Env, s: Symbol)
    requires Solution(c, user, m, env) && s in env && s.Logical()
    ensures EffectiveType(s, m) == TBoolean ==> env[s].tri != MOD && env[s].visible != MOD && env[s].rev != MOD
    ensures env[s].tri >= env[s].rev
  {
    assert Satisfied(c, user, m, s, env);
  }

  // The equations of symbols without a type say nothing about others.
  lemma UntypedSolution(c: Config, user: map<Symbol, UserValue>, m: Tristate, env: Env, s: Symbol)
    requires Solution(c, user, m, env) && s in env && !Typed(s)
    ensures s in c.table && env[s] == if s.Const() then ConstFields(c, s) else NoFields(c.table[s].name)
  {
    assert Satisfied(c, user, m, s, env);
  }

  lemma TypedSolution(c: Config, user: map<Symbol, UserValue>, m: Tristate, env: Env, s: Symbol)
    requires Solution(c, user, m, env) && s in env && Typed(s)
    ensures s in c.table
    ensures var i := InputsOf(c, c.table[s], env);
            env[s] == if s.Logical() then LogicalFields(s, m, UserOf(user, s), i)
                      else TextFields(s, m, UserOf(user, s), i)
  {
    assert Satisfied(c, user, m, s, env);
  }

  /** Every solution gives a well-typed valuation: what is proved of expressions in those holds here. */
  lemma {:induction false} SolutionIsWellTyped(c: Config, user: map<Symbol, UserValue>, m: Tristate, env: Env)
    requires Solution(c, user, m, env) && LiteralsDistinct(c)
    ensures WellTyped(ValuationOf(c, env))
  {
    var v := ValuationOf(c, env);
    forall s: Symbol
      ensures s.Const() ==> Lookup(c, env, s) == ConstFields(c, s)
      ensures s.Type() == TBoolean ==> v.tri(s) != MOD
    {
      if s in env {
        assert Satisfied(c, user, m, s, env);
        if s.Type() == TBoolean {
          SolutionBounds(c, user, m, env, s);
        }
      }
    }
    forall s: Symbol, t: Symbol | s.Const() && t.Const() && s != t
      ensures v.str(s) != v.str(t)
    {
      assert Lookup(c, env, s) == ConstFields(c, s) && Lookup(c, env, t) == ConstFields(c, t);
    }
  }

  // ----- what the user sets is what comes out -----

  /** The values that a symbol with these fields lets the user set. */
  predicate WithinRange(f: Fields, s: Symbol, m: Tristate, val: Tristate) {
    && f.visible != NO
    && s.Logical()
    && !(EffectiveType(s, m) == TBoolean && val == MOD)
    && f.rev < f.visible
    && f.rev <= val <= f.visible
  }

  // The part of an order before a symbol.
  lemma {:induction false} OrderBefore(t: Table, order: seq<Symbol>, s: Symbol) returns (before: seq<Symbol>)
    requires Topological(t, order) && s in Elements(order)
    ensures Topological(t, before) && s in t && Deps(t, s) <= Elements(before) && s !in Elements(before)
  {
    var n := |order| - 1;
    if order[n] == s {
      before := order[..n];
    } else {
      before := OrderBefore(t, order[..n], s);
    }
  }

  /** A value within range, set by the user, is the value of the symbol in the settled solution that
      follows; and unless the modules symbol depends on it, that one stays as it is. */
  lemma {:induction false} AcceptedValueComesOut(c: Config, order: seq<Symbol>, cone: set<Symbol>,
                                                 s: Symbol, val: Tristate,
                                                 user: map<Symbol, UserValue>, m: Tristate, env: Env,
                                                 user': map<Symbol, UserValue>, m': Tristate, env': Env)
    requires WellFormed(c) && Topological(c.table, order) && Elements(order) == c.table.Keys && ModulesCone(c, cone)
    requires Settled(c, user, m, env) && Settled(c, user', m', env')
    requires s in env && WithinRange(env[s], s, m, val)
    requires s in user' && user'[s].tri == val && forall x :: x != s ==> UserOf(user, x) == UserOf(user', x)
    ensures s !in cone ==> m' == m
    ensures s in env' && env'[s].tri == val
    ensures env'[s].visible == env[s].visible && env'[s].rev == env[s].rev
  {
    if s !in cone {
      SolutionsAgreeOnCone(c, order, cone, user, m, env, user', m', env');
    } else {
      assert InCone(c, cone, s);
    }
    DependenciesAgree(c, order, cone, s, user, m, env, user', m', env');
    assert WellDeclared(c, s);
    InputsFrame(c, s, env, env');
    assert Satisfied(c, user, m, s, env) && Satisfied(c, user', m', s, env');
    ModulesOnlyForTristate(c, UserOf(user', s), m, m', s, InputsOf(c, c.table[s], env));
    ValueWithinRangeHolds(s, m, val, UserOf(user, s), user'[s], InputsOf(c, c.table[s], env));
  }

  // What a symbol depends on stays as it was when only the symbol is set.
  lemma {:induction false} DependenciesAgree(c: Config, order: seq<Symbol>, cone: set<Symbol>, s: Symbol,
                                             user: map<Symbol, UserValue>, m: Tristate, env: Env,
                                             user': map<Symbol, UserValue>, m': Tristate, env': Env)
    requires WellFormed(c) && Topological(c.table, order) && Elements(order) == c.table.Keys && ModulesCone(c, cone)
    requires Solution(c, user, m, env) && Solution(c, user', m', env') && s in c.table && (s !in cone ==> m' == m)
    requires forall x :: x != s ==> UserOf(user, x) == UserOf(user', x)
    ensures AgreeOn(c, env, env', Deps(c.table, s))
  {
    var before := OrderBefore(c.table, order, s);
    var among := if s in cone then Elements(before) * cone else Elements(before);
    forall x | x in among
      ensures x in c.table && Deps(c.table, x) <= among && SameEquation(user, m, user', m', x)
    {
      DependenciesInside(c.table, before, x);
      assert x in cone ==> InCone(c, cone, x);
    }
    SolutionsAgree(c, before, among, user, m, env, user', m', env');
    assert s in cone ==> InCone(c, cone, s);
  }

  lemma ValueWithinRangeHolds(s: Symbol, m: Tristate, val: Tristate, u: Option<UserValue>, u': UserValue, i: Inputs)
    requires u'.tri == val && WithinRange(LogicalFields(s, m, u, i), s, m, val)
    ensures var f, f' := LogicalFields(s, m, u, i), LogicalFields(s, m, Some(u'), i);
            f'.tri == val && f'.visible == f.visible && f'.rev == f.rev
  {}
}
