/**
 What a solution of the equations says of one symbol, case by case: how far it is visible, what the user's
 value, a default and a select make of it, and which values the user may set.
 */
module SymbolOutcomes {
  import opened Wrappers
  import opened Expressions
  import opened SymbolTable
  import opened SymbolEquations

  // ----- prompts and defaults -----

  function Condition(p: Property, v: Valuation): Tristate {
    OptValue(p.visible, YES, v)
  }

  /** The value is that of a prompt, and no prompt is further on; it is `n` if there is none. */
  ghost predicate BestPrompt(ps: seq<Property>, v: Valuation, t: Tristate) {
    && (forall i :: 0 <= i < |ps| && ps[i].hasText ==> Condition(ps[i], v) <= t)
    && (t == NO || exists i :: 0 <= i < |ps| && ps[i].hasText && Condition(ps[i], v) == t)
  }

  lemma {:induction false} PromptsAreBest(ps: seq<Property>, v: Valuation)
    ensures BestPrompt(ps, v, PromptsValue(ps, v))
  {
    if ps != [] {
      var n := |ps| - 1;
      var t := PromptsValue(ps[..n], v);
      PromptsAreBest(ps[..n], v);
      if t != NO {
        var i :| 0 <= i < n && ps[..n][i].hasText && Condition(ps[..n][i], v) == t;
        assert ps[i].hasText && Condition(ps[i], v) == t;
      }
      forall i | 0 <= i < |ps| && ps[i].hasText
        ensures Condition(ps[i], v) <= PromptsValue(ps, v)
      {
        if i < n {
          assert ps[..n][i] == ps[i];
        }
      }
    }
  }

  /** The default at `k` holds, and none before it does. */
  predicate ActiveDefault(ps: seq<Property>, v: Valuation, k: nat) {
    && k < |ps| && ps[k].kind == PDefault && Condition(ps[k], v) != NO
    && forall j :: 0 <= j < k && ps[j].kind == PDefault ==> Condition(ps[j], v) == NO
  }

  predicate NoDefault(ps: seq<Property>, v: Valuation) {
    forall j :: 0 <= j < |ps| && ps[j].kind == PDefault ==> Condition(ps[j], v) == NO
  }

  lemma {:induction false} ActiveIsFirst(ps: seq<Property>, v: Valuation, k: nat)
    requires ActiveDefault(ps, v, k)
    ensures FirstDefault(ps, v) == Some(ps[k])
    decreases |ps|
  {
    if k > 0 {
      ActiveIsFirst(ps[1..], v, k - 1);
    }
  }

  lemma {:induction false} FirstIsActive(ps: seq<Property>, v: Valuation)
    ensures FirstDefault(ps, v).None? ==> NoDefault(ps, v)
    ensures FirstDefault(ps, v).Some? ==> exists k: nat :: ActiveDefault(ps, v, k)
    decreases |ps|
  {
    if ps != [] {
      FirstIsActive(ps[1..], v);
      if ps[0].kind == PDefault && Condition(ps[0], v) != NO {
        assert ActiveDefault(ps, v, 0);
      } else if FirstDefault(ps, v).Some? {
        var k: nat :| ActiveDefault(ps[1..], v, k);
        assert ps[k + 1] == ps[1..][k];
        assert forall j :: 0 < j < k + 1 ==> ps[j] == ps[1..][j - 1];
        assert ActiveDefault(ps, v, k + 1);
      }
    }
  }

  lemma NoneIsFirst(ps: seq<Property>, v: Valuation)
    requires NoDefault(ps, v)
    ensures FirstDefault(ps, v).None?
  {
    FirstIsActive(ps, v);
  }

  // ----- one symbol in a solution -----

  // Symbols that cannot be `m` are `y` instead.
  function Raised(s: Symbol, m: Tristate, t: Tristate): Tristate {
    if t == MOD && (s.Type() != TTristate || m == NO) then YES else t
  }

  /** A symbol is visible as far as its best prompt, and selected as far as its reverse dependency says. */
  lemma VisibleIs(c: Config, user: map<Symbol, UserValue>, m: Tristate, env: Env, s: Symbol, t: Tristate)
    requires Solution(c, user, m, env) && s in env && Typed(s)
    requires s in c.table && BestPrompt(c.table[s].props, ValuationOf(c, env), t)
    ensures env[s].visible == Raised(s, m, t)
    ensures var rev := OptValue(c.table[s].revDep, NO, ValuationOf(c, env));
            env[s].rev == if s.Logical() then Raised(s, m, rev) else rev
    ensures if s.Logical() then env[s].val == "n" else env[s].tri == NO
  {
    TypedSolution(c, user, m, env, s);
    PromptsAreBest(c.table[s].props, ValuationOf(c, env));
  }

  /** A symbol without a type is worth nothing and stands for its name; constants are worth what they say. None
      of them is visible, selected or written. */
  lemma UntypedIs(c: Config, user: map<Symbol, UserValue>, m: Tristate, env: Env, s: Symbol)
    requires Solution(c, user, m, env) && s in env && !Typed(s)
    ensures s in c.table && env[s].visible == NO && env[s].rev == NO && !env[s].write
    ensures env[s].tri == if s == SymYes then YES else if s == SymMod then MOD else NO
    ensures env[s].val == match s
                          case SymYes => "y"
                          case SymMod => "m"
                          case SymNo => "n"
                          case Literal(k) => c.literal(k)
                          case Entry(_, _) => c.table[s].name
  {
    UntypedSolution(c, user, m, env, s);
  }

  /** A visible symbol that the user has set: the user's value, limited by the visibility, and at least what
      others select; or the user's text. */
  lemma UserValueIs(c: Config, user: map<Symbol, UserValue>, m: Tristate, env: Env, s: Symbol)
    requires Solution(c, user, m, env) && s in env && Typed(s) && env[s].visible != NO && s in user
    ensures s.Logical() ==>
              env[s].tri == Raised(s, m, TriOr(TriAnd(user[s].tri, env[s].visible), env[s].rev))
    ensures !s.Logical() ==> env[s].val == user[s].val
    ensures env[s].write
  {
    TypedSolution(c, user, m, env, s);
  }

  /** Otherwise the first default that holds, limited by its condition, and at least what others select; or
      the text of the symbol that the default names. */
  lemma DefaultIs(c: Config, user: map<Symbol, UserValue>, m: Tristate, env: Env, s: Symbol, k: nat)
    requires Solution(c, user, m, env) && s in env && Typed(s) && (env[s].visible == NO || s !in user)
    requires s in c.table && ActiveDefault(c.table[s].props, ValuationOf(c, env), k)
    ensures var v, p := ValuationOf(c, env), c.table[s].props[k];
            if s.Logical() then
              && env[s].tri == Raised(s, m, TriOr(TriAnd(OptValue(p.value, YES, v), Condition(p, v)), env[s].rev))
              && env[s].write
            else if p.value.Some? && p.value.value.Sym? then
              env[s].val == Lookup(c, env, p.value.value.sym).val && env[s].write
            else
              env[s].val == "" && env[s].write == (env[s].visible != NO)
  {
    TypedSolution(c, user, m, env, s);
    ActiveIsFirst(c.table[s].props, ValuationOf(c, env), k);
  }

  /** With no default that holds, only what others select; or no text. */
  lemma NoDefaultIs(c: Config, user: map<Symbol, UserValue>, m: Tristate, env: Env, s: Symbol)
    requires Solution(c, user, m, env) && s in env && Typed(s) && (env[s].visible == NO || s !in user)
    requires s in c.table && NoDefault(c.table[s].props, ValuationOf(c, env))
    ensures s.Logical() ==> env[s].tri == env[s].rev && env[s].write == (env[s].visible != NO || env[s].rev != NO)
    ensures !s.Logical() ==> env[s].val == "" && env[s].write == (env[s].visible != NO)
  {
    TypedSolution(c, user, m, env, s);
    NoneIsFirst(c.table[s].props, ValuationOf(c, env));
  }

  // ----- the values that the user may set -----

  /** Within range are exactly the values that some setting brings about, if the setting matters at all. */
  lemma RangeIsExact(s: Symbol, m: Tristate, val: Tristate, u: Option<UserValue>, i: Inputs)
    requires s.Logical()
    ensures var f := LogicalFields(s, m, u, i);
            WithinRange(f, s, m, val) <==>
            f.rev < f.visible && exists w: Tristate :: LogicalFields(s, m, Some(UserValue(w, "")), i).tri == val
  {
    var f := LogicalFields(s, m, u, i);
    if WithinRange(f, s, m, val) {
      assert LogicalFields(s, m, Some(UserValue(val, "")), i).tri == val;
    }
  }

  // The user has set `s` to `w`.
  function Setting(user: map<Symbol, UserValue>, s: Symbol, w: Tristate): map<Symbol, UserValue> {
    user[s := UserValue(w, "")]
  }

  ghost predicate Yields(c: Config, user: map<Symbol, UserValue>, m: Tristate, env: Env, s: Symbol, val: Tristate) {
    Settled(c, user, m, env) && s in env && env[s].tri == val
  }

  lemma {:induction false} YieldedIsWithin(c: Config, order: seq<Symbol>, cone: set<Symbol>, s: Symbol, val: Tristate,
                                           user: map<Symbol, UserValue>, m: Tristate, env: Env,
                                           w: Tristate, m': Tristate, env': Env)
    requires WellFormed(c) && Topological(c.table, order) && Elements(order) == c.table.Keys && ModulesCone(c, cone)
    requires Settled(c, user, m, env) && Yields(c, Setting(user, s, w), m', env', s, val)
    requires s in env && s.Logical() && env[s].rev < env[s].visible
    ensures WithinRange(env[s], s, m, val)
  {
    var user' := Setting(user, s, w);
    if s !in cone {
      SolutionsAgreeOnCone(c, order, cone, user, m, env, user', m', env');
    } else {
      assert InCone(c, cone, s);
    }
    DependenciesAgree(c, order, cone, s, user, m, env, user', m', env');
    assert WellDeclared(c, s);
    InputsFrame(c, s, env, env');
    var i := InputsOf(c, c.table[s], env);
    TypedSolution(c, user, m, env, s);
    TypedSolution(c, user', m', env', s);
    ModulesOnlyForTristate(c, UserOf(user', s), m, m', s, i);
    assert LogicalFields(s, m, Some(UserValue(w, "")), i).tri == val;
    RangeIsExact(s, m, val, UserOf(user, s), i);
  }

  /** The values that the user may set are exactly those that some setting yields when everything is
      calculated anew, for a symbol whose setting matters. */
  lemma {:induction false} SettableExactly(c: Config, order: seq<Symbol>, cone: set<Symbol>, s: Symbol, val: Tristate,
                                           user: map<Symbol, UserValue>, m: Tristate, env: Env)
    requires WellFormed(c) && Topological(c.table, order) && Elements(order) == c.table.Keys && ModulesCone(c, cone)
    requires Settled(c, user, m, env) && s in env && s.Logical()
    ensures WithinRange(env[s], s, m, val) <==>
            && env[s].rev < env[s].visible
            && exists w: Tristate, m', env' :: Yields(c, Setting(user, s, w), m', env', s, val)
  {
    if WithinRange(env[s], s, m, val) {
      var user' := Setting(user, s, val);
      var m', env' := SettledExists(c, user', order, cone);
      AcceptedValueComesOut(c, order, cone, s, val, user, m, env, user', m', env');
      assert Yields(c, Setting(user, s, val), m', env', s, val);
    } else if env[s].rev < env[s].visible {
      forall w: Tristate, m', env' | Yields(c, Setting(user, s, w), m', env', s, val)
        ensures false
      {
        YieldedIsWithin(c, order, cone, s, val, user, m, env, w, m', env');
      }
    }
  }
}
