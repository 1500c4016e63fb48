/**
 Calculating symbol values on demand: every symbol is calculated once, when first asked for, and its
 fields are kept until all marks are cleared.
 */
module SymbolValues {
  import opened Expressions
  import opened Wrappers
  import opened SymbolTable
  import opened SymbolEquations
  import DependencyCheck

  // ----- what the calculation aims at -----

  /** The settled solution, with the place of every symbol in an order that respects dependencies, and
      the symbols that the modules symbol depends on. */
  datatype Goal = Goal(place: map<Symbol, nat>, size: nat, cone: set<Symbol>, m: Tristate, sol: Env)

  // The symbol comes before a bound in the order.
  ghost predicate Before(g: Goal, s: Symbol, bound: nat) {
    s in g.place && g.place[s] < bound
  }

  ghost predicate Earlier(t: Table, place: map<Symbol, nat>, s: Symbol, d: Symbol) {
    s in place && d in place && place[d] < place[s]
  }

  ghost predicate Apart(place: map<Symbol, nat>, s: Symbol, x: Symbol) {
    s in place && x in place && place[s] == place[x] ==> s == x
  }

  ghost predicate Placed(t: Table, g: Goal) {
    var place := g.place;
    && place.Keys == t.Keys
    && (forall s {:trigger Before(g, s, g.size)} :: s in place ==> Before(g, s, g.size))
    && (forall s, d {:trigger Earlier(t, place, s, d)} :: s in t && d in Deps(t, s) ==> Earlier(t, place, s, d))
    && (forall s, x {:trigger Apart(place, s, x)} :: Apart(place, s, x))
  }

  ghost predicate GoalFor(c: Config, user: map<Symbol, UserValue>, g: Goal) {
    && WellFormed(c) && AllDirectlySeen(c.table)
    && Placed(c.table, g)
    && ModulesCone(c, g.cone)
    && Settled(c, user, g.m, g.sol)
  }

  // ----- the state of the calculation -----

  /** The symbols marked valid, the fields of all symbols, the cached value of the modules symbol, and
      how often each symbol was calculated since the marks were cleared. */
  datatype State = State(valid: set<Symbol>, fields: Env, modulesVal: Tristate, computed: multiset<Symbol>)

  /** What the fields of a symbol have at all times: a boolean is never `m`, constants and symbols without
      a type have no visibility, and built-in constants are always valid. */
  ghost predicate FieldsOk(c: Config, st: State, s: Symbol)
    requires s in st.fields
  {
    && (s.Type() == TBoolean ==> st.fields[s].tri != MOD)
    && (!Typed(s) ==> st.fields[s].visible == NO && st.fields[s].rev == NO && !st.fields[s].write)
    && (s.BuiltIn() ==> s in st.valid && st.fields[s] == ConstFields(c, s))
  }

  /** Everything valid before `bound` in the order has its final fields. */
  ghost predicate Inv(c: Config, g: Goal, st: State, bound: nat) {
    && st.fields.Keys == c.table.Keys && st.valid <= c.table.Keys
    && (forall s {:trigger Before(g, s, bound)} :: s in st.valid && Before(g, s, bound) ==>
          s in st.fields && s in g.sol && st.fields[s] == g.sol[s])
    && (forall s {:trigger FieldsOk(c, st, s)} :: s in st.fields ==> FieldsOk(c, st, s))
    && (Before(g, c.modules, bound) ==> c.modules in st.fields && st.modulesVal == st.fields[c.modules].tri)
    && st.computed == multiset(st.valid - BuiltIns(c.table))
  }

  // Nothing from `bound` on has changed.
  ghost predicate SameFrom(c: Config, g: Goal, st: State, st': State, bound: nat) {
    && (forall s {:trigger Before(g, s, bound)} :: s in st.fields && !Before(g, s, bound) ==>
          s in st'.fields && st'.fields[s] == st.fields[s] && (s in st'.valid <==> s in st.valid))
    && (!Before(g, c.modules, bound) ==> st'.modulesVal == st.modulesVal)
  }

  // The modules symbol has its final value already.
  ghost predicate Ready(c: Config, g: Goal, st: State) {
    && c.modules in st.valid && c.modules in st.fields && c.modules in g.sol
    && st.fields[c.modules] == g.sol[c.modules] && st.modulesVal == g.m
  }

  /** What every part of the calculation below `bound` does. */
  ghost predicate Step(c: Config, g: Goal, st: State, st': State, bound: nat) {
    && Inv(c, g, st', bound) && SameFrom(c, g, st, st', bound)
    && st.valid <= st'.valid && (Ready(c, g, st) ==> Ready(c, g, st'))
  }

  lemma StepRefl(c: Config, g: Goal, st: State, bound: nat)
    requires Inv(c, g, st, bound)
    ensures Step(c, g, st, st, bound)
  {}

  lemma StepTrans(c: Config, g: Goal, st: State, st': State, st'': State, bound: nat)
    requires Step(c, g, st, st', bound) && Step(c, g, st', st'', bound)
    requires st.fields.Keys == c.table.Keys
    ensures Step(c, g, st, st'', bound)
  {}

  // A part of the calculation below a lower bound.
  lemma StepWeaken(c: Config, g: Goal, st: State, st': State, low: nat, bound: nat)
    requires Inv(c, g, st, bound) && Step(c, g, st, st', low) && low <= bound
    requires c.modules in c.table
    ensures Step(c, g, st, st', bound)
  {
    forall s | s in st'.valid && Before(g, s, bound)
      ensures s in st'.fields && s in g.sol && st'.fields[s] == g.sol[s]
    {
      if !Before(g, s, low) {
        assert s in st.valid;
      }
    }
    assert !Before(g, c.modules, low) ==> st'.fields[c.modules] == st.fields[c.modules];
    forall s | s in st.fields && !Before(g, s, bound)
      ensures s in st'.fields && st'.fields[s] == st.fields[s] && (s in st'.valid <==> s in st.valid)
    {
      assert !Before(g, s, low);
    }
  }

  // A symbol that may be asked for: a constant, or one that comes before the bound.
  ghost predicate Usable(c: Config, g: Goal, d: Symbol, bound: nat) {
    d in c.table && (d.BuiltIn() || Before(g, d, bound))
  }

  // Their values do not wait for the modules symbol.
  ghost predicate Timely(c: Config, g: Goal, st: State, deps: set<Symbol>) {
    Ready(c, g, st) || deps <= g.cone + BuiltIns(c.table)
  }

  // Constants are valid at all times.
  lemma ConstantIsThere(c: Config, user: map<Symbol, UserValue>, g: Goal, st: State, d: Symbol, bound: nat)
    requires GoalFor(c, user, g) && Inv(c, g, st, bound) && d in c.table && d.BuiltIn()
    ensures d in st.valid && d in st.fields && d in g.sol && st.fields[d] == g.sol[d]
  {
    assert FieldsOk(c, st, d);
    UntypedSolution(c, user, g.m, g.sol, d);
  }

  // ----- beginning and ending the calculation of one symbol -----

  ghost predicate IsAt(g: Goal, s: Symbol, p: nat) {
    s in g.place && g.place[s] == p
  }

  // Between the bounds `p` and `after` lies exactly the symbol `s`.
  ghost predicate Between(g: Goal, s: Symbol, p: nat, after: nat) {
    IsAt(g, s, p) && after == p + 1
  }

  ghost function Around(g: Goal, s: Symbol, bound: nat): (r: (nat, nat))
    requires Before(g, s, bound)
    ensures Between(g, s, r.0, r.1) && r.1 <= bound
  {
    (g.place[s], g.place[s] + 1)
  }

  lemma OneMore(t: Table, g: Goal, s: Symbol, p: nat, after: nat, x: Symbol)
    requires Placed(t, g) && Between(g, s, p, after)
    ensures Before(g, x, after) <==> x == s || Before(g, x, p)
  {
    assert Apart(g.place, s, x);
  }

  function Mark(st: State, s: Symbol): State {
    st.(valid := st.valid + {s}, computed := st.computed + multiset{s})
  }

  /** While `s` is calculated: only `s` itself and symbols before it have changed. */
  ghost predicate During(c: Config, g: Goal, st: State, st': State, s: Symbol, p: nat) {
    && Inv(c, g, st', p) && s in st'.valid && s in st'.fields
    && st.valid <= st'.valid
    && (Ready(c, g, st) && s != c.modules ==> Ready(c, g, st'))
    && (forall x {:trigger Before(g, x, p)} :: x in st.fields && x != s && !Before(g, x, p) ==>
          x in st'.fields && st'.fields[x] == st.fields[x] && (x in st'.valid <==> x in st.valid))
    && (!Before(g, c.modules, p) ==> st'.modulesVal == st.modulesVal)
  }

  lemma {:induction false} MarkDuring(c: Config, g: Goal, st: State, s: Symbol, p: nat, after: nat)
    requires s in c.table && s !in st.valid && Between(g, s, p, after) && Inv(c, g, st, after)
    ensures During(c, g, st, Mark(st, s), s, p) && Mark(st, s).fields[s] == st.fields[s] && !s.BuiltIn()
  {
    var st' := Mark(st, s);
    assert FieldsOk(c, st, s);
    forall x | Before(g, x, p)
      ensures Before(g, x, after) && x != s
    {}
    forall x | x in st'.fields
      ensures FieldsOk(c, st', x)
    {
      assert FieldsOk(c, st, x);
    }
    assert st'.valid - BuiltIns(c.table) == (st.valid - BuiltIns(c.table)) + {s};
  }

  // The symbol being calculated may be written to.
  lemma {:induction false} WriteDuring(c: Config, g: Goal, st: State, st': State, s: Symbol, p: nat, f: Fields)
    requires s in c.table && IsAt(g, s, p) && !s.BuiltIn()
    requires Typed(s) || (f.visible == NO && f.rev == NO && !f.write)
    requires s.Type() == TBoolean ==> f.tri != MOD
    requires During(c, g, st, st', s, p) && s !in st.valid
    ensures During(c, g, st, st'.(fields := st'.fields[s := f]), s, p)
  {
    var st'' := st'.(fields := st'.fields[s := f]);
    assert !Before(g, s, p);
    forall x | x in st''.fields
      ensures FieldsOk(c, st'', x)
    {
      assert FieldsOk(c, st', x);
    }
  }

  lemma {:induction false} EvalDuring(c: Config, g: Goal, st: State, st': State, st'': State, s: Symbol, p: nat)
    requires IsAt(g, s, p) && During(c, g, st, st', s, p) && Step(c, g, st', st'', p)
    requires st'.fields.Keys == c.table.Keys
    ensures During(c, g, st, st'', s, p) && st''.fields[s] == st'.fields[s]
  {
    assert !Before(g, s, p);
  }

  lemma {:induction false} FinishStep(c: Config, g: Goal, st: State, st': State, s: Symbol, p: nat, after: nat,
                                      modulesVal: Tristate)
    requires s in c.table && c.modules in c.table && Placed(c.table, g) && Between(g, s, p, after) && s !in st.valid
    requires Inv(c, g, st, after)
    requires During(c, g, st, st', s, p) && s in g.sol && st'.fields[s] == g.sol[s]
    requires modulesVal == if s == c.modules then st'.fields[s].tri else st'.modulesVal
    ensures Step(c, g, st, st'.(modulesVal := modulesVal), after)
  {
    var st'' := st'.(modulesVal := modulesVal);
    forall x {:trigger Before(g, x, after)} | true
      ensures Before(g, x, after) <==> x == s || Before(g, x, p)
    {
      OneMore(c.table, g, s, p, after, x);
    }
    forall x | x in st''.fields
      ensures FieldsOk(c, st'', x)
    {
      assert FieldsOk(c, st', x);
    }
  }

  // ----- the calculation -----

  class Symbols {
    const config: Config
    var user: map<Symbol, UserValue>
    var valid: set<Symbol>
    var fields: Env
    var modulesVal: Tristate
    ghost var computed: multiset<Symbol>

    ghost function View(): State
      reads this
    {
      State(valid, fields, modulesVal, computed)
    }

    /** What holds between any two operations: no boolean is `m`, constants are what they say, and the
        cached value of the modules symbol is the one of its field. */
    ghost predicate Coherent()
      reads this
    {
      && fields.Keys == config.table.Keys && valid <= config.table.Keys && config.modules in fields
      && (forall s {:trigger FieldsOk(config, View(), s)} :: s in fields ==> FieldsOk(config, View(), s))
      && modulesVal == fields[config.modules].tri
    }

    /** All valid symbols have the values of the settled solution, and the modules symbol is valid. */
    ghost predicate Current(g: Goal)
      reads this
    {
      GoalFor(config, user, g) && Inv(config, g, View(), g.size) && Ready(config, g, View())
    }

    // Before anything is calculated all fields are empty.
    constructor (config: Config, user: map<Symbol, UserValue>)
      requires config.modules in config.table && (config.modules.Entry? || config.modules == SymNo)
      ensures this.config == config && this.user == user && Coherent()
    {
      this.config := config;
      this.user := user;
      valid := BuiltIns(config.table);
      fields := map s | s in config.table :: if s.Const() then ConstFields(config, s) else NoFields("");
      modulesVal := NO;
      computed := multiset{};
    }

    /** Clearing all marks; the modules symbol is calculated again at once. */
    method ClearAllValid(ghost g: Goal)
      requires Coherent() && GoalFor(config, user, g)
      modifies this
      ensures user == old(user) && Coherent() && Current(g)
    {
      valid := BuiltIns(config.table);
      computed := multiset{};
      ClearedInv(config, user, g, old(View()));
      assert Before(g, config.modules, g.size);
      Demand(config.modules, g.size, g);
    }

    /** Asking for symbols in any order, any number of times, after a change: each one comes out with its
        value in the settled solution, and none is calculated more than once. */
    method Recalculate(requests: seq<Symbol>, ghost g: Goal)
      requires Coherent() && GoalFor(config, user, g) && (forall s :: s in requests ==> s in config.table)
      modifies this
      ensures user == old(user) && Coherent() && Current(g)
      ensures forall s :: s in requests ==> s in valid && s in fields && s in g.sol && fields[s] == g.sol[s]
      ensures forall s :: computed[s] <= 1
    {
      ClearAllValid(g);
      for i := 0 to |requests|
        invariant user == old(user) && Current(g)
        invariant forall s :: s in requests[..i] ==> s in valid
      {
        assert Before(g, requests[i], g.size);
        Demand(requests[i], g.size, g);
      }
      assert requests[..|requests|] == requests;
      assert Before(g, config.modules, g.size);
      forall s | s in requests
        ensures s in valid && s in fields && s in g.sol && fields[s] == g.sol[s]
      {
        assert Before(g, s, g.size);
      }
    }

    /** Setting a boolean or tristate symbol. A value is accepted if it is the present one or within the
        range of the symbol; then everything is calculated anew on demand. */
    method SetTristateValue(s: Symbol, val: Tristate, ghost g: Goal, ghost next: Goal) returns (ok: bool)
      requires Coherent() && Current(g) && s in valid && s.Logical()
      requires GoalFor(config, SetUser(user, s, val), next)
      modifies this
      ensures Coherent()
      ensures ok <==> g.sol[s].tri == val || WithinRange(g.sol[s], s, g.m, val)
      ensures !ok ==> user == old(user) && View() == old(View())
      ensures ok ==> user == SetUser(old(user), s, val)
      ensures ok && g.sol[s].tri != val ==> Current(next)
      ensures ok && g.sol[s].tri == val ==> View() == old(View())
    {
      assert Before(g, s, g.size);
      var oldval := fields[s].tri;
      if oldval != val && !WithinRange(fields[s], s, modulesVal, val) {
        return false;
      }
      user := SetUser(user, s, val);
      if oldval != val {
        ClearAllValid(next);
      }
      return true;
    }

    /** A new value accepted for a symbol is what the next calculation of the symbol yields. */
    method SetAndCalculate(s: Symbol, val: Tristate, ghost order: seq<Symbol>, ghost g: Goal, ghost next: Goal)
      returns (ok: bool)
      requires Coherent() && Current(g) && s in valid && s.Logical()
      requires Topological(config.table, order) && Elements(order) == config.table.Keys
      requires GoalFor(config, SetUser(user, s, val), next)
      modifies this
      ensures ok && g.sol[s].tri != val ==> Current(next) && s in valid && fields[s].tri == val
    {
      assert Before(g, s, g.size);
      ghost var before := user;
      var oldval := fields[s].tri;
      ok := SetTristateValue(s, val, g, next);
      if ok && oldval != val {
        AcceptedValueComesOut(config, order, g.cone, s, val, before, g.m, g.sol, user, next.m, next.sol);
        assert Before(next, s, next.size);
        Demand(s, next.size, next);
      }
    }

    // Conditions over `deps` can be evaluated.
    ghost predicate CanEval(g: Goal, deps: set<Symbol>, bound: nat)
      reads this
    {
      && GoalFor(config, user, g) && Inv(config, g, View(), bound)
      && (forall d {:trigger Usable(config, g, d, bound)} :: d in deps ==> Usable(config, g, d, bound))
      && Timely(config, g, View(), deps)
    }

    /** The value of a condition, with the symbols it names calculated on the way. */
    method EvalExpr(e: Expr, ghost bound: nat, ghost g: Goal) returns (r: Tristate)
      requires CanEval(g, ExprSymbols(e), bound)
      modifies this
      ensures user == old(user)
      ensures Step(config, g, old(View()), View(), bound)
      ensures r == Value(e, ValuationOf(config, g.sol))
      decreases bound, 3, e
    {
      StepRefl(config, g, View(), bound);
      match e
      case Or(a, b) =>
        var x := EvalExpr(a, bound, g);
        ghost var st := View();
        var y := EvalExpr(b, bound, g);
        StepTrans(config, g, old(View()), st, View(), bound);
        r := TriOr(x, y);
      case And(a, b) =>
        var x := EvalExpr(a, bound, g);
        ghost var st := View();
        var y := EvalExpr(b, bound, g);
        StepTrans(config, g, old(View()), st, View(), bound);
        r := TriAnd(x, y);
      case Not(x) =>
        var y := EvalExpr(x, bound, g);
        r := TriNot(y);
      case Equal(a, b) =>
        var same := SameText(a, b, bound, g);
        r := if same then YES else NO;
      case Unequal(a, b) =>
        var same := SameText(a, b, bound, g);
        r := if same then NO else YES;
      case Sym(s) =>
        Demand(s, bound, g);
        r := fields[s].tri;
    }

    // A symbol before `bound` is calculated.
    method Demand(s: Symbol, ghost bound: nat, ghost g: Goal)
      requires GoalFor(config, user, g) && Inv(config, g, View(), bound)
      requires Usable(config, g, s, bound) && Timely(config, g, View(), {s})
      modifies this
      ensures user == old(user)
      ensures Step(config, g, old(View()), View(), bound)
      ensures s in valid && s in fields && s in g.sol && fields[s] == g.sol[s]
      decreases bound, 1
    {
      if s.BuiltIn() {
        StepRefl(config, g, View(), bound);
        ConstantIsThere(config, user, g, View(), s, bound);
        return;
      }
      ghost var (p, after) := Around(g, s, bound);
      LowerBound(config, g, View(), after, bound);
      CalcValue(s, p, after, g);
      Demanded(config, g, old(View()), View(), s, p, after, bound);
    }

    method SameText(a: Symbol, b: Symbol, ghost bound: nat, ghost g: Goal) returns (same: bool)
      requires CanEval(g, {a, b}, bound)
      modifies this
      ensures user == old(user)
      ensures Step(config, g, old(View()), View(), bound)
      ensures same == (ValuationOf(config, g.sol).str(a) == ValuationOf(config, g.sol).str(b))
      decreases bound, 2
    {
      assert Usable(config, g, a, bound) && Usable(config, g, b, bound);
      Demand(a, bound, g);
      ghost var st := View();
      Demand(b, bound, g);
      StepTrans(config, g, old(View()), st, View(), bound);
      StillThere(config, user, g, st, View(), a, bound);
      var x := TextOf(a, g);
      var y := TextOf(b, g);
      same := x == y;
    }

    // The text of a calculated symbol. The modules symbol is valid whenever it is asked for here.
    method TextOf(s: Symbol, ghost g: Goal) returns (text: string)
      requires GoalFor(config, user, g) && s in fields && s in g.sol && fields[s] == g.sol[s]
      requires Timely(config, g, View(), {s})
      ensures text == Text(s, g.sol[s])
    {
      if s.Logical() {
        SolutionBounds(config, user, g.m, g.sol, s);
        assert s in g.cone ==> InCone(config, g.cone, s);
        if fields[s].tri == NO {
          text := "n";
        } else if fields[s].tri == MOD {
          text := if fields[config.modules].tri == NO then "n" else "m";
        } else {
          text := "y";
        }
      } else {
        text := fields[s].val;
      }
    }

    method EvalOpt(e: Option<Expr>, missing: Tristate, ghost bound: nat, ghost g: Goal) returns (r: Tristate)
      requires CanEval(g, OptSymbols(e), bound)
      modifies this
      ensures user == old(user)
      ensures Step(config, g, old(View()), View(), bound)
      ensures r == OptValue(e, missing, ValuationOf(config, g.sol))
      decreases bound, 4
    {
      if e.None? {
        StepRefl(config, g, View(), bound);
        r := missing;
      } else {
        r := EvalExpr(e.value, bound, g);
      }
    }

    /** The symbol `s` is being calculated, since the state `st`. */
    ghost predicate Calculating(g: Goal, st: State, s: Symbol, p: nat)
      reads this
    {
      && GoalFor(config, user, g) && s in config.table && !s.BuiltIn() && IsAt(g, s, p)
      && s !in st.valid && (Ready(config, g, st) || s in g.cone)
      && During(config, g, st, View(), s, p)
    }

    ghost predicate Calculated(g: Goal, s: Symbol)
      reads this
    {
      s in fields && s in g.sol && fields[s] == g.sol[s]
    }

    /** Calculating a symbol, unless it is valid. */
    method CalcValue(s: Symbol, ghost p: nat, ghost after: nat, ghost g: Goal)
      requires GoalFor(config, user, g) && s in config.table && Between(g, s, p, after)
      requires Inv(config, g, View(), after) && (Ready(config, g, View()) || s in g.cone)
      modifies this
      ensures user == old(user)
      ensures Step(config, g, old(View()), View(), after) && s in valid
      decreases after, 0
    {
      if s in valid {
        StepRefl(config, g, View(), after);
      } else {
        CalcFresh(s, p, after, g);
      }
    }

    method CalcFresh(s: Symbol, ghost p: nat, ghost after: nat, ghost g: Goal)
      requires GoalFor(config, user, g) && s in config.table && Between(g, s, p, after) && s !in valid
      requires Inv(config, g, View(), after) && (Ready(config, g, View()) || s in g.cone)
      modifies this
      ensures user == old(user)
      ensures Step(config, g, old(View()), View(), after) && s in valid
      decreases p, 10
    {
      MarkDuring(config, g, View(), s, p, after);
      var oldTri, oldVal := fields[s].tri, fields[s].val;
      valid := valid + {s};
      computed := computed + multiset{s};
      assert View() == Mark(old(View()), s);
      CalcFields(s, p, g, old(View()));
      ghost var st, m := View(), if s == config.modules then fields[s].tri else modulesVal;
      FinishStep(config, g, old(View()), st, s, p, after, m);
      if s == config.modules {
        CachedUntilNow(config, g, old(View()), st, p, after);
        if fields[s].tri != oldTri || fields[s].val != oldVal {
          modulesVal := fields[s].tri;
        }
      }
      assert View() == st.(modulesVal := m);
    }

    method CalcFields(s: Symbol, ghost p: nat, ghost g: Goal, ghost st: State)
      requires Calculating(g, st, s, p)
      modifies this
      ensures user == old(user)
      ensures Calculating(g, st, s, p) && Calculated(g, s)
      decreases p, 9
    {
      if Typed(s) {
        CalcTyped(s, p, g, st);
      } else {
        CalcUntyped(s, p, g, st);
      }
    }

    // Symbols without a type stand for their own name.
    method CalcUntyped(s: Symbol, ghost p: nat, ghost g: Goal, ghost st: State)
      requires Calculating(g, st, s, p) && !Typed(s)
      modifies this
      ensures user == old(user) && modulesVal == old(modulesVal)
      ensures Calculating(g, st, s, p) && Calculated(g, s)
      decreases p, 8
    {
      var f := fields[s].(tri := NO, val := if s.Literal? then config.literal(s.id) else config.table[s].name);
      assert FieldsOk(config, View(), s);
      UntypedSolution(config, user, g.m, g.sol, s);
      WriteDuring(config, g, st, View(), s, p, f);
      fields := fields[s := f];
    }

    // A symbol with a type: its visibility first, then its value or text.
    method CalcTyped(s: Symbol, ghost p: nat, ghost g: Goal, ghost st: State)
      requires Calculating(g, st, s, p) && Typed(s)
      modifies this
      ensures user == old(user)
      ensures Calculating(g, st, s, p) && Calculated(g, s)
      decreases p, 8
    {
      assert FieldsOk(config, View(), s);
      WriteField(s, fields[s].(write := false), p, g, st);
      CalcVisibility(s, p, g, st);
      WriteField(s, fields[s].(tri := NO, val := if s.Logical() then "n" else ""), p, g, st);
      if s.Logical() {
        CalcLogical(s, p, g, st);
      } else {
        CalcText(s, p, g, st);
      }
      TypedSolution(config, user, g.m, g.sol, s);
    }

    method WriteField(s: Symbol, f: Fields, ghost p: nat, ghost g: Goal, ghost st: State)
      requires Calculating(g, st, s, p) && Typed(s) && (s.Type() == TBoolean ==> f.tri != MOD)
      modifies this
      ensures user == old(user) && modulesVal == old(modulesVal)
      ensures Calculating(g, st, s, p) && fields[s] == f
      decreases p, 0
    {
      WriteDuring(config, g, st, View(), s, p, f);
      fields := fields[s := f];
    }

    // The visibility of `s` and the level at which it is selected.
    method CalcVisibility(s: Symbol, ghost p: nat, ghost g: Goal, ghost st: State)
      requires Calculating(g, st, s, p) && Typed(s)
      modifies this
      ensures user == old(user)
      ensures Calculating(g, st, s, p)
      ensures var i := InputsOf(config, config.table[s], g.sol);
              fields[s] == old(fields)[s].(visible := VisibleFrom(s, g.m, i.prompts), rev := RevFrom(s, g.m, i.rev))
      decreases p, 7, 1
    {
      assert FieldsOk(config, View(), s);
      var t := EvalPrompts(s, p, g, st);
      EffectiveTypeNow(config, user, g, st, View(), s, p);
      if t == MOD && (s.Type() != TTristate || modulesVal == NO) {
        t := YES;
      }
      WriteField(s, fields[s].(visible := t), p, g, st);
      CalcSelected(s, p, g, st);
    }

    // The conditions of the menu entries are worked out too; only a warning needs them.
    method CalcSelected(s: Symbol, ghost p: nat, ghost g: Goal, ghost st: State)
      requires Calculating(g, st, s, p) && Typed(s)
      modifies this
      ensures user == old(user)
      ensures Calculating(g, st, s, p)
      ensures fields[s] == old(fields)[s].(rev := RevFrom(s, g.m, InputsOf(config, config.table[s], g.sol).rev))
      decreases p, 7, 0
    {
      var d := config.table[s];
      assert FieldsOk(config, View(), s);
      assert DirectlySeen(config.table, s);
      var unused := EvalFor(s, d.dirDep, YES, p, g, st);
      var t := EvalFor(s, d.revDep, NO, p, g, st);
      EffectiveTypeNow(config, user, g, st, View(), s, p);
      if t == MOD && EffectiveType(s, modulesVal) == TBoolean {
        t := YES;
      }
      WriteField(s, fields[s].(rev := t), p, g, st);
    }

    // The value of a condition that belongs to `s`.
    method EvalFor(s: Symbol, e: Option<Expr>, missing: Tristate, ghost p: nat, ghost g: Goal, ghost st: State)
      returns (r: Tristate)
      requires Calculating(g, st, s, p) && OptSymbols(e) <= Deps(config.table, s) + BuiltIns(config.table)
      modifies this
      ensures user == old(user)
      ensures Calculating(g, st, s, p) && fields[s] == old(fields)[s]
      ensures r == OptValue(e, missing, ValuationOf(config, g.sol))
      decreases p, 5
    {
      DependenciesReady(config, user, g, st, View(), s, p, OptSymbols(e));
      r := EvalOpt(e, missing, p, g);
      EvalDuring(config, g, st, old(View()), View(), s, p);
    }

    // The best of the prompts of `s`.
    method EvalPrompts(s: Symbol, ghost p: nat, ghost g: Goal, ghost st: State) returns (t: Tristate)
      requires Calculating(g, st, s, p)
      modifies this
      ensures user == old(user)
      ensures Calculating(g, st, s, p) && fields[s] == old(fields)[s]
      ensures t == PromptsValue(config.table[s].props, ValuationOf(config, g.sol))
      decreases p, 6
    {
      t := NO;
      var props, i := config.table[s].props, 0;
      ghost var v := ValuationOf(config, g.sol);
      assert WellDeclared(config, s);
      while i < |props|
        invariant i <= |props|
        invariant user == old(user) && Calculating(g, st, s, p) && fields[s] == old(fields)[s]
        invariant t == PromptsValue(props[..i], v)
      {
        t := EvalPrompt(s, i, t, p, g, st);
        i := i + 1;
      }
      assert props[..i] == props;
    }

    method EvalPrompt(s: Symbol, i: nat, t: Tristate, ghost p: nat, ghost g: Goal, ghost st: State)
      returns (next: Tristate)
      requires Calculating(g, st, s, p) && i < |config.table[s].props|
      requires t == PromptsValue(config.table[s].props[..i], ValuationOf(config, g.sol))
      modifies this
      ensures user == old(user)
      ensures Calculating(g, st, s, p) && fields[s] == old(fields)[s]
      ensures next == PromptsValue(config.table[s].props[..i + 1], ValuationOf(config, g.sol))
      decreases p, 6, 0
    {
      var props := config.table[s].props;
      assert WellDeclared(config, s);
      PromptStep(props, i, ValuationOf(config, g.sol));
      next := t;
      if props[i].hasText {
        var r := EvalFor(s, props[i].visible, YES, p, g, st);
        next := TriOr(t, r);
      }
    }

    // The first default whose condition holds, and the value of that condition.
    method FindDefault(s: Symbol, ghost p: nat, ghost g: Goal, ghost st: State)
      returns (default: Option<Property>, limit: Tristate)
      requires Calculating(g, st, s, p)
      modifies this
      ensures user == old(user)
      ensures Calculating(g, st, s, p) && fields[s] == old(fields)[s]
      ensures default == FirstDefault(config.table[s].props, ValuationOf(config, g.sol))
      ensures default.Some? ==>
                && limit == OptValue(default.value.visible, YES, ValuationOf(config, g.sol))
                && OptSymbols(default.value.value) <= Deps(config.table, s)
      decreases p, 6
    {
      var props, i := config.table[s].props, 0;
      ghost var v := ValuationOf(config, g.sol);
      while i < |props|
        invariant i <= |props|
        invariant user == old(user) && Calculating(g, st, s, p) && fields[s] == old(fields)[s]
        invariant FirstDefault(props, v) == FirstDefault(props[i..], v)
      {
        DefaultStep(props, i, v);
        if props[i].kind == PDefault {
          limit := EvalFor(s, props[i].visible, YES, p, g, st);
          if limit != NO {
            return Some(props[i]), limit;
          }
        }
        i := i + 1;
      }
      default, limit := None, NO;
    }

    // The value of a boolean or tristate symbol.
    method CalcLogical(s: Symbol, ghost p: nat, ghost g: Goal, ghost st: State)
      requires Calculating(g, st, s, p) && s.Logical()
      requires var i := InputsOf(config, config.table[s], g.sol);
               fields[s] == Fields(NO, "n", VisibleFrom(s, g.m, i.prompts), RevFrom(s, g.m, i.rev), false)
      modifies this
      ensures user == old(user)
      ensures Calculating(g, st, s, p)
      ensures fields[s] == LogicalFields(s, g.m, UserOf(user, s), InputsOf(config, config.table[s], g.sol))
      decreases p, 7
    {
      var visible, rev, t, write := fields[s].visible, fields[s].rev, NO, fields[s].visible != NO;
      if visible != NO && s in user {
        t := TriAnd(user[s].tri, visible);
      } else {
        var found;
        t, found := FindValue(s, p, g, st);
        write := write || rev != NO || found;
      }
      t := TriOr(t, rev);
      EffectiveTypeNow(config, user, g, st, View(), s, p);
      if t == MOD && EffectiveType(s, modulesVal) == TBoolean {
        t := YES;
      }
      WriteField(s, fields[s].(tri := t, write := write), p, g, st);
    }

    // The value of the first default whose condition holds.
    method FindValue(s: Symbol, ghost p: nat, ghost g: Goal, ghost st: State) returns (t: Tristate, found: bool)
      requires Calculating(g, st, s, p)
      modifies this
      ensures user == old(user)
      ensures Calculating(g, st, s, p) && fields[s] == old(fields)[s]
      ensures var i := InputsOf(config, config.table[s], g.sol); t == i.default && found == i.hasDefault
      decreases p, 7, 0
    {
      var default, limit := FindDefault(s, p, g, st);
      t, found := NO, default.Some?;
      if found {
        t := EvalFor(s, default.value.value, YES, p, g, st);
        t := TriAnd(t, limit);
      }
    }

    // The text of a string or number.
    method CalcText(s: Symbol, ghost p: nat, ghost g: Goal, ghost st: State)
      requires Calculating(g, st, s, p) && Typed(s)
      requires var i := InputsOf(config, config.table[s], g.sol);
               fields[s] == Fields(NO, "", VisibleFrom(s, g.m, i.prompts), RevFrom(s, g.m, i.rev), false)
      modifies this
      ensures user == old(user)
      ensures Calculating(g, st, s, p)
      ensures fields[s] == TextFields(s, g.m, UserOf(user, s), InputsOf(config, config.table[s], g.sol))
      decreases p, 7
    {
      var visible, text, write := fields[s].visible, "", fields[s].visible != NO;
      if visible != NO && s in user {
        text := user[s].val;
      } else {
        var found := FindText(s, p, g, st);
        if found.Some? {
          write := true;
          text := found.value;
        }
      }
      WriteField(s, fields[s].(val := text, write := write), p, g, st);
    }

    // The text of the first default whose condition holds.
    method FindText(s: Symbol, ghost p: nat, ghost g: Goal, ghost st: State) returns (text: Option<string>)
      requires Calculating(g, st, s, p)
      modifies this
      ensures user == old(user)
      ensures Calculating(g, st, s, p) && fields[s] == old(fields)[s]
      ensures text == InputsOf(config, config.table[s], g.sol).text
      decreases p, 7, 0
    {
      var default, limit := FindDefault(s, p, g, st);
      var from := DefaultSymbol(default);
      text := None;
      if from.Some? {
        var found := TextFrom(s, from.value, p, g, st);
        text := Some(found);
      }
    }

    method TextFrom(s: Symbol, from: Symbol, ghost p: nat, ghost g: Goal, ghost st: State) returns (text: string)
      requires Calculating(g, st, s, p) && from in Deps(config.table, s)
      modifies this
      ensures user == old(user)
      ensures Calculating(g, st, s, p) && fields[s] == old(fields)[s]
      ensures text == Lookup(config, g.sol, from).val
      decreases p, 5
    {
      DependenciesReady(config, user, g, st, View(), s, p, {from});
      assert Usable(config, g, from, p) && Timely(config, g, View(), {from});
      Demand(from, p, g);
      EvalDuring(config, g, st, old(View()), View(), s, p);
      text := fields[from].val;
    }
  }

  // The best of all prompts, one property at a time.
  lemma PromptStep(ps: seq<Property>, i: nat, v: Valuation)
    requires i < |ps| && TextsAreVisible(ps)
    ensures ps[i].hasText ==> OptSymbols(ps[i].visible) <= PropsSymbols(ps)
    ensures PromptsValue(ps[..i + 1], v) ==
            if ps[i].hasText then TriOr(PromptsValue(ps[..i], v), OptValue(ps[i].visible, YES, v))
            else PromptsValue(ps[..i], v)
  {
    PropsStep(ps, i);
    PropsBelow(ps, i + 1);
    assert ps[..i + 1][..i] == ps[..i];
  }

  // Looking for the first default, one property at a time.
  lemma DefaultStep(ps: seq<Property>, i: nat, v: Valuation)
    requires i < |ps|
    ensures PropertySymbols(ps[i]) <= PropsSymbols(ps)
    ensures FirstDefault(ps[i..], v) ==
            if ps[i].kind == PDefault && OptValue(ps[i].visible, YES, v) != NO then Some(ps[i])
            else FirstDefault(ps[i + 1..], v)
  {
    PropsStep(ps, i);
    PropsBelow(ps, i + 1);
    assert ps[i..][1..] == ps[i + 1..];
  }

  function SetUser(user: map<Symbol, UserValue>, s: Symbol, val: Tristate): map<Symbol, UserValue> {
    user[s := UserValue(val, if s in user then user[s].val else "")]
  }

  lemma {:induction false} ClearedInv(c: Config, user: map<Symbol, UserValue>, g: Goal, st: State)
    requires GoalFor(c, user, g) && st.fields.Keys == c.table.Keys && c.modules in st.fields
             && st.modulesVal == st.fields[c.modules].tri
    requires forall s {:trigger FieldsOk(c, st, s)} :: s in st.fields ==> FieldsOk(c, st, s)
    ensures Inv(c, g, st.(valid := BuiltIns(c.table), computed := multiset{}), g.size)
  {
    var st' := st.(valid := BuiltIns(c.table), computed := multiset{});
    forall s | s in st'.fields
      ensures FieldsOk(c, st', s)
    {
      assert FieldsOk(c, st, s);
    }
    forall s | s in st'.valid && Before(g, s, g.size)
      ensures s in st'.fields && s in g.sol && st'.fields[s] == g.sol[s]
    {
      assert FieldsOk(c, st, s);
      UntypedSolution(c, user, g.m, g.sol, s);
    }
    assert st'.valid - BuiltIns(c.table) == {};
  }

  // The type that counts is the same with the cached value of the modules symbol and with its final one.
  lemma EffectiveTypeNow(c: Config, user: map<Symbol, UserValue>, g: Goal, st: State, st': State, s: Symbol, p: nat)
    requires GoalFor(c, user, g) && s in c.table
    requires (Ready(c, g, st) || s in g.cone) && During(c, g, st, st', s, p)
    ensures EffectiveType(s, st'.modulesVal) == EffectiveType(s, g.m)
  {
    if s in g.cone {
      assert InCone(c, g.cone, s);
    }
  }

  // Everything that `s` depends on comes before it.
  lemma DependenciesReady(c: Config, user: map<Symbol, UserValue>, g: Goal, st: State, st': State, s: Symbol, p: nat,
                          deps: set<Symbol>)
    requires GoalFor(c, user, g) && s in c.table && IsAt(g, s, p) && deps <= Deps(c.table, s) + BuiltIns(c.table)
    requires (Ready(c, g, st) || s in g.cone) && During(c, g, st, st', s, p)
    ensures forall d {:trigger Usable(c, g, d, p)} :: d in deps ==> Usable(c, g, d, p)
    ensures Timely(c, g, st', deps)
  {
    assert DepsInside(c.table, s);
    if s in g.cone {
      assert InCone(c, g.cone, s);
    }
    forall d | d in deps
      ensures Usable(c, g, d, p)
    {
      if d !in BuiltIns(c.table) {
        assert Earlier(c.table, g.place, s, d);
      }
    }
  }

  // Until it is calculated, the cached value of the modules symbol is the one of its field.
  lemma CachedUntilNow(c: Config, g: Goal, st: State, st': State, p: nat, after: nat)
    requires Between(g, c.modules, p, after) && Inv(c, g, st, after) && During(c, g, st, st', c.modules, p)
    ensures c.modules in st.fields && st'.modulesVal == st.fields[c.modules].tri
  {
    assert Before(g, c.modules, after) && !Before(g, c.modules, p);
  }

  lemma StillThere(c: Config, user: map<Symbol, UserValue>, g: Goal, st: State, st': State, s: Symbol, bound: nat)
    requires GoalFor(c, user, g) && Usable(c, g, s, bound) && Step(c, g, st, st', bound) && s in st.valid
    ensures s in st'.valid && s in st'.fields && s in g.sol && st'.fields[s] == g.sol[s]
  {
    if s.BuiltIn() {
      ConstantIsThere(c, user, g, st', s, bound);
    }
  }

  lemma Demanded(c: Config, g: Goal, st: State, st': State, s: Symbol, p: nat, after: nat, bound: nat)
    requires c.modules in c.table && after <= bound && Between(g, s, p, after) && Inv(c, g, st, bound)
    requires Step(c, g, st, st', after) && s in st'.valid
    ensures Step(c, g, st, st', bound) && s in st'.fields && s in g.sol && st'.fields[s] == g.sol[s]
  {
    StepWeaken(c, g, st, st', after, bound);
    assert Before(g, s, after);
  }

  // An invariant up to a bound holds up to any lower one.
  lemma LowerBound(c: Config, g: Goal, st: State, low: nat, bound: nat)
    requires Inv(c, g, st, bound) && low <= bound
    ensures Inv(c, g, st, low)
  {
    assert forall s :: Before(g, s, low) ==> Before(g, s, bound);
  }

  // ----- where goals come from -----

  lemma {:induction false} PlacesOf(t: Table, order: seq<Symbol>) returns (place: map<Symbol, nat>)
    requires Topological(t, order)
    ensures place.Keys == Elements(order)
    ensures forall s :: s in place ==> place[s] < |order|
    ensures forall s, d {:trigger Earlier(t, place, s, d)} :: s in place && s in t && d in Deps(t, s) ==>
            Earlier(t, place, s, d)
    ensures forall s, x {:trigger Apart(place, s, x)} :: Apart(place, s, x)
  {
    if order == [] {
      place := map[];
    } else {
      var front, last := order[..|order| - 1], order[|order| - 1];
      var before := PlacesOf(t, front);
      place := before[last := |front|];
      forall s, d | s in place && s in t && d in Deps(t, s)
        ensures Earlier(t, place, s, d)
      {
        assert s != last ==> Earlier(t, before, s, d);
      }
      forall s, x
        ensures Apart(place, s, x)
      {
        assert Apart(before, s, x);
      }
    }
  }

  /** If an order of all symbols respects the dependencies and the modules symbol depends on no tristate,
      there is something to aim at, whatever the user has set. */
  lemma {:induction false} GoalExists(c: Config, user: map<Symbol, UserValue>, order: seq<Symbol>, cone: set<Symbol>)
    returns (g: Goal)
    requires WellFormed(c) && AllDirectlySeen(c.table) && ModulesCone(c, cone)
    requires Topological(c.table, order) && Elements(order) == c.table.Keys
    ensures GoalFor(c, user, g) && g.cone == cone
  {
    var m, sol := SettledExists(c, user, order, cone);
    var place := PlacesAreGood(c.table, order, cone, m, sol);
    g := Goal(place, |order|, cone, m, sol);
  }

  lemma {:induction false} PlacesAreGood(t: Table, order: seq<Symbol>, cone: set<Symbol>, m: Tristate, sol: Env)
    returns (place: map<Symbol, nat>)
    requires Topological(t, order) && Elements(order) == t.Keys
    ensures Placed(t, Goal(place, |order|, cone, m, sol))
  {
    place := PlacesOf(t, order);
  }

  // When all symbols but constants are valid, the fields are the solution.
  lemma AllAreSolved(c: Config, user: map<Symbol, UserValue>, g: Goal, st: State)
    requires GoalFor(c, user, g) && Inv(c, g, st, g.size)
    requires forall s :: s in c.table ==> s in st.valid || s.BuiltIn()
    ensures st.fields == g.sol
  {
    forall s | s in c.table
      ensures st.fields[s] == g.sol[s]
    {
      assert FieldsOk(c, st, s) && Before(g, s, g.size);
    }
  }

  /** From the table to the values: unless the check prints a recursive dependency, asking for all symbols
      solves all equations, with the value of the modules symbol that they assume. */
  method CheckAndCalculate(c: Config, user: map<Symbol, UserValue>, symbols: seq<Symbol>, ghost cone: set<Symbol>)
    returns (reports: seq<seq<Symbol>>, m: Tristate, env: Env)
    requires WellFormed(c) && AllDirectlySeen(c.table) && ModulesCone(c, cone)
    requires forall s :: s in c.table <==> s in symbols || (s in c.table && s.BuiltIn() && Deps(c.table, s) == {})
    ensures reports == [] <==> Acyclic(c.table)
    ensures reports == [] ==> Settled(c, user, m, env)
  {
    var errors;
    ghost var finished, order;
    errors, reports, finished, order := DependencyCheck.CheckAll(c.table, symbols);
    m, env := NO, map[];
    if reports == [] {
      ghost var g := GoalExists(c, user, order, cone);
      var values := new Symbols(c, user);
      values.Recalculate(symbols, g);
      m, env := values.modulesVal, values.fields;
      AllAreSolved(c, user, g, values.View());
    }
  }
}
