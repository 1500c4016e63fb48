/**
 Saving a configuration and loading it again: the values that are written to the file become the user's
 values, and everything is calculated anew. It comes out as it was, except for one kind of symbol.
 */
module Reload {
  import opened Wrappers
  import opened Expressions
  import opened SymbolTable
  import opened SymbolEquations
  import SymbolValues
  import opened ConfigFile

  // ----- one symbol -----

  /** The saved value is kept, unless the value is a default above what the user may choose: a tristate
      symbol, visible as `m` only, that the user has not set and nobody selects, with the default `y`. */
  predicate KeepsDefault(s: Symbol, m: Tristate, u: Option<UserValue>, i: Inputs) {
    var visible, rev := VisibleFrom(s, m, i.prompts), RevFrom(s, m, i.rev);
    u.Some? || visible == NO || i.default <= visible || i.default <= rev
  }

  /** The value of a boolean or tristate symbol, set by the user, gives the same value exactly then. */
  lemma LogicalReloads(s: Symbol, m: Tristate, u: Option<UserValue>, w: Option<UserValue>, i: Inputs)
    requires s.Logical()
    requires var f := LogicalFields(s, m, u, i); f.visible != NO ==> w.Some? && w.value.tri == f.tri
    ensures LogicalFields(s, m, w, i) == LogicalFields(s, m, u, i) <==> KeepsDefault(s, m, u, i)
  {}

  /** A text comes out the same if it is restored, or if neither before nor after the user has set it. */
  lemma TextReloads(s: Symbol, m: Tristate, u: Option<UserValue>, w: Option<UserValue>, i: Inputs)
    requires var f := TextFields(s, m, u, i);
             f.visible != NO ==> if w.Some? then w.value.val == f.val else u.None?
    ensures TextFields(s, m, w, i) == TextFields(s, m, u, i)
  {}

  // ----- all symbols -----

  /** The user's values are those of the solution, for every symbol that the user can see; a text that
      was not restored had not been set. */
  ghost predicate RestoredAt(env: Env, user: map<Symbol, UserValue>, user': map<Symbol, UserValue>, s: Symbol) {
    s in env && Typed(s) && env[s].visible != NO ==>
      if s.Logical() then s in user' && user'[s].tri == env[s].tri
      else if s in user' then user'[s].val == env[s].val
      else s !in user
  }

  ghost predicate Restored(env: Env, user: map<Symbol, UserValue>, user': map<Symbol, UserValue>) {
    forall s {:trigger RestoredAt(env, user, user', s)} :: RestoredAt(env, user, user', s)
  }

  ghost predicate Keeps(c: Config, user: map<Symbol, UserValue>, m: Tristate, env: Env, s: Symbol) {
    s in c.table && Typed(s) && s.Logical() ==> KeepsDefault(s, m, UserOf(user, s), InputsOf(c, c.table[s], env))
  }

  lemma OutcomeReloads(c: Config, user: map<Symbol, UserValue>, user': map<Symbol, UserValue>, m: Tristate, env: Env,
                       s: Symbol)
    requires Satisfied(c, user, m, s, env) && RestoredAt(env, user, user', s)
    ensures Satisfied(c, user', m, s, env) <==> Keeps(c, user, m, env, s)
  {
    if Typed(s) {
      var i := InputsOf(c, c.table[s], env);
      if s.Logical() {
        LogicalReloads(s, m, UserOf(user, s), UserOf(user', s), i);
      } else {
        TextReloads(s, m, UserOf(user, s), UserOf(user', s), i);
      }
    }
  }

  /** After the values have been restored, everything is calculated as before if and only if no default
      is above what the user may choose. */
  lemma {:induction false} ReloadBoundary(c: Config, order: seq<Symbol>, cone: set<Symbol>,
                                          user: map<Symbol, UserValue>, m: Tristate, env: Env,
                                          user': map<Symbol, UserValue>, m': Tristate, env': Env)
    requires WellFormed(c) && Topological(c.table, order) && Elements(order) == c.table.Keys && ModulesCone(c, cone)
    requires Settled(c, user, m, env) && Settled(c, user', m', env') && Restored(env, user, user')
    ensures m' == m && env' == env <==> forall s {:trigger Keeps(c, user, m, env, s)} :: Keeps(c, user, m, env, s)
  {
    forall s | s in env
      ensures Satisfied(c, user', m, s, env) <==> Keeps(c, user, m, env, s)
    {
      assert Satisfied(c, user, m, s, env) && RestoredAt(env, user, user', s);
      OutcomeReloads(c, user, user', m, env, s);
    }
    if forall s {:trigger Keeps(c, user, m, env, s)} :: Keeps(c, user, m, env, s) {
      assert Settled(c, user', m, env);
      SettledUnique(c, user', order, cone, m, env, m', env');
    } else {
      var s :| !Keeps(c, user, m, env, s);
      assert s in env && !Satisfied(c, user', m, s, env);
      assert s in env' ==> Satisfied(c, user', m', s, env');
    }
  }

  // ----- through the file -----

  function SavedValue(s: Symbol, f: Fields): Reading {
    if s.Logical() then Tri(f.tri) else Text(f.val)
  }

  function UserValueOf(r: Reading): UserValue {
    match r
    case Tri(t) => UserValue(t, "")
    case Text(s) => UserValue(NO, s)
  }

  /** A place in the walk through the menus: a title, or a symbol whose value is written. */
  datatype Place = Title(item: Item) | Shown(symbol: Symbol)

  ghost predicate PlaceIsKnown(c: Config, env: Env, p: Place) {
    p.Shown? ==> p.symbol in c.table && p.symbol in env
  }

  function PlaceItem(c: Config, env: Env, p: Place): Item
    requires PlaceIsKnown(c, env, p)
  {
    match p
    case Title(item) => item
    case Shown(s) => Setting(c.table[s].name, s.Type(), SavedValue(s, env[s]))
  }

  /** The lines of the file, in the order in which the menus are walked. */
  function ItemsOf(c: Config, env: Env, walked: seq<Place>): seq<Item>
    requires forall i :: 0 <= i < |walked| ==> PlaceIsKnown(c, env, walked[i])
  {
    seq(|walked|, i requires 0 <= i < |walked| => PlaceItem(c, env, walked[i]))
  }

  /** What the user has set after a file has been read. */
  function UserFrom(c: Config, values: Values): map<Symbol, UserValue> {
    map s | s in c.table && Typed(s) && c.table[s].name in values :: UserValueOf(values[c.table[s].name])
  }

  // Symbols with a type have names of their own, under which the reader finds their types.
  ghost predicate Named(c: Config, types: Types) {
    && (forall s :: s in c.table && Typed(s) ==>
          && NameLike(c.table[s].name) && '\0' !in c.table[s].name
          && c.table[s].name in types && types[c.table[s].name] == s.Type())
    && (forall s, t :: s in c.table && t in c.table && Typed(s) && Typed(t) ==>
          c.table[s].name == c.table[t].name ==> s == t)
  }

  // The places of the walk: titles that set nothing, and symbols whose values stay on their lines, each at
  // most once and every one that the user can see.
  ghost predicate Walks(c: Config, types: Types, env: Env, walked: seq<Place>) {
    && (forall i :: 0 <= i < |walked| ==> PlaceIsGood(c, types, env, walked[i]))
    && (forall i, j :: 0 <= i < j < |walked| && walked[i].Shown? ==> walked[i] != walked[j])
    && (forall s :: s in env && Typed(s) && env[s].visible != NO ==> Shown(s) in walked)
  }

  ghost predicate PlaceIsGood(c: Config, types: Types, env: Env, p: Place) {
    match p
    case Title(item) => !item.Setting? && WellMade(types, item)
    case Shown(s) => s in c.table && s in env && Typed(s) && OneLineAt(env, s)
  }

  ghost predicate OneLineAt(env: Env, s: Symbol)
    requires s in env
  {
    OnOneLine(s.Type(), SavedValue(s, env[s])) && Fits(s.Type(), SavedValue(s, env[s]))
  }

  // Texts that the user has set are values of their types, as they were checked when they were set.
  ghost predicate TextsAreSafe(user: map<Symbol, UserValue>) {
    forall s :: s in user && Typed(s) && !s.Logical() ==> Safe(s.Type(), Text(user[s].val))
  }

  lemma ItemsAreWellMade(c: Config, types: Types, env: Env, walked: seq<Place>)
    requires Named(c, types) && Walks(c, types, env, walked)
    ensures forall i :: 0 <= i < |walked| ==> PlaceIsKnown(c, env, walked[i])
    ensures var items := ItemsOf(c, env, walked);
            && DistinctNames(items)
            && (forall i :: 0 <= i < |items| ==> WellMade(types, items[i]) && OneLine(items[i]))
  {
    forall i | 0 <= i < |walked|
      ensures PlaceIsKnown(c, env, walked[i])
    {
      assert PlaceIsGood(c, types, env, walked[i]);
    }
    var items := ItemsOf(c, env, walked);
    forall i | 0 <= i < |items|
      ensures WellMade(types, items[i]) && OneLine(items[i])
    {
      assert PlaceIsGood(c, types, env, walked[i]);
    }
    forall i, j | 0 <= i < j < |items| && items[i].Setting? && items[j].Setting?
      ensures items[i].name != items[j].name
    {
      assert PlaceIsGood(c, types, env, walked[i]) && PlaceIsGood(c, types, env, walked[j]);
    }
  }

  lemma OneIsRestored(c: Config, user: map<Symbol, UserValue>, m: Tristate, env: Env, walked: seq<Place>, i: nat)
    requires Solution(c, user, m, env) && TextsAreSafe(user)
    requires forall k :: 0 <= k < |walked| ==> PlaceIsKnown(c, env, walked[k])
    requires i < |walked| && walked[i].Shown? && DistinctNames(ItemsOf(c, env, walked))
    ensures RestoredAt(env, user, UserFrom(c, SafeOf(map[], ItemsOf(c, env, walked))), walked[i].symbol)
  {
    var s := walked[i].symbol;
    assert PlaceIsKnown(c, env, walked[i]);
    SafeHave(map[], ItemsOf(c, env, walked), i);
    if Typed(s) && env[s].visible != NO {
      SavedIsSafe(c, user, m, env, s);
    }
  }

  /** Whatever the user can see is restored from the file. */
  lemma SavedIsRestored(c: Config, types: Types, user: map<Symbol, UserValue>, m: Tristate, env: Env,
                        walked: seq<Place>)
    requires Solution(c, user, m, env) && Named(c, types) && Walks(c, types, env, walked) && TextsAreSafe(user)
    ensures forall i :: 0 <= i < |walked| ==> PlaceIsKnown(c, env, walked[i])
    ensures Restored(env, user, UserFrom(c, ReadAll(types, map[], Written(ItemsOf(c, env, walked)))))
  {
    ItemsAreWellMade(c, types, env, walked);
    var items := ItemsOf(c, env, walked);
    SafeIsRead(types, map[], items);
    forall s
      ensures RestoredAt(env, user, UserFrom(c, SafeOf(map[], items)), s)
    {
      if s in env && Typed(s) && env[s].visible != NO {
        var i :| 0 <= i < |walked| && walked[i] == Shown(s);
        OneIsRestored(c, user, m, env, walked, i);
      }
    }
  }

  lemma SavedIsSafe(c: Config, user: map<Symbol, UserValue>, m: Tristate, env: Env, s: Symbol)
    requires Solution(c, user, m, env) && TextsAreSafe(user) && s in env && Typed(s) && env[s].visible != NO
    ensures s.Logical() || s in user ==> Safe(s.Type(), SavedValue(s, env[s]))
  {
    TypedSolution(c, user, m, env, s);
    if s.Logical() {
      SolutionBounds(c, user, m, env, s);
    }
  }

  /** Writing the file, reading it, and calculating everything anew gives the configuration that was
      saved if and only if no default is above what the user may choose. */
  method SaveAndReload(c: Config, types: Types, symbols: seq<Symbol>, env: Env, walked: seq<Place>,
                       ghost user: map<Symbol, UserValue>, ghost m: Tristate, ghost order: seq<Symbol>,
                       ghost cone: set<Symbol>)
    returns (text: string, m': Tristate, env': Env)
    requires WellFormed(c) && AllDirectlySeen(c.table) && ModulesCone(c, cone)
    requires Topological(c.table, order) && Elements(order) == c.table.Keys
    requires forall s :: s in c.table <==> s in symbols || (s in c.table && s.BuiltIn() && Deps(c.table, s) == {})
    requires Settled(c, user, m, env) && TextsAreSafe(user)
    requires Named(c, types) && Walks(c, types, env, walked)
    ensures m' == m && env' == env <==> forall s {:trigger Keeps(c, user, m, env, s)} :: Keeps(c, user, m, env, s)
  {
    ItemsAreWellMade(c, types, env, walked);
    var items := ItemsOf(c, env, walked);
    text := WriteConfig(items);
    var values := ReadSimple(types, text);
    var reports;
    reports, m', env' := SymbolValues.CheckAndCalculate(c, UserFrom(c, values), symbols, cone);
    OrderMeansAcyclic(c.table, order);
    SavedIsRestored(c, types, user, m, env, walked);
    ReloadBoundary(c, order, cone, user, m, env, UserFrom(c, values), m', env');
  }

  // ----- a default that is lost -----

  const PROMPT: Property := Property(PPrompt, None, true, None)
  const DEFAULT_YES: Property := Property(PDefault, None, false, Some(Sym(SymYes)))

  /** The modules symbol `x`, a boolean that is `y` by default, and two tristate symbols with prompts: that of
      `a` shows while `b` is on, and `a` is `y` by default. */
  function Example(x: Symbol, a: Symbol, b: Symbol): Config {
    Config(map[
             SymYes := Declaration("y", None, None, []),
             x := Declaration("MODULES", None, None, [DEFAULT_YES]),
             b := Declaration("B", None, None, [PROMPT]),
             a := Declaration("A", None, None, [PROMPT.(visible := Some(Sym(b))), DEFAULT_YES])],
           x, _ => "")
  }

  // The user has set `b` to `m`, and these are the values.
  function ExampleUser(b: Symbol): map<Symbol, UserValue> {
    map[b := UserValue(MOD, "")]
  }

  function ExampleEnv(x: Symbol, a: Symbol, b: Symbol): Env {
    map[
      SymYes := NoFields("y").(tri := YES),
      x := Fields(YES, "n", NO, NO, true),
      b := Fields(MOD, "n", YES, NO, true),
      a := Fields(YES, "n", MOD, NO, true)]
  }

  predicate Three(x: Symbol, a: Symbol, b: Symbol) {
    && x.Entry? && a.Entry? && b.Entry? && a != b
    && x.Type() == TBoolean && a.Type() == TTristate && b.Type() == TTristate
  }

  // What the equation of the modules symbol reads.
  lemma ExampleModules(x: Symbol, a: Symbol, b: Symbol, env: Env)
    requires Three(x, a, b)
    requires var c := Example(x, a, b); Lookup(c, env, SymYes).tri == YES
    ensures var c := Example(x, a, b);
            InputsOf(c, c.table[x], env) == Inputs(NO, NO, true, YES, Some(Lookup(c, env, SymYes).val))
  {
    var c := Example(x, a, b);
    var ps := c.table[x].props;
    assert ps[..0] == [] && PromptsValue(ps, ValuationOf(c, env)) == NO;
  }

  // What the equations of both tristates read, wherever `b` is `m`.
  lemma ExampleInputs(x: Symbol, a: Symbol, b: Symbol, env: Env)
    requires Three(x, a, b)
    requires var c := Example(x, a, b); Lookup(c, env, b).tri == MOD && Lookup(c, env, SymYes).tri == YES
    ensures var c := Example(x, a, b);
            && InputsOf(c, c.table[a], env) == Inputs(MOD, NO, true, YES, Some(Lookup(c, env, SymYes).val))
            && InputsOf(c, c.table[b], env) == Inputs(YES, NO, false, NO, None)
  {
    var c := Example(x, a, b);
    var v := ValuationOf(c, env);
    var ps := c.table[a].props;
    assert ps[..1] == [ps[0]] && ps[..1][..0] == [] && ps[1..] == [DEFAULT_YES];
    assert PromptsValue(ps[..1], v) == MOD && PromptsValue(ps, v) == MOD;
    assert FirstDefault(ps, v) == FirstDefault(ps[1..], v) == Some(DEFAULT_YES);
    var qs := c.table[b].props;
    assert qs[..0] == [] && qs[1..] == [];
    assert FirstDefault(qs, v) == FirstDefault(qs[1..], v) == None;
  }

  // These are the values that the equations give.
  lemma ExampleIsSettled(x: Symbol, a: Symbol, b: Symbol)
    requires Three(x, a, b)
    ensures Settled(Example(x, a, b), ExampleUser(b), YES, ExampleEnv(x, a, b))
  {
    var c, user, env := Example(x, a, b), ExampleUser(b), ExampleEnv(x, a, b);
    ExampleModules(x, a, b, env);
    ExampleInputs(x, a, b, env);
    assert Satisfied(c, user, YES, SymYes, env);
    assert Satisfied(c, user, YES, x, env);
    assert Satisfied(c, user, YES, b, env);
    assert Satisfied(c, user, YES, a, env);
  }

  function ExampleOrder(x: Symbol, a: Symbol, b: Symbol): seq<Symbol> {
    [SymYes, x, b, a]
  }

  lemma ExampleDeps(x: Symbol, a: Symbol, b: Symbol)
    requires Three(x, a, b)
    ensures var t := Example(x, a, b).table;
            && t.Keys == {SymYes, x, a, b}
            && Deps(t, a) == {b, SymYes} && Deps(t, b) == {} && Deps(t, x) == {SymYes} && Deps(t, SymYes) == {}
  {
    var t := Example(x, a, b).table;
    var ps, qs := t[a].props, t[b].props;
    assert ps[..1] == [ps[0]] && ps[..1][..0] == [] && qs[..0] == [] && t[x].props[..0] == [];
    assert PropsSymbols(ps[..1]) == {b} && PropsSymbols(qs) == {};
  }

  lemma ExampleIsOrdered(x: Symbol, a: Symbol, b: Symbol)
    requires Three(x, a, b)
    ensures var t, order := Example(x, a, b).table, ExampleOrder(x, a, b);
            Topological(t, order) && Elements(order) == t.Keys
  {
    var t, order := Example(x, a, b).table, ExampleOrder(x, a, b);
    ExampleDeps(x, a, b);
    InOrder(t, [], SymYes, [SymYes]);
    InOrder(t, [SymYes], x, [SymYes, x]);
    InOrder(t, [SymYes, x], b, [SymYes, x, b]);
    InOrder(t, [SymYes, x, b], a, order);
  }

  // One more symbol at the end of an order.
  lemma InOrder(t: Table, front: seq<Symbol>, s: Symbol, order: seq<Symbol>)
    requires Topological(t, front) && s in t && s !in Elements(front) && Deps(t, s) <= Elements(front)
    requires order == front + [s]
    ensures Topological(t, order) && Elements(order) == Elements(front) + {s}
  {
    assert order[..|order| - 1] == front;
  }

  // The table is in order: nothing is recursive, and the modules symbol depends on no tristate.
  lemma ExampleIsWellFormed(x: Symbol, a: Symbol, b: Symbol)
    requires Three(x, a, b)
    ensures var c := Example(x, a, b); WellFormed(c) && AllDirectlySeen(c.table) && ModulesCone(c, {x, SymYes})
  {
    var c := Example(x, a, b);
    ExampleDeps(x, a, b);
    forall s | s in c.table
      ensures DepsInside(c.table, s) && WellDeclared(c, s) && DirectlySeen(c.table, s)
    {}
    assert InCone(c, {x, SymYes}, SymYes) && InCone(c, {x, SymYes}, x);
  }

  function ExampleTypes(): Types {
    map["MODULES" := TBoolean, "A" := TTristate, "B" := TTristate]
  }

  function ExampleWalk(x: Symbol, a: Symbol, b: Symbol): seq<Place> {
    [Shown(x), Shown(b), Shown(a)]
  }

  // The file with the settings of all three.
  function ExampleFile(x: Symbol, a: Symbol, b: Symbol): string
    requires Three(x, a, b)
  {
    Written(ItemsOf(Example(x, a, b), ExampleEnv(x, a, b), ExampleWalk(x, a, b)))
  }

  // The user's values after the file has been read.
  function ExampleReread(x: Symbol, a: Symbol, b: Symbol): map<Symbol, UserValue>
    requires Three(x, a, b)
  {
    UserFrom(Example(x, a, b), ReadAll(ExampleTypes(), map[], ExampleFile(x, a, b)))
  }

  lemma NamesAreGood()
    ensures forall n :: n in ExampleTypes() ==> NameLike(n) && '\0' !in n
  {}

  lemma ExampleIsNamed(x: Symbol, a: Symbol, b: Symbol)
    requires Three(x, a, b)
    ensures Named(Example(x, a, b), ExampleTypes())
  {
    NamesAreGood();
    var t := Example(x, a, b).table;
    assert t[x].name == "MODULES" && t[a].name == "A" && t[b].name == "B";
    assert |t[x].name| == 7 && |t[a].name| == 1 && |t[b].name| == 1 && t[a].name[0] != t[b].name[0];
  }

  lemma ExampleIsWalked(x: Symbol, a: Symbol, b: Symbol)
    requires Three(x, a, b)
    ensures Walks(Example(x, a, b), ExampleTypes(), ExampleEnv(x, a, b), ExampleWalk(x, a, b))
  {
    var c, types, env, walked := Example(x, a, b), ExampleTypes(), ExampleEnv(x, a, b), ExampleWalk(x, a, b);
    forall i | 0 <= i < |walked|
      ensures PlaceIsGood(c, types, env, walked[i])
    {}
    assert walked[0] == Shown(x) && walked[1] == Shown(b) && walked[2] == Shown(a);
  }

  lemma ExampleIsRestored(x: Symbol, a: Symbol, b: Symbol)
    requires Three(x, a, b)
    ensures Restored(ExampleEnv(x, a, b), ExampleUser(b), ExampleReread(x, a, b))
  {
    ExampleIsSettled(x, a, b);
    ExampleIsNamed(x, a, b);
    ExampleIsWalked(x, a, b);
    SavedIsRestored(Example(x, a, b), ExampleTypes(), ExampleUser(b), YES, ExampleEnv(x, a, b), ExampleWalk(x, a, b));
  }

  // With both values restored, `a` is only as far on as its prompt shows.
  lemma ExampleReloads(x: Symbol, a: Symbol, b: Symbol, user': map<Symbol, UserValue>, m': Tristate, env': Env)
    requires Three(x, a, b) && Settled(Example(x, a, b), user', m', env')
    requires a in user' && b in user' && user'[a].tri == YES && user'[b].tri == MOD
    ensures a in env' && env'[a].tri == MOD
  {
    var c := Example(x, a, b);
    assert Satisfied(c, user', m', SymYes, env') && Satisfied(c, user', m', x, env');
    ExampleModules(x, a, b, env');
    assert m' == YES && Satisfied(c, user', m', b, env');
    assert InputsOf(c, c.table[b], env').prompts == YES by {
      assert c.table[b].props[..0] == [];
    }
    assert env'[b].tri == MOD;
    ExampleInputs(x, a, b, env');
    assert Satisfied(c, user', m', a, env');
  }

  lemma ExampleUserIsRestored(x: Symbol, a: Symbol, b: Symbol, user': map<Symbol, UserValue>)
    requires Three(x, a, b) && Restored(ExampleEnv(x, a, b), ExampleUser(b), user')
    ensures a in user' && b in user' && user'[a].tri == YES && user'[b].tri == MOD
  {
    assert RestoredAt(ExampleEnv(x, a, b), ExampleUser(b), user', a);
    assert RestoredAt(ExampleEnv(x, a, b), ExampleUser(b), user', b);
  }

  lemma ExampleIsNotKept(x: Symbol, a: Symbol, b: Symbol)
    requires Three(x, a, b)
    ensures !Keeps(Example(x, a, b), ExampleUser(b), YES, ExampleEnv(x, a, b), a)
  {
    ExampleInputs(x, a, b, ExampleEnv(x, a, b));
  }

  lemma ExampleChanges(x: Symbol, a: Symbol, b: Symbol, user': map<Symbol, UserValue>) returns (m': Tristate, env': Env)
    requires Three(x, a, b) && Restored(ExampleEnv(x, a, b), ExampleUser(b), user')
    ensures Settled(Example(x, a, b), user', m', env') && a in env' && env'[a].tri == MOD
  {
    ExampleUserIsRestored(x, a, b, user');
    ExampleIsWellFormed(x, a, b);
    ExampleIsOrdered(x, a, b);
    m', env' := SettledExists(Example(x, a, b), user', ExampleOrder(x, a, b), {x, SymYes});
    ExampleReloads(x, a, b, user', m', env');
  }

  /** Through the file: the user has set `b` to `m`, and `a` is `y` by default; saved, loaded and
      calculated anew, `a` is `m`. */
  lemma DefaultIsLost(x: Symbol, a: Symbol, b: Symbol) returns (m': Tristate, env': Env)
    requires Three(x, a, b)
    ensures Settled(Example(x, a, b), ExampleUser(b), YES, ExampleEnv(x, a, b))
    ensures !Keeps(Example(x, a, b), ExampleUser(b), YES, ExampleEnv(x, a, b), a)
    ensures Settled(Example(x, a, b), ExampleReread(x, a, b), m', env')
    ensures ExampleEnv(x, a, b)[a].tri == YES && a in env' && env'[a].tri == MOD
  {
    ExampleIsSettled(x, a, b);
    ExampleIsNotKept(x, a, b);
    ExampleIsRestored(x, a, b);
    m', env' := ExampleChanges(x, a, b, ExampleReread(x, a, b));
  }
}
