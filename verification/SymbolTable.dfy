/**
 The symbol table: what is declared of each symbol, and which symbols its value depends on.
 */
module SymbolTable {
  import opened Expressions
  import opened Wrappers

  datatype PropertyKind = PPrompt | PComment | PMenu | PDefault | PChoice | PSelect | PRange | PEnv | PSymbol

  /** A property of a symbol: its condition, whether it has a prompt text, and for a default its value. */
  datatype Property = Property(kind: PropertyKind, visible: Option<Expr>, hasText: bool, value: Option<Expr>)

  /** The declaration of a symbol that is not a choice: what selects it, the conditions of the menu
      entries it is declared in, and its properties. */
  datatype Declaration = Declaration(name: string, dirDep: Option<Expr>, revDep: Option<Expr>, props: seq<Property>)

  type Table = map<Symbol, Declaration>

  // ----- the dependency graph -----

  function OptSymbols(e: Option<Expr>): set<Symbol> {
    if e.None? then {} else ExprSymbols(e.value)
  }

  function PropertySymbols(p: Property): set<Symbol> {
    if p.kind == PChoice || p.kind == PSelect then {}
    else if p.kind == PDefault then OptSymbols(p.visible) + OptSymbols(p.value)
    else OptSymbols(p.visible)
  }

  function PropsSymbols(ps: seq<Property>): set<Symbol> {
    if ps == [] then {} else PropsSymbols(ps[..|ps| - 1]) + PropertySymbols(ps[|ps| - 1])
  }

  // Everything that the value of `s` depends on directly.
  function Deps(t: Table, s: Symbol): set<Symbol>
    requires s in t
  {
    OptSymbols(t[s].revDep) + PropsSymbols(t[s].props)
  }

  // Everything that `s` depends on is in the table.
  predicate DepsInside(t: Table, s: Symbol)
    requires s in t
  {
    Deps(t, s) <= t.Keys
  }

  // The built-in constants that the table lists.
  function BuiltIns(t: Table): set<Symbol> {
    set s | s in t && s.BuiltIn()
  }

  /** The conditions of its menu entries name nothing but what `s` depends on anyway, and constants. */
  predicate DirectlySeen(t: Table, s: Symbol)
    requires s in t
  {
    OptSymbols(t[s].dirDep) <= Deps(t, s) + BuiltIns(t)
  }

  ghost predicate AllDirectlySeen(t: Table) {
    forall s {:trigger DirectlySeen(t, s)} :: s in t ==> DirectlySeen(t, s)
  }

  ghost predicate Closed(t: Table) {
    forall s {:trigger DepsInside(t, s)} :: s in t ==> DepsInside(t, s)
  }

  // The elements of a list that grows at its end.
  function Elements(p: seq<Symbol>): set<Symbol> {
    if p == [] then {} else Elements(p[..|p| - 1]) + {p[|p| - 1]}
  }

  // Each symbol depends on the next one.
  predicate IsPath(t: Table, p: seq<Symbol>) {
    p == [] ||
    (&& p[|p| - 1] in t
     && IsPath(t, p[..|p| - 1])
     && (|p| > 1 ==> p[|p| - 1] in Deps(t, p[|p| - 2])))
  }

  /** A recursive dependency: a path whose last symbol depends on the first. */
  predicate IsCycle(t: Table, c: seq<Symbol>) {
    c != [] && IsPath(t, c) && c[0] in Deps(t, c[|c| - 1])
  }

  /** An order in which every symbol comes once, after everything it depends on. */
  predicate Topological(t: Table, order: seq<Symbol>) {
    order == [] ||
    (var front, last := order[..|order| - 1], order[|order| - 1];
     && Topological(t, front)
     && last in t && last !in Elements(front) && Deps(t, last) <= Elements(front))
  }

  lemma {:induction false} PathInTable(t: Table, p: seq<Symbol>)
    requires IsPath(t, p)
    ensures Elements(p) <= t.Keys
  {
    if p != [] {
      PathInTable(t, p[..|p| - 1]);
    }
  }

  lemma {:induction false} ElementsAreMembers(p: seq<Symbol>)
    ensures forall x :: x in Elements(p) <==> x in p
  {
    if p != [] {
      ElementsAreMembers(p[..|p| - 1]);
      assert p == p[..|p| - 1] + [p[|p| - 1]];
    }
  }

  // A path from a symbol whose dependencies are all in the order.
  lemma {:induction false} PathLeaves(t: Table, order: seq<Symbol>, p: seq<Symbol>, x: Symbol)
    requires Topological(t, order) && IsPath(t, p) && |p| > 1 && p[0] == x && x in t && Deps(t, x) <= Elements(order)
    ensures p[|p| - 1] in Elements(order)
    decreases |p|
  {
    var n := |p| - 1;
    if n > 1 {
      PathLeaves(t, order, p[..n], x);
      DependenciesInside(t, order, p[n - 1]);
    }
    PathInTable(t, p[..n]);
  }

  // An order contains the dependencies of its members.
  lemma {:induction false} DependenciesInside(t: Table, order: seq<Symbol>, x: Symbol)
    requires Topological(t, order) && x in Elements(order)
    ensures x in t && Deps(t, x) <= Elements(order)
  {
    var n := |order| - 1;
    if x != order[n] {
      DependenciesInside(t, order[..n], x);
    }
  }

  /** No cycle goes through a member of a topological order. */
  lemma {:induction false} TopologicalExcludesCycle(t: Table, order: seq<Symbol>, c: seq<Symbol>)
    requires Topological(t, order) && IsCycle(t, c)
    ensures c[0] !in Elements(order)
    decreases |order|
  {
    if order != [] {
      var n := |order| - 1;
      TopologicalExcludesCycle(t, order[..n], c);
      if c[0] == order[n] {
        if |c| > 1 {
          PathLeaves(t, order[..n], c, c[0]);
          DependenciesInside(t, order[..n], c[|c| - 1]);
        }
      }
    }
  }

  // The end of a path is a path.
  lemma {:induction false} PathSuffix(t: Table, p: seq<Symbol>, k: nat)
    requires IsPath(t, p) && k <= |p|
    ensures IsPath(t, p[k..])
    decreases |p|
  {
    if k < |p| {
      var n := |p| - 1;
      PathSuffix(t, p[..n], k);
      assert p[k..][..n - k] == p[..n][k..];
    }
  }

  ghost predicate Acyclic(t: Table) {
    forall c :: !IsCycle(t, c)
  }

  lemma {:induction false} PathGoesOn(t: Table, p: seq<Symbol>)
    requires IsPath(t, p) && |p| > 1
    ensures p[0] in t && p[1] in Deps(t, p[0])
    decreases |p|
  {
    if |p| > 2 {
      PathGoesOn(t, p[..|p| - 1]);
    }
  }

  /** A topological order of all symbols that depend on anything leaves no room for a cycle. */
  lemma {:induction false} OrderMeansAcyclic(t: Table, order: seq<Symbol>)
    requires Topological(t, order)
    requires forall s :: s in t && s !in Elements(order) ==> Deps(t, s) == {}
    ensures Acyclic(t)
  {
    forall c
      ensures !IsCycle(t, c)
    {
      if IsCycle(t, c) {
        TopologicalExcludesCycle(t, order, c);
        if |c| > 1 {
          PathGoesOn(t, c);
        }
      }
    }
  }

  // ----- lists without repetition -----

  predicate NoDups(p: seq<Symbol>) {
    p == [] || (NoDups(p[..|p| - 1]) && p[|p| - 1] !in Elements(p[..|p| - 1]))
  }

  // ----- prefixes of the properties -----

  lemma PropsStep(ps: seq<Property>, i: nat)
    requires i < |ps|
    ensures PropsSymbols(ps[..i + 1]) == PropsSymbols(ps[..i]) + PropertySymbols(ps[i])
  {
    assert ps[..i + 1][..i] == ps[..i];
  }

  lemma {:induction false} PropsBelow(ps: seq<Property>, i: nat)
    requires i <= |ps|
    ensures PropsSymbols(ps[..i]) <= PropsSymbols(ps)
    decreases |ps| - i
  {
    if i < |ps| {
      PropsStep(ps, i);
      PropsBelow(ps, i + 1);
    } else {
      assert ps[..i] == ps;
    }
  }

  /** What a symbol depends on: its reverse dependency, the conditions of all properties but choices and
      selects, and the values of defaults. */
  lemma {:induction false} DepsAre(t: Table, s: Symbol, x: Symbol)
    requires s in t
    ensures x in Deps(t, s) <==>
            x in OptSymbols(t[s].revDep) || exists i :: 0 <= i < |t[s].props| && Names(t[s].props[i], x)
  {
    PropsAre(t[s].props, x);
  }

  predicate Names(p: Property, x: Symbol) {
    && p.kind != PChoice && p.kind != PSelect
    && (x in OptSymbols(p.visible) || (p.kind == PDefault && x in OptSymbols(p.value)))
  }

  lemma {:induction false} PropsAre(ps: seq<Property>, x: Symbol)
    ensures x in PropsSymbols(ps) <==> exists i :: 0 <= i < |ps| && Names(ps[i], x)
  {
    if ps != [] {
      var n := |ps| - 1;
      PropsAre(ps[..n], x);
      assert x in PropertySymbols(ps[n]) <==> Names(ps[n], x);
      if i :| 0 <= i < |ps| && Names(ps[i], x) {
        assert i < n ==> ps[..n][i] == ps[i];
      }
      if i :| 0 <= i < n && Names(ps[..n][i], x) {
        assert ps[i] == ps[..n][i];
      }
    }
  }
}
