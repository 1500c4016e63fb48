/**
 The check for recursive dependencies: a depth-first search over everything that the value of a
 symbol depends on, with one mark for symbols being checked and one for symbols checked before.
 */
module DependencyCheck {
  import opened Expressions
  import opened Wrappers
  import opened SymbolTable

  // ----- the state of the search -----

  /** The marks SYMBOL_CHECK and SYMBOL_CHECKED, the symbols being checked from the outermost on, the
      recursive dependencies printed so far, and the symbols whose check has ended in that order. */
  datatype State = State(checking: set<Symbol>, checked: set<Symbol>, stack: seq<Symbol>,
                         reports: seq<seq<Symbol>>, finished: seq<Symbol>)

  predicate AllCycles(t: Table, reports: seq<seq<Symbol>>) {
    forall r :: r in reports ==> IsCycle(t, r)
  }

  /** The marks agree with the stack, which is a path; every report is a real cycle; and as long as there
      is no report, the order of finishing respects the dependencies. */
  predicate Valid(t: Table, s: State) {
    && IsPath(t, s.stack) && NoDups(s.stack)
    && s.checking == Elements(s.stack)
    && s.checking <= s.checked <= t.Keys
    && Elements(s.finished) == s.checked - s.checking
    && AllCycles(t, s.reports)
    && (s.reports == [] ==> Topological(t, s.finished))
  }

  // What every part of the search keeps, and what it only adds to.
  predicate Extends(s: State, s': State) {
    && s'.stack == s.stack && s'.checking == s.checking
    && s.checked <= s'.checked && |s.reports| <= |s'.reports|
    && Elements(s.finished) <= Elements(s'.finished)
  }

  // Where the search may go on: anywhere at the start, then to dependencies of the innermost symbol.
  function Allowed(t: Table, stack: seq<Symbol>): set<Symbol> {
    if stack == [] then t.Keys
    else if stack[|stack| - 1] in t then Deps(t, stack[|stack| - 1])
    else {}
  }

  function Begin(s: State, x: Symbol): State {
    s.(checking := s.checking + {x}, checked := s.checked + {x}, stack := s.stack + [x])
  }

  function Finish(s: State, x: Symbol): State
    requires s.stack != []
  {
    s.(checking := s.checking - {x}, stack := s.stack[..|s.stack| - 1], finished := s.finished + [x])
  }

  lemma {:induction false} BeginValid(t: Table, s: State, x: Symbol)
    requires Closed(t) && Valid(t, s) && x in t && x in Allowed(t, s.stack) && x !in s.checked
    ensures Valid(t, Begin(s, x)) && Begin(s, x).stack[..|s.stack|] == s.stack
  {
    var s' := Begin(s, x);
    assert s'.stack[..|s.stack|] == s.stack;
  }

  lemma {:induction false} FinishValid(t: Table, s: State, x: Symbol)
    requires Valid(t, s) && s.stack != [] && s.stack[|s.stack| - 1] == x
    requires s.reports == [] ==> x in t && Deps(t, x) <= Elements(s.finished)
    ensures Valid(t, Finish(s, x)) && Elements(Finish(s, x).finished) == Elements(s.finished) + {x}
  {
    var s' := Finish(s, x);
    assert s'.finished[..|s.finished|] == s.finished;
  }

  // The part of the stack from `k` on, once its last symbol depends on its first.
  lemma {:induction false} StackIsCycle(t: Table, s: State, k: nat)
    requires Valid(t, s) && k < |s.stack| && s.stack[k] in Allowed(t, s.stack)
    ensures IsCycle(t, s.stack[k..])
    ensures Valid(t, s.(reports := s.reports + [s.stack[k..]]))
  {
    PathSuffix(t, s.stack, k);
  }

  /** All that a part of the search promises, after checking the symbols in `deps` with the answer `r`. */
  predicate Searched(t: Table, before: State, after: State, deps: set<Symbol>, r: Option<Symbol>) {
    && Valid(t, after) && Extends(before, after)
    && (r.Some? ==> r.value in after.checking && after.reports != [])
    && (after.reports == [] ==> deps <= Elements(after.finished))
  }

  lemma SearchedBoth(t: Table, s: State, s': State, s'': State, a: set<Symbol>, b: set<Symbol>, r: Option<Symbol>)
    requires Searched(t, s, s', a, None) && Searched(t, s', s'', b, r)
    ensures Searched(t, s, s'', a + b, r)
  {}

  // The check of `x` between beginning and ending; the answer does not go beyond `x` itself.
  lemma {:induction false} SearchedBetween(t: Table, s: State, s': State, x: Symbol, r: Option<Symbol>)
    requires Valid(t, s) && x in t && x !in s.checked
    requires Searched(t, Begin(s, x), s', Deps(t, x), r)
    ensures s'.stack == s.stack + [x]
    ensures Searched(t, s, Finish(s', x), {x}, if r == Some(x) then None else r)
  {
    FinishValid(t, s', x);
    assert s'.stack[..|s.stack|] == s.stack;
  }

  // ----- the search -----

  class Checker {
    const table: Table
    var checking: set<Symbol>
    var checked: set<Symbol>
    var stack: seq<Symbol>
    var reports: seq<seq<Symbol>>
    ghost var finished: seq<Symbol>

    constructor (table: Table)
      ensures this.table == table && View() == State({}, {}, [], [], [])
    {
      this.table := table;
      checking, checked, stack, reports, finished := {}, {}, [], [], [];
    }

    ghost function View(): State
      reads this
    {
      State(checking, checked, stack, reports, finished)
    }

    /** A recursive dependency is found at `last`: what is printed is the part of the stack from there on. */
    method Report(last: Symbol)
      requires Valid(table, View()) && last in checking && last in Allowed(table, stack)
      modifies this`reports
      ensures Valid(table, View()) && Extends(old(View()), View())
      ensures exists k :: 0 <= k < |stack| && stack[k] == last && reports == old(reports) + [stack[k..]]
    {
      ElementsAreMembers(stack);
      var k := |stack| - 1;
      while stack[k] != last
        invariant 0 <= k < |stack| && last in stack[..k + 1]
        decreases k
      {
        k := k - 1;
      }
      StackIsCycle(table, View(), k);
      reports := reports + [stack[k..]];
    }

    /** Checking one symbol. The answer is a symbol still being checked that depends on itself, if one was
        found and the search has not yet come back to it. */
    method CheckDeps(x: Symbol) returns (r: Option<Symbol>)
      requires Closed(table) && Valid(table, View()) && x in table && x in Allowed(table, stack)
      modifies this
      ensures Searched(table, old(View()), View(), {x}, r)
      decreases table.Keys - checked, 0
    {
      if x in checking {
        Report(x);
        return Some(x);
      }
      if x in checked {
        return None;
      }
      BeginValid(table, View(), x);
      checking, checked := checking + {x}, checked + {x};
      stack := stack + [x];
      assert View() == Begin(old(View()), x);
      r := CheckSymDeps(x);
      ghost var s := View();
      SearchedBetween(table, old(View()), s, x, r);
      stack := stack[..|stack| - 1];
      checking := checking - {x};
      finished := finished + [x];
      assert View() == Finish(s, x);
      if r == Some(x) {
        r := None;
      }
    }

    /** Checking everything that the innermost symbol depends on. */
    method CheckSymDeps(x: Symbol) returns (r: Option<Symbol>)
      requires Closed(table) && Valid(table, View()) && stack != [] && stack[|stack| - 1] == x
      modifies this
      ensures x in table && Searched(table, old(View()), View(), Deps(table, x), r)
      decreases table.Keys - checked, 2
    {
      assert DepsInside(table, x);
      r := CheckOptDeps(table[x].revDep);
      if r.Some? {
        return;
      }
      var props := table[x].props;
      assert props[..|props|] == props;
      var i := 0;
      while i < |props|
        invariant i <= |props|
        invariant Searched(table, old(View()), View(), OptSymbols(table[x].revDep) + PropsSymbols(props[..i]), r)
        invariant r.None?
      {
        var p := props[i];
        PropsStep(props, i);
        PropsBelow(props, i + 1);
        assert DepsInside(table, x);
        i := i + 1;
        if p.kind == PChoice || p.kind == PSelect {
          continue;
        }
        r := CheckOptDeps(p.visible);
        if r.Some? {
          return;
        }
        if p.kind != PDefault {
          continue;
        }
        r := CheckOptDeps(p.value);
        if r.Some? {
          return;
        }
      }
    }

    method CheckOptDeps(e: Option<Expr>) returns (r: Option<Symbol>)
      requires Closed(table) && Valid(table, View())
      requires OptSymbols(e) <= Allowed(table, stack) * table.Keys
      modifies this
      ensures Searched(table, old(View()), View(), OptSymbols(e), r)
      decreases table.Keys - checked, 1, e
    {
      if e.None? {
        return None;
      }
      r := CheckExprDeps(e.value);
    }

    method CheckExprDeps(e: Expr) returns (r: Option<Symbol>)
      requires Closed(table) && Valid(table, View())
      requires ExprSymbols(e) <= Allowed(table, stack) * table.Keys
      modifies this
      ensures Searched(table, old(View()), View(), ExprSymbols(e), r)
      decreases table.Keys - checked, 1, e
    {
      match e
      case Or(a, b) =>
        r := CheckExprDeps(a);
        if r.None? {
          ghost var s := View();
          r := CheckExprDeps(b);
          SearchedBoth(table, old(View()), s, View(), ExprSymbols(a), ExprSymbols(b), r);
        }
      case And(a, b) =>
        r := CheckExprDeps(a);
        if r.None? {
          ghost var s := View();
          r := CheckExprDeps(b);
          SearchedBoth(table, old(View()), s, View(), ExprSymbols(a), ExprSymbols(b), r);
        }
      case Not(x) =>
        r := CheckExprDeps(x);
      case Equal(a, b) =>
        r := CheckDeps(a);
        if r.None? {
          ghost var s := View();
          r := CheckDeps(b);
          SearchedBoth(table, old(View()), s, View(), {a}, {b}, r);
        }
      case Unequal(a, b) =>
        r := CheckDeps(a);
        if r.None? {
          ghost var s := View();
          r := CheckDeps(b);
          SearchedBoth(table, old(View()), s, View(), {a}, {b}, r);
        }
      case Sym(s) =>
        r := CheckDeps(s);
    }
  }

  // Symbols that depend on nothing can be put anywhere.
  lemma {:induction false} CompleteOrder(t: Table, order: seq<Symbol>) returns (all: seq<Symbol>)
    requires Topological(t, order) && Elements(order) <= t.Keys
    requires forall s :: s in t && s !in Elements(order) ==> Deps(t, s) == {}
    ensures Topological(t, all) && Elements(all) == t.Keys && order <= all
    decreases t.Keys - Elements(order)
  {
    if s :| s in t && s !in Elements(order) {
      var more := order + [s];
      assert more[..|order|] == order;
      all := CompleteOrder(t, more);
    } else {
      all := order;
    }
  }

  /** The check of all symbols after parsing. A recursive dependency is printed if and only if there is one,
      and what is printed is one; if there is none, every symbol is finished after all it depends on. But the
      answers never say so: the count of errors stays at zero. */
  method CheckAll(table: Table, symbols: seq<Symbol>)
    returns (errors: int, reports: seq<seq<Symbol>>, ghost finished: seq<Symbol>, ghost order: seq<Symbol>)
    requires Closed(table) && (forall s :: s in symbols ==> s in table)
    requires forall s :: s in table && s !in symbols ==> Deps(table, s) == {}
    ensures reports == [] <==> Acyclic(table)
    ensures AllCycles(table, reports)
    ensures reports == [] ==> Topological(table, finished) && (forall s :: s in symbols ==> s in Elements(finished))
    ensures reports == [] ==> Topological(table, order) && Elements(order) == table.Keys && finished <= order
    ensures errors == 0
  {
    var checker := new Checker(table);
    errors := 0;
    for i := 0 to |symbols|
      invariant Valid(table, checker.View()) && checker.table == table && checker.stack == []
      invariant checker.reports == [] ==> forall s :: s in symbols[..i] ==> s in Elements(checker.finished)
      invariant errors == 0
    {
      var r := checker.CheckDeps(symbols[i]);
      errors := if r.Some? then errors + 1 else errors;
    }
    reports, finished := checker.reports, checker.finished;
    if reports == [] {
      assert symbols[..|symbols|] == symbols;
      OrderMeansAcyclic(table, checker.finished);
      order := CompleteOrder(table, checker.finished);
    } else {
      order := [];
      assert reports[0] in reports;
    }
  }
}
