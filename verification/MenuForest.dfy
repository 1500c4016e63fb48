/**
 Menu entries as trees, and what finalising a menu does to them: entries that depend on the one
 before them move below it, and the children of an entry without a prompt move up beside it.
 */
module MenuForest {
  type Id = nat

  /** A list of entries: the first one, the list below it, and the list behind it. */
  datatype Forest = End | Entry(id: Id, kids: Forest, next: Forest)

  // Number of entries, at all depths.
  function Count(f: Forest): nat {
    match f
    case End => 0
    case Entry(_, kids, next) => 1 + Count(kids) + Count(next)
  }

  // Entries in the order in which a reader of the menus meets them.
  function Preorder(f: Forest): seq<Id> {
    match f
    case End => []
    case Entry(id, kids, next) => [id] + Preorder(kids) + Preorder(next)
  }

  function Append(f: Forest, g: Forest): (r: Forest)
    ensures Count(r) == Count(f) + Count(g)
  {
    match f
    case End => g
    case Entry(id, kids, next) => Entry(id, kids, Append(next, g))
  }

  lemma {:induction false} PreorderAppend(f: Forest, g: Forest)
    ensures Preorder(Append(f, g)) == Preorder(f) + Preorder(g)
  {
    if f.Entry? {
      PreorderAppend(f.next, g);
    }
  }

  /** What decides the moves: whether an entry has a symbol, whether it has a prompt text, and whether
      the second entry is pulled below the first. */
  datatype Rules = Rules(hasSym: Id -> bool, titled: Id -> bool, pulls: (Id, Id) -> bool)

  // The children of untitled entries, moved up behind them.
  function Splice(rules: Rules, f: Forest): Forest
    decreases Count(f)
  {
    if f.End? then End
    else if f.kids.Entry? && !rules.titled(f.id) then
      Entry(f.id, End, Splice(rules, Append(f.kids, f.next)))
    else
      Entry(f.id, f.kids, Splice(rules, f.next))
  }

  /** Finalising the first entry of a list: what is below it and behind it afterwards. */
  function FinalizeHead(rules: Rules, f: Forest): (r: Forest)
    requires f.Entry?
    ensures r.Entry? && r.id == f.id && Count(r.next) <= Count(f.next)
    decreases Count(f), 1
  {
    var g := Gather(rules, f);
    Entry(g.id, Splice(rules, g.kids), g.next)
  }

  // The first part: its children are finalised, or if it has none the entries behind it are tried.
  function Gather(rules: Rules, f: Forest): (r: Forest)
    requires f.Entry?
    ensures r.Entry? && r.id == f.id && Count(r.next) <= Count(f.next)
    decreases Count(f), 0
  {
    if f.kids.Entry? then
      Entry(f.id, FinalizeAll(rules, f.kids), f.next)
    else if rules.hasSym(f.id) then
      var (pulled, rest) := Absorb(rules, f.id, f.next);
      Entry(f.id, pulled, rest)
    else
      f
  }

  function FinalizeAll(rules: Rules, f: Forest): Forest
    decreases Count(f), 2
  {
    if f.End? then End
    else
      var g := FinalizeHead(rules, f);
      Entry(g.id, g.kids, FinalizeAll(rules, g.next))
  }

  // The entries pulled below `p`, each finalised, and the entries left.
  function Absorb(rules: Rules, p: Id, f: Forest): (r: (Forest, Forest))
    ensures Count(r.1) <= Count(f)
    decreases Count(f), 2
  {
    if f.End? || !rules.pulls(p, f.id) then (End, f)
    else
      var g := FinalizeHead(rules, f);
      var (more, rest) := Absorb(rules, p, g.next);
      (Entry(g.id, g.kids, more), rest)
  }

  // ----- the order of entries never changes -----

  lemma {:induction false} SpliceKeepsOrder(rules: Rules, f: Forest)
    ensures Preorder(Splice(rules, f)) == Preorder(f)
    decreases Count(f)
  {
    if f.Entry? {
      if f.kids.Entry? && !rules.titled(f.id) {
        PreorderAppend(f.kids, f.next);
        SpliceKeepsOrder(rules, Append(f.kids, f.next));
      } else {
        SpliceKeepsOrder(rules, f.next);
      }
    }
  }

  /** Whatever the tests answer, finalising keeps the order in which entries are met. */
  lemma {:induction false} FinalizeHeadKeepsOrder(rules: Rules, f: Forest)
    requires f.Entry?
    ensures Preorder(FinalizeHead(rules, f)) == Preorder(f)
    decreases Count(f), 1
  {
    GatherKeepsOrder(rules, f);
    SpliceKeepsOrder(rules, Gather(rules, f).kids);
  }

  lemma {:induction false} GatherKeepsOrder(rules: Rules, f: Forest)
    requires f.Entry?
    ensures Preorder(Gather(rules, f)) == Preorder(f)
    decreases Count(f), 0
  {
    if f.kids.Entry? {
      FinalizeAllKeepsOrder(rules, f.kids);
    } else if rules.hasSym(f.id) {
      AbsorbKeepsOrder(rules, f.id, f.next);
    }
  }

  lemma {:induction false} FinalizeAllKeepsOrder(rules: Rules, f: Forest)
    ensures Preorder(FinalizeAll(rules, f)) == Preorder(f)
    decreases Count(f), 2
  {
    if f.Entry? {
      FinalizeHeadKeepsOrder(rules, f);
      FinalizeAllKeepsOrder(rules, FinalizeHead(rules, f).next);
    }
  }

  lemma {:induction false} AbsorbKeepsOrder(rules: Rules, p: Id, f: Forest)
    ensures Preorder(Absorb(rules, p, f).0) + Preorder(Absorb(rules, p, f).1) == Preorder(f)
    decreases Count(f), 2
  {
    if f.Entry? && rules.pulls(p, f.id) {
      FinalizeHeadKeepsOrder(rules, f);
      AbsorbKeepsOrder(rules, p, FinalizeHead(rules, f).next);
    }
  }

  // ----- what the moves achieve -----

  // The first entry of no list, at any depth, and no entry behind it has children but no prompt text.
  predicate NoUntitledParents(rules: Rules, f: Forest) {
    match f
    case End => true
    case Entry(id, kids, next) =>
      && (kids.Entry? ==> rules.titled(id))
      && NoUntitledParents(rules, kids)
      && NoUntitledParents(rules, next)
  }

  // The same of everything below the entries of the list; they may be untitled themselves.
  predicate KidsTitled(rules: Rules, f: Forest) {
    match f
    case End => true
    case Entry(_, kids, next) => NoUntitledParents(rules, kids) && KidsTitled(rules, next)
  }

  lemma {:induction false} TitledKids(rules: Rules, f: Forest, g: Forest)
    requires NoUntitledParents(rules, f) && KidsTitled(rules, g)
    ensures KidsTitled(rules, Append(f, g))
  {
    if f.Entry? {
      TitledKids(rules, f.next, g);
    }
  }

  lemma {:induction false} SpliceTitles(rules: Rules, f: Forest)
    requires KidsTitled(rules, f)
    ensures NoUntitledParents(rules, Splice(rules, f))
    decreases Count(f)
  {
    if f.Entry? {
      if f.kids.Entry? && !rules.titled(f.id) {
        TitledKids(rules, f.kids, f.next);
        SpliceTitles(rules, Append(f.kids, f.next));
      } else {
        SpliceTitles(rules, f.next);
      }
    }
  }

  /** Below a finalised entry, every entry that has children has a prompt text. */
  lemma {:induction false} FinalizeHeadTitles(rules: Rules, f: Forest)
    requires f.Entry?
    ensures NoUntitledParents(rules, FinalizeHead(rules, f).kids)
    decreases Count(f), 0
  {
    if f.kids.Entry? {
      FinalizeAllTitles(rules, f.kids);
      SpliceTitles(rules, FinalizeAll(rules, f.kids));
    } else if rules.hasSym(f.id) {
      AbsorbTitles(rules, f.id, f.next);
      SpliceTitles(rules, Absorb(rules, f.id, f.next).0);
    }
  }

  lemma {:induction false} FinalizeAllTitles(rules: Rules, f: Forest)
    ensures KidsTitled(rules, FinalizeAll(rules, f))
    decreases Count(f), 1
  {
    if f.Entry? {
      FinalizeHeadTitles(rules, f);
      FinalizeAllTitles(rules, FinalizeHead(rules, f).next);
    }
  }

  lemma {:induction false} AbsorbTitles(rules: Rules, p: Id, f: Forest)
    ensures KidsTitled(rules, Absorb(rules, p, f).0)
    decreases Count(f), 1
  {
    if f.Entry? && rules.pulls(p, f.id) {
      FinalizeHeadTitles(rules, f);
      AbsorbTitles(rules, p, FinalizeHead(rules, f).next);
    }
  }

  // The entries at the top of a list.
  function Heads(f: Forest): set<Id> {
    match f
    case End => {}
    case Entry(id, _, next) => {id} + Heads(next)
  }

  /** Exactly the longest run of entries that the tests pull is moved; all come from the list itself. */
  lemma {:induction false} AbsorbTakesLongestRun(rules: Rules, p: Id, f: Forest)
    ensures var (pulled, rest) := Absorb(rules, p, f);
            && (forall x :: x in Heads(pulled) ==> rules.pulls(p, x))
            && (rest.Entry? ==> !rules.pulls(p, rest.id))
            && Heads(pulled) + Heads(rest) <= Heads(f)
    decreases Count(f), 1
  {
    if f.Entry? && rules.pulls(p, f.id) {
      FinalizeHeadTakesNone(rules, f);
      AbsorbTakesLongestRun(rules, p, FinalizeHead(rules, f).next);
    }
  }

  // What is behind a finalised entry was behind it before.
  lemma {:induction false} FinalizeHeadTakesNone(rules: Rules, f: Forest)
    requires f.Entry?
    ensures Heads(FinalizeHead(rules, f).next) <= Heads(f.next)
    decreases Count(f), 0
  {
    if !f.kids.Entry? && rules.hasSym(f.id) {
      AbsorbTakesLongestRun(rules, f.id, f.next);
    }
  }

  // ----- what is moved -----

  lemma SpliceKeepsSome(rules: Rules, f: Forest)
    ensures Splice(rules, f).Entry? <==> f.Entry?
  {}

  /** An entry with a symbol and no children takes the entries behind it that are pulled, and stops at the
      first that is not; an entry with children takes none, and neither does one without a symbol. */
  lemma {:induction false} FinalizeHeadPulls(rules: Rules, f: Forest)
    requires f.Entry?
    ensures var r := FinalizeHead(rules, f);
            if f.kids.Entry? then r.next == f.next && r.kids.Entry?
            else if !rules.hasSym(f.id) then r == f
            else
              && (r.kids.Entry? <==> f.next.Entry? && rules.pulls(f.id, f.next.id))
              && (r.next.Entry? ==> !rules.pulls(f.id, r.next.id))
  {
    var g := Gather(rules, f);
    SpliceKeepsSome(rules, g.kids);
    assert f.kids.Entry? ==> FinalizeAll(rules, f.kids).Entry?;
    if f.kids.End? && rules.hasSym(f.id) {
      AbsorbTakesLongestRun(rules, f.id, f.next);
    }
  }

  // Nothing of this list has to move: whatever has children has a prompt text.
  predicate TitledParents(rules: Rules, f: Forest) {
    f.End? || ((f.kids.Entry? ==> rules.titled(f.id)) && TitledParents(rules, f.next))
  }

  /** The children of titled entries stay where they are: a list changes only if some untitled entry has
      children. */
  lemma {:induction false} SpliceMovesOnlyUntitled(rules: Rules, f: Forest)
    ensures Splice(rules, f) == f <==> TitledParents(rules, f)
    decreases Count(f)
  {
    if f.Entry? {
      SpliceMovesOnlyUntitled(rules, f.next);
    }
  }

  // No entry of the list is pulled by the one before it, if that one has a symbol and no children.
  predicate NothingLeft(rules: Rules, f: Forest) {
    f.Entry? && f.next.Entry? ==>
      (f.kids.End? && rules.hasSym(f.id) ==> !rules.pulls(f.id, f.next.id)) && NothingLeft(rules, f.next)
  }

  /** In a finalised list nothing is left to be pulled. */
  lemma {:induction false} FinalizeAllPulls(rules: Rules, f: Forest)
    ensures NothingLeft(rules, FinalizeAll(rules, f))
    decreases Count(f)
  {
    if f.Entry? {
      var r := FinalizeHead(rules, f);
      FinalizeHeadPulls(rules, f);
      FinalizeAllPulls(rules, r.next);
    }
  }

  // ----- each entry once -----

  function Ids(f: Forest): set<Id> {
    match f
    case End => {}
    case Entry(id, kids, next) => {id} + Ids(kids) + Ids(next)
  }

  predicate Distinct(f: Forest) {
    match f
    case End => true
    case Entry(id, kids, next) =>
      && id !in Ids(kids) && id !in Ids(next) && Ids(kids) !! Ids(next)
      && Distinct(kids) && Distinct(next)
  }

  predicate NoDup(s: seq<Id>) {
    forall i, j :: 0 <= i < j < |s| ==> s[i] != s[j]
  }

  lemma NoDupConcat(a: seq<Id>, b: seq<Id>)
    ensures NoDup(a + b) <==> NoDup(a) && NoDup(b) && (forall x :: x in a ==> x !in b)
  {
    if NoDup(a + b) {
      forall i, j | 0 <= i < j < |a|
        ensures a[i] != a[j]
      {
        assert (a + b)[i] == a[i] && (a + b)[j] == a[j];
      }
      forall i, j | 0 <= i < j < |b|
        ensures b[i] != b[j]
      {
        assert (a + b)[|a| + i] == b[i] && (a + b)[|a| + j] == b[j];
      }
      forall x | x in a
        ensures x !in b
      {
        var i :| 0 <= i < |a| && a[i] == x;
        forall j | 0 <= j < |b|
          ensures b[j] != x
        {
          assert (a + b)[i] == x && (a + b)[|a| + j] == b[j];
        }
      }
    } else {
      var i, j :| 0 <= i < j < |a + b| && (a + b)[i] == (a + b)[j];
      if i < |a| <= j {
        assert a[i] in a && a[i] == b[j - |a|];
      } else if |a| <= i {
        assert b[i - |a|] == b[j - |a|];
      }
    }
  }

  lemma {:induction false} DistinctIffNoDup(f: Forest)
    ensures forall x :: x in Ids(f) <==> x in Preorder(f)
    ensures Distinct(f) <==> NoDup(Preorder(f))
  {
    if f.Entry? {
      DistinctIffNoDup(f.kids);
      DistinctIffNoDup(f.next);
      NoDupConcat([f.id] + Preorder(f.kids), Preorder(f.next));
      NoDupConcat([f.id], Preorder(f.kids));
    }
  }

  lemma {:induction false} SameOrderSameIds(f: Forest, g: Forest)
    requires Preorder(f) == Preorder(g)
    ensures Ids(f) == Ids(g) && (Distinct(f) <==> Distinct(g))
  {
    DistinctIffNoDup(f);
    DistinctIffNoDup(g);
  }

  // ----- facts about Append -----

  lemma {:induction false} AppendEnd(f: Forest)
    ensures Append(f, End) == f
  {
    if f.Entry? {
      AppendEnd(f.next);
    }
  }

  lemma {:induction false} AppendAssoc(f: Forest, g: Forest, h: Forest)
    ensures Append(Append(f, g), h) == Append(f, Append(g, h))
  {
    if f.Entry? {
      AppendAssoc(f.next, g, h);
    }
  }

  lemma {:induction false} DistinctAppend(f: Forest, g: Forest)
    ensures Ids(Append(f, g)) == Ids(f) + Ids(g)
    ensures Distinct(Append(f, g)) <==> Distinct(f) && Distinct(g) && Ids(f) !! Ids(g)
  {
    if f.Entry? {
      DistinctAppend(f.next, g);
    }
  }
}
