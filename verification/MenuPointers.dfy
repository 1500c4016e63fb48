/**
 The menu entries as they lie in memory, linked by `next`, `list` and `parent`; finalising them in
 place, and walking over them without a stack.
 */
module MenuPointers {
  import opened Wrappers
  import opened MenuForest

  type Ptr = Option<Id>

  /** The three pointer fields of all entries. */
  datatype Links = Links(next: map<Id, Ptr>, list: map<Id, Ptr>, parent: map<Id, Ptr>)

  predicate Has(h: Links, x: Id) {
    x in h.next && x in h.list && x in h.parent
  }

  /** From `first` to `end` the entries are linked as the forest says, with `up` above them. */
  predicate Linked(h: Links, f: Forest, first: Ptr, up: Ptr, end: Ptr) {
    match f
    case End => first == end
    case Entry(id, kids, next) =>
      && first == Some(id)
      && Has(h, id)
      && h.parent[id] == up
      && Linked(h, kids, h.list[id], Some(id), None)
      && Linked(h, next, h.next[id], up, end)
  }

  predicate Same(h: Links, h': Links, x: Id) {
    Has(h, x) ==> Has(h', x) && h'.next[x] == h.next[x] && h'.list[x] == h.list[x] && h'.parent[x] == h.parent[x]
  }

  // Nothing changed except at the entries in `ids`.
  ghost predicate SameOutside(h: Links, h': Links, ids: set<Id>) {
    forall x :: x !in ids ==> Same(h, h', x)
  }

  lemma {:induction false} LinkedFrame(h: Links, h': Links, f: Forest, first: Ptr, up: Ptr, end: Ptr)
    requires Linked(h, f, first, up, end)
    requires forall x :: x in Ids(f) ==> Same(h, h', x)
    ensures Linked(h', f, first, up, end)
  {
    if f.Entry? {
      assert f.id in Ids(f) && Same(h, h', f.id);
      LinkedFrame(h, h', f.kids, h.list[f.id], Some(f.id), None);
      LinkedFrame(h, h', f.next, h.next[f.id], up, end);
    }
  }

  lemma {:induction false} LinkedAppend(h: Links, f: Forest, g: Forest, first: Ptr, up: Ptr, mid: Ptr, end: Ptr)
    requires Linked(h, f, first, up, mid) && Linked(h, g, mid, up, end)
    ensures Linked(h, Append(f, g), first, up, end)
  {
    if f.Entry? {
      LinkedAppend(h, f.next, g, h.next[f.id], up, mid, end);
    }
  }

  // One entry, by itself.
  function Single(id: Id, kids: Forest): Forest {
    Entry(id, kids, End)
  }

  lemma {:induction false} LinkedSnoc(h: Links, f: Forest, first: Ptr, up: Ptr, id: Id, kids: Forest)
    requires Linked(h, f, first, up, Some(id))
    requires Has(h, id) && h.parent[id] == up && Linked(h, kids, h.list[id], Some(id), None)
    ensures Linked(h, Append(f, Single(id, kids)), first, up, h.next[id])
  {
    LinkedAppend(h, f, Single(id, kids), first, up, Some(id), h.next[id]);
  }

  // The last entry at the top of a list.
  function LastHead(f: Forest): Id
    requires f.Entry?
  {
    if f.next.End? then f.id else LastHead(f.next)
  }

  lemma {:induction false} LastHeadIn(f: Forest)
    requires f.Entry?
    ensures LastHead(f) in Ids(f)
  {
    if f.next.Entry? {
      LastHeadIn(f.next);
    }
  }

  lemma {:induction false} LastHeadAppend(f: Forest, g: Forest)
    requires g.Entry?
    ensures Append(f, g).Entry? && LastHead(Append(f, g)) == LastHead(g)
  {
    if f.Entry? {
      LastHeadAppend(f.next, g);
    }
  }

  // Where a list goes on is decided by its last entry.
  lemma {:induction false} LinkedRetarget(h: Links, f: Forest, first: Ptr, up: Ptr, end: Ptr, end': Ptr)
    requires Linked(h, f, first, up, end) && f.Entry? && Distinct(f)
    ensures Has(h, LastHead(f)) && h.next[LastHead(f)] == end
    ensures Linked(h.(next := h.next[LastHead(f) := end']), f, first, up, end')
  {
    var h' := h.(next := h.next[LastHead(f) := end']);
    if f.next.End? {
      assert Linked(h', f.kids, h.list[f.id], Some(f.id), None) by {
        LinkedFrame(h, h', f.kids, h.list[f.id], Some(f.id), None);
      }
    } else {
      LinkedRetarget(h, f.next, h.next[f.id], up, end, end');
      LastHeadIn(f.next);
      LinkedFrame(h, h', f.kids, h.list[f.id], Some(f.id), None);
    }
  }

  lemma SameOutsideTrans(h: Links, h': Links, h'': Links, a: set<Id>, b: set<Id>, all: set<Id>)
    requires SameOutside(h, h', a) && SameOutside(h', h'', b) && a <= all && b <= all
    ensures SameOutside(h, h'', all)
  {
    forall x | x !in all
      ensures Same(h, h'', x)
    {
      assert Same(h, h', x) && Same(h', h'', x);
    }
  }

  lemma {:induction false} LinkedOutside(h: Links, h': Links, ids: set<Id>, f: Forest, first: Ptr, up: Ptr, end: Ptr)
    requires Linked(h, f, first, up, end) && SameOutside(h, h', ids) && Ids(f) !! ids
    ensures Linked(h', f, first, up, end)
  {
    LinkedFrame(h, h', f, first, up, end);
  }

  // ----- going over a list -----

  /** A list from `first` on, of which the entries before `cur` are done. The done ones are below `up`,
      the others still below `oldUp`. */
  ghost predicate Divided(h: Links, done: Forest, todo: Forest, first: Ptr, cur: Ptr, up: Ptr, oldUp: Ptr,
                          ids: set<Id>) {
    && Linked(h, done, first, up, cur) && Linked(h, todo, cur, oldUp, None)
    && Distinct(done) && Distinct(todo) && Ids(done) !! Ids(todo) && Ids(done) + Ids(todo) == ids
  }

  /** One step: the first entry still to do was rewritten to `g` and is now below `up`. */
  lemma {:induction false} DividedStep(h: Links, h': Links, h'': Links, done: Forest, todo: Forest, g: Forest,
                                       first: Ptr, up: Ptr, oldUp: Ptr, ids: set<Id>)
    requires todo.Entry? && Divided(h, done, todo, first, Some(todo.id), up, oldUp, ids)
    requires g.Entry? && Linked(h', g, Some(todo.id), oldUp, None) && Preorder(g) == Preorder(todo)
    requires SameOutside(h, h', Ids(todo))
    requires Has(h', g.id) && h'' == h'.(parent := h'.parent[g.id := up])
    ensures Divided(h'', Append(done, Single(g.id, g.kids)), g.next, first, h''.next[g.id], up, oldUp, ids)
    ensures SameOutside(h, h'', Ids(todo))
  {
    SameOrderSameIds(todo, g);
    LinkedOutside(h, h', Ids(todo), done, first, up, Some(g.id));
    LinkedOutside(h', h'', {g.id}, done, first, up, Some(g.id));
    LinkedOutside(h', h'', {g.id}, g.kids, h'.list[g.id], Some(g.id), None);
    LinkedOutside(h', h'', {g.id}, g.next, h'.next[g.id], oldUp, None);
    LinkedSnoc(h'', done, first, up, g.id, g.kids);
    DistinctAppend(done, Single(g.id, g.kids));
    SameOutsideTrans(h, h', h'', Ids(todo), {g.id}, Ids(todo));
  }

  /** The pulled entries `done` become the list below `m`, and the entries `todo` what is behind it. */
  lemma {:induction false} CutBehind(h: Links, done: Forest, todo: Forest, m: Id, cur: Ptr, up: Ptr, ids: set<Id>)
    requires Has(h, m) && m !in ids && done.Entry?
    requires Divided(h, done, todo, h.next[m], cur, Some(m), up, ids)
    ensures Has(h, LastHead(done)) && LastHead(done) in ids
    ensures var last := LastHead(done);
            var h' := Links(h.next[m := h.next[last]][last := None], h.list[m := h.next[m]], h.parent);
            && Linked(h', done, h'.list[m], Some(m), None) && Linked(h', todo, h'.next[m], up, None)
            && SameOutside(h, h', {m} + ids)
  {
    var last := LastHead(done);
    LastHeadIn(done);
    LinkedRetarget(h, done, h.next[m], Some(m), cur, None);
    var h1 := h.(next := h.next[last := None]);
    var h' := Links(h.next[m := h.next[last]][last := None], h.list[m := h.next[m]], h.parent);
    LinkedOutside(h1, h', {m}, done, h.next[m], Some(m), None);
    LinkedOutside(h, h', {m, last}, todo, cur, up, None);
  }

  /** The children of the first entry of `f`, all below `m` already, are put behind it. */
  lemma {:induction false} HookBehind(h: Links, f: Forest, m: Id)
    requires f.Entry? && f.kids.Entry? && Distinct(f) && Has(h, f.id) && h.parent[f.id] == Some(m)
    requires Linked(h, f.kids, h.list[f.id], Some(m), None) && Linked(h, f.next, h.next[f.id], Some(m), None)
    ensures Has(h, LastHead(f.kids))
    ensures var last, c := LastHead(f.kids), f.id;
            var h' := Links(h.next[last := h.next[c]][c := h.list[c]], h.list[c := None], h.parent);
            && Linked(h', Entry(c, End, Append(f.kids, f.next)), Some(c), Some(m), None)
            && SameOutside(h, h', Ids(f))
  {
    var last, c := LastHead(f.kids), f.id;
    LastHeadIn(f.kids);
    LinkedRetarget(h, f.kids, h.list[c], Some(m), None, h.next[c]);
    var h1 := h.(next := h.next[last := h.next[c]]);
    var h' := Links(h.next[last := h.next[c]][c := h.list[c]], h.list[c := None], h.parent);
    LinkedOutside(h1, h', {c}, f.kids, h.list[c], Some(m), h.next[c]);
    LinkedOutside(h, h', {c, last}, f.next, h.next[c], Some(m), None);
    LinkedAppend(h', f.kids, f.next, h.list[c], Some(m), h.next[c], None);
  }

  lemma OrderOfGather(before: seq<Id>, f: Forest, now: seq<Id>, left: Forest)
    requires f.Entry?
    requires || (now == before + [f.id] + Preorder(f.kids) && left == f.next)
             || (f.kids.End? && now + Preorder(left) == before + [f.id] + Preorder(f.next))
    ensures now + Preorder(left) == before + Preorder(f)
  {}

  // ----- walking without a stack -----

  /** An entry above the current one, and the entries behind it. */
  datatype Level = Level(above: Id, behind: Forest)

  function Above(outer: seq<Level>): Ptr {
    if outer == [] then None else Some(outer[0].above)
  }

  predicate LevelsLinked(h: Links, outer: seq<Level>) {
    outer == [] ||
    (&& Has(h, outer[0].above)
     && h.parent[outer[0].above] == Above(outer[1..])
     && Linked(h, outer[0].behind, h.next[outer[0].above], Above(outer[1..]), None)
     && LevelsLinked(h, outer[1..]))
  }

  // What is still to be visited above the current list.
  function Outside(outer: seq<Level>): seq<Id> {
    if outer == [] then [] else Preorder(outer[0].behind) + Outside(outer[1..])
  }

  /** The walk is at the first entry of `todo`, with `outer` above it. */
  predicate Position(h: Links, menu: Ptr, todo: Forest, outer: seq<Level>) {
    menu.Some? && Linked(h, todo, menu, Above(outer), None) && LevelsLinked(h, outer)
  }

  // What is still to be visited, with the walk at `menu`.
  function Left(menu: Ptr, todo: Forest, outer: seq<Level>): seq<Id> {
    if menu.None? then [] else Preorder(todo) + Outside(outer)
  }

  lemma StartOfWalk(h: Links, root: Id, kids: Forest)
    requires Linked(h, Entry(root, kids, End), Some(root), None, None)
    ensures var menu, outer := h.list[root], [Level(root, End)];
            && (menu.Some? ==> Position(h, menu, kids, outer))
            && Left(menu, kids, outer) == Preorder(kids)
  {
    var outer := [Level(root, End)];
    assert outer[1..] == [] && Outside(outer) == [];
  }

  lemma VisitNext(visited: seq<Id>, m: Id, rest: seq<Id>, left: seq<Id>)
    requires [m] + rest == left
    ensures (visited + [m]) + rest == visited + left
  {}

  // ----- finalising in place -----

  class Menus {
    var next: map<Id, Ptr>
    var list: map<Id, Ptr>
    var parent: map<Id, Ptr>
    const rules: Rules
    // The entries on which finalising was called, in the order of the calls.
    ghost var finalized: seq<Id>

    ghost function View(): Links
      reads this
    {
      Links(next, list, parent)
    }

    /** Finalising the entry `m`, which starts the list `f`. */
    method Finalize(m: Id, ghost f: Forest, ghost up: Ptr)
      requires f.Entry? && Distinct(f) && Linked(View(), f, Some(m), up, None)
      modifies this
      ensures Linked(View(), FinalizeHead(rules, f), Some(m), up, None)
      ensures SameOutside(old(View()), View(), Ids(f))
      ensures finalized + Preorder(FinalizeHead(rules, f).next) == old(finalized) + Preorder(f)
      decreases Count(f), 1
    {
      GatherBelow(m, f, up);
      ghost var h, g := View(), Gather(rules, f);
      GatherKeepsOrder(rules, f);
      SameOrderSameIds(f, g);
      SplicePromptless(m, g.kids);
      assert Same(h, View(), m);
      LinkedOutside(h, View(), Ids(g.kids), g.next, next[m], up, None);
      SameOutsideTrans(old(View()), h, View(), Ids(f), Ids(g.kids), Ids(f));
    }

    // The first part of finalising `m`.
    method GatherBelow(m: Id, ghost f: Forest, ghost up: Ptr)
      requires f.Entry? && Distinct(f) && Linked(View(), f, Some(m), up, None)
      modifies this
      ensures Linked(View(), Gather(rules, f), Some(m), up, None)
      ensures SameOutside(old(View()), View(), Ids(f))
      ensures finalized + Preorder(Gather(rules, f).next) == old(finalized) + Preorder(f)
      decreases Count(f), 0
    {
      finalized := finalized + [m];
      if list[m].Some? {
        FinalizeKids(m, f.kids);
        assert Same(old(View()), View(), m);
        LinkedOutside(old(View()), View(), Ids(f.kids), f.next, next[m], up, None);
      } else if rules.hasSym(m) {
        AbsorbSiblings(m, f.next, up);
      }
      OrderOfGather(old(finalized), f, finalized, Gather(rules, f).next);
    }

    /** Finalising the entries of the list below `m` one after the other. */
    method FinalizeKids(m: Id, ghost kids: Forest)
      requires Has(View(), m) && m !in Ids(kids) && Distinct(kids)
      requires Linked(View(), kids, list[m], Some(m), None)
      modifies this
      ensures Has(View(), m) && Linked(View(), FinalizeAll(rules, kids), list[m], Some(m), None)
      ensures SameOutside(old(View()), View(), Ids(kids))
      ensures finalized == old(finalized) + Preorder(kids)
      decreases Count(kids), 2
    {
      var c := list[m];
      ghost var done, todo := End, kids;
      while c.Some?
        invariant Same(old(View()), View(), m)
        invariant Divided(View(), done, todo, list[m], c, Some(m), Some(m), Ids(kids))
        invariant Append(done, FinalizeAll(rules, todo)) == FinalizeAll(rules, kids)
        invariant SameOutside(old(View()), View(), Ids(kids))
        invariant finalized + Preorder(todo) == old(finalized) + Preorder(kids)
        invariant Count(todo) <= Count(kids)
        decreases Count(todo)
      {
        ghost var h, g := View(), FinalizeHead(rules, todo);
        Finalize(c.value, todo, Some(m));
        assert Same(h, View(), m);
        FinalizeHeadKeepsOrder(rules, todo);
        assert parent == parent[g.id := Some(m)];
        DividedStep(h, View(), View(), done, todo, g, list[m], Some(m), Some(m), Ids(kids));
        SameOutsideTrans(old(View()), h, View(), Ids(kids), Ids(todo), Ids(kids));
        AppendAssoc(done, Single(g.id, g.kids), FinalizeAll(rules, g.next));
        done, todo := Append(done, Single(g.id, g.kids)), g.next;
        c := next[c.value];
      }
      AppendEnd(done);
    }

    /** Pulling the entries behind `m` below it, as long as the tests say so. */
    method AbsorbSiblings(m: Id, ghost rest: Forest, ghost up: Ptr)
      requires Has(View(), m) && m !in Ids(rest) && Distinct(rest) && list[m] == None
      requires Linked(View(), rest, next[m], up, None)
      modifies this
      ensures Has(View(), m) && parent[m] == old(parent)[m]
      ensures Linked(View(), Absorb(rules, m, rest).0, list[m], Some(m), None)
      ensures Linked(View(), Absorb(rules, m, rest).1, next[m], up, None)
      ensures SameOutside(old(View()), View(), {m} + Ids(rest))
      ensures finalized + Preorder(Absorb(rules, m, rest).1) == old(finalized) + Preorder(rest)
      decreases Count(rest), 4
    {
      var last := PullSiblings(m, rest, up);
      if last.Some? {
        ghost var h := View();
        CutBehind(h, Absorb(rules, m, rest).0, Absorb(rules, m, rest).1, m, next[last.value], up, Ids(rest));
        list := list[m := next[m]];
        next := next[m := next[last.value]];
        next := next[last.value := None];
        SameOutsideTrans(old(View()), h, View(), Ids(rest), {m} + Ids(rest), {m} + Ids(rest));
      }
    }

    // One entry behind `m` is finalised and put below it.
    method PullEntry(c: Id, m: Id, ghost done: Forest, ghost todo: Forest, ghost up: Ptr, ghost ids: set<Id>)
      requires Has(View(), m) && m !in ids && todo.Entry?
      requires Divided(View(), done, todo, next[m], Some(c), Some(m), up, ids)
      modifies this
      ensures Same(old(View()), View(), m) && c in next
      ensures var g := FinalizeHead(rules, todo);
              Divided(View(), Append(done, Single(g.id, g.kids)), g.next, next[m], next[c], Some(m), up, ids)
      ensures SameOutside(old(View()), View(), Ids(todo))
      ensures finalized + Preorder(FinalizeHead(rules, todo).next) == old(finalized) + Preorder(todo)
      decreases Count(todo), 2
    {
      ghost var g := FinalizeHead(rules, todo);
      Finalize(c, todo, up);
      assert Same(old(View()), View(), m);
      FinalizeHeadKeepsOrder(rules, todo);
      ghost var h := View();
      parent := parent[c := Some(m)];
      DividedStep(old(View()), h, View(), done, todo, g, next[m], Some(m), up, ids);
    }

    // The loop over the entries behind `m`; the last one pulled, if any.
    method PullSiblings(m: Id, ghost rest: Forest, ghost up: Ptr) returns (last: Ptr)
      requires Has(View(), m) && m !in Ids(rest) && Distinct(rest)
      requires Linked(View(), rest, next[m], up, None)
      modifies this
      ensures Same(old(View()), View(), m)
      ensures last.None? ==>
                Absorb(rules, m, rest).0.End? && Linked(View(), Absorb(rules, m, rest).1, next[m], up, None)
      ensures last.Some? ==>
                && Absorb(rules, m, rest).0.Entry? && last.value == LastHead(Absorb(rules, m, rest).0)
                && last.value in next
                && Divided(View(), Absorb(rules, m, rest).0, Absorb(rules, m, rest).1, next[m], next[last.value],
                           Some(m), up, Ids(rest))
      ensures SameOutside(old(View()), View(), Ids(rest))
      ensures finalized + Preorder(Absorb(rules, m, rest).1) == old(finalized) + Preorder(rest)
      decreases Count(rest), 3
    {
      var c := next[m];
      last := None;
      ghost var done, todo := End, rest;
      while c.Some? && rules.pulls(m, c.value)
        invariant Same(old(View()), View(), m)
        invariant Divided(View(), done, todo, next[m], c, Some(m), up, Ids(rest))
        invariant Absorb(rules, m, rest) == (Append(done, Absorb(rules, m, todo).0), Absorb(rules, m, todo).1)
        invariant SameOutside(old(View()), View(), Ids(rest))
        invariant finalized + Preorder(todo) == old(finalized) + Preorder(rest)
        invariant if done.End? then last == None
                  else last == Some(LastHead(done)) && last.value in next && next[last.value] == c
        invariant Count(todo) <= Count(rest)
        decreases Count(todo)
      {
        ghost var h, g := View(), FinalizeHead(rules, todo);
        PullEntry(c.value, m, done, todo, up, Ids(rest));
        SameOutsideTrans(old(View()), h, View(), Ids(rest), Ids(todo), Ids(rest));
        AppendAssoc(done, Single(g.id, g.kids), Absorb(rules, m, g.next).0);
        LastHeadAppend(done, Single(g.id, g.kids));
        done, todo := Append(done, Single(g.id, g.kids)), g.next;
        last := c;
        c := next[c.value];
      }
      AppendEnd(done);
    }

    /** Going over the list below `m`, moving the children of entries without a prompt text up into it. */
    method SplicePromptless(m: Id, ghost kids: Forest)
      requires Has(View(), m) && m !in Ids(kids) && Distinct(kids)
      requires Linked(View(), kids, list[m], Some(m), None)
      modifies this
      ensures Has(View(), m) && Linked(View(), Splice(rules, kids), list[m], Some(m), None)
      ensures SameOutside(old(View()), View(), Ids(kids))
      ensures finalized == old(finalized)
      decreases Count(kids), 0
    {
      var c := list[m];
      ghost var done, todo := End, kids;
      while c.Some?
        invariant Same(old(View()), View(), m)
        invariant Divided(View(), done, todo, list[m], c, Some(m), Some(m), Ids(kids))
        invariant Append(done, Splice(rules, todo)) == Splice(rules, kids)
        invariant SameOutside(old(View()), View(), Ids(kids))
        invariant finalized == old(finalized)
        decreases Count(todo)
      {
        ghost var h := View();
        ghost var g := SpliceEntry(c.value, m, todo);
        assert Same(h, View(), m);
        assert parent == parent[g.id := Some(m)];
        DividedStep(h, View(), View(), done, todo, g, list[m], Some(m), Some(m), Ids(kids));
        SameOutsideTrans(old(View()), h, View(), Ids(kids), Ids(todo), Ids(kids));
        AppendAssoc(done, Single(g.id, g.kids), Splice(rules, g.next));
        done, todo := Append(done, Single(g.id, g.kids)), g.next;
        c := next[c.value];
      }
      AppendEnd(done);
    }

    // One entry of the list below `m`.
    method SpliceEntry(c: Id, m: Id, ghost f: Forest) returns (ghost g: Forest)
      requires f.Entry? && Distinct(f) && Linked(View(), f, Some(c), Some(m), None)
      modifies this
      ensures g == if f.kids.Entry? && !rules.titled(c) then Entry(c, End, Append(f.kids, f.next)) else f
      ensures Linked(View(), g, Some(c), Some(m), None) && Preorder(g) == Preorder(f)
      ensures SameOutside(old(View()), View(), Ids(f))
      ensures finalized == old(finalized)
    {
      g := f;
      assert Linked(View(), f.kids, list[c], Some(c), None);
      if list[c].Some? && !rules.titled(c) {
        MoveKidsUp(c, m, f);
        g := Entry(c, End, Append(f.kids, f.next));
        PreorderAppend(f.kids, f.next);
      }
    }

    /** Moving the children of `c`, the first entry of the list `f` below `m`, up behind it. */
    method MoveKidsUp(c: Id, m: Id, ghost f: Forest)
      requires f.Entry? && f.kids.Entry? && Distinct(f) && Linked(View(), f, Some(c), Some(m), None)
      modifies this
      ensures Linked(View(), Entry(c, End, Append(f.kids, f.next)), Some(c), Some(m), None)
      ensures SameOutside(old(View()), View(), Ids(f))
      ensures finalized == old(finalized)
    {
      var last := list[c].value;
      ghost var one := Single(f.kids.id, f.kids.kids);
      ghost var done, todo, h := one, f.kids.next, View();
      parent := parent[last := Some(m)];
      DividedStep(h, h, View(), End, f.kids, f.kids, list[c], Some(m), Some(c), Ids(f.kids));
      while next[last].Some?
        invariant Same(old(View()), View(), c)
        invariant done.Entry? && LastHead(done) == last && last in next
        invariant Divided(View(), done, todo, list[c], next[last], Some(m), Some(c), Ids(f.kids))
        invariant Append(done, todo) == f.kids
        invariant SameOutside(old(View()), View(), Ids(f.kids))
        invariant finalized == old(finalized)
        decreases Count(todo)
      {
        h := View();
        last := next[last].value;
        parent := parent[last := Some(m)];
        one := Single(todo.id, todo.kids);
        DividedStep(h, h, View(), done, todo, todo, list[c], Some(m), Some(c), Ids(f.kids));
        SameOutsideTrans(old(View()), h, View(), Ids(f.kids), Ids(todo), Ids(f.kids));
        AppendAssoc(done, one, todo.next);
        LastHeadAppend(done, one);
        done, todo := Append(done, one), todo.next;
      }
      AppendEnd(done);
      h := View();
      LinkedOutside(old(View()), h, Ids(f.kids), f.next, next[c], Some(m), None);
      HookBehind(h, f, m);
      next := next[last := next[c]];
      next := next[c := list[c]];
      list := list[c := None];
      SameOutsideTrans(old(View()), h, View(), Ids(f.kids), Ids(f), Ids(f));
    }

    /** The walk over all entries below the root that writing a configuration makes. It meets every entry
        once, in order. */
    method Walk(root: Id, ghost kids: Forest) returns (visited: seq<Id>)
      requires Linked(View(), Entry(root, kids, End), Some(root), None, None)
      ensures visited == Preorder(kids)
    {
      visited := [];
      var menu := list[root];
      ghost var todo, outer := kids, [Level(root, End)];
      StartOfWalk(View(), root, kids);
      while menu.Some?
        invariant menu.Some? ==> Position(View(), menu, todo, outer)
        invariant visited + Left(menu, todo, outer) == Preorder(kids)
        decreases |Preorder(kids)| - |visited|
      {
        var m := menu.value;
        ghost var left, before := Left(menu, todo, outer), visited;
        visited := visited + [m];
        menu, todo, outer := Advance(m, todo, outer);
        VisitNext(before, m, Left(menu, todo, outer), left);
      }
    }

    // From one entry to the next: down, else on, else up.
    method Advance(m: Id, ghost todo: Forest, ghost outer: seq<Level>)
      returns (menu: Ptr, ghost todo': Forest, ghost outer': seq<Level>)
      requires Position(View(), Some(m), todo, outer)
      ensures menu.Some? ==> Position(View(), menu, todo', outer')
      ensures [m] + Left(menu, todo', outer') == Left(Some(m), todo, outer)
    {
      assert Linked(View(), todo.kids, list[m], Some(m), None)
             && Linked(View(), todo.next, next[m], Above(outer), None);
      if list[m].Some? {
        menu, todo', outer' := list[m], todo.kids, [Level(m, todo.next)] + outer;
        assert outer'[1..] == outer && Outside(outer') == Preorder(todo.next) + Outside(outer);
      } else if next[m].Some? {
        menu, todo', outer' := next[m], todo.next, outer;
        assert Preorder(todo) == [m] + Preorder(todo.next);
      } else {
        assert Preorder(todo) == [m];
        menu, todo', outer' := Climb(m, outer);
      }
    }

    // Up to the first entry above that has one behind it.
    method Climb(m: Id, ghost outer: seq<Level>) returns (menu: Ptr, ghost todo: Forest, ghost outer': seq<Level>)
      requires Has(View(), m) && parent[m] == Above(outer) && LevelsLinked(View(), outer)
      ensures menu.Some? ==> Position(View(), menu, todo, outer')
      ensures Left(menu, todo, outer') == Outside(outer)
    {
      menu, todo, outer' := parent[m], End, outer;
      while menu.Some? && next[menu.value].None?
        invariant menu == Above(outer') && LevelsLinked(View(), outer')
        invariant Outside(outer') == Outside(outer)
        decreases |outer'|
      {
        assert outer'[0].behind == End;
        menu := parent[menu.value];
        outer' := outer'[1..];
      }
      if menu.Some? {
        menu, todo, outer' := next[menu.value], outer'[0].behind, outer'[1..];
      }
    }

    /** Finalising all menus and then walking over them: every entry is finalised once and visited once,
        both in the order in which the entries were declared. */
    method FinalizeAndWalk(root: Id, ghost kids: Forest) returns (visited: seq<Id>)
      requires Distinct(Entry(root, kids, End)) && Linked(View(), Entry(root, kids, End), Some(root), None, None)
      modifies this
      ensures visited == Preorder(kids)
      ensures finalized == old(finalized) + [root] + Preorder(kids)
      ensures exists f :: Distinct(f) && Preorder(f) == Preorder(kids) && NoUntitledParents(rules, f)
                          && Linked(View(), Entry(root, f, End), Some(root), None, None)
    {
      ghost var f := Entry(root, kids, End);
      Finalize(root, f, None);
      ghost var g := FinalizeHead(rules, f);
      assert finalized == finalized + Preorder(g.next);
      FinalizeHeadKeepsOrder(rules, f);
      FinalizeHeadTitles(rules, f);
      SameOrderSameIds(f, g);
      assert g == Entry(root, g.kids, End);
      assert Preorder(f) == [root] + Preorder(kids) && Preorder(g) == [root] + Preorder(g.kids);
      assert Preorder(kids) == Preorder(f)[1..] && Preorder(g.kids) == Preorder(g)[1..];
      visited := Walk(root, g.kids);
    }
  }
}
