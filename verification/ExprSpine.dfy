/**
 Positions in the upper part of a tree: the nodes of one connective, and the operands below them.
 The duplicate removal works with two pointers into one tree; both always point into this part.
 */
module ExprSpine {
  import opened Expressions
  import opened ExprEquality

  datatype Dir = L | R

  type Path = seq<Dir>

  // Which nodes at the top of a tree are nodes of one connective.
  datatype Shape = Tip | Fork(left: Shape, right: Shape)

  function Spine(op: Op, e: Expr): Shape {
    if IsNode(op, e) then Fork(Spine(op, e.left), Spine(op, e.right)) else Tip
  }

  function Child(s: Shape, d: Dir): Shape
    requires s.Fork?
  {
    if d == L then s.left else s.right
  }

  predicate On(s: Shape, p: Path) {
    p == [] || (s.Fork? && On(Child(s, p[0]), p[1..]))
  }

  function At(s: Shape, p: Path): Shape
    requires On(s, p)
  {
    if p == [] then s else At(Child(s, p[0]), p[1..])
  }

  function Forks(s: Shape): nat {
    match s
    case Tip => 0
    case Fork(l, r) => 1 + Forks(l) + Forks(r)
  }

  // The part of the tree that a pointer refers to.
  function Get(op: Op, e: Expr, p: Path): (x: Expr)
    requires On(Spine(op, e), p)
    ensures Spine(op, x) == At(Spine(op, e), p)
    ensures Size(x) <= Size(e) && (p != [] ==> Size(x) < Size(e))
    decreases |p|
  {
    if p == [] then e
    else if p[0] == L then Get(op, e.left, p[1..])
    else Get(op, e.right, p[1..])
  }

  // The tree after an assignment through a pointer.
  function Put(op: Op, e: Expr, p: Path, x: Expr): (r: Expr)
    requires On(Spine(op, e), p)
    ensures Size(r) == Size(e) - Size(Get(op, e, p)) + Size(x)
    ensures p != [] ==> IsNode(op, r)
    decreases |p|
  {
    if p == [] then x
    else if p[0] == L then Node(op, Put(op, e.left, p[1..], x), e.right)
    else Node(op, e.left, Put(op, e.right, p[1..], x))
  }

  lemma {:induction false} OnSnoc(s: Shape, p: Path, d: Dir)
    requires On(s, p) && At(s, p).Fork?
    ensures On(s, p + [d]) && At(s, p + [d]) == Child(At(s, p), d)
    decreases |p|
  {
    if p == [] {
      assert (p + [d])[1..] == [];
    } else {
      assert (p + [d])[1..] == p[1..] + [d];
      OnSnoc(Child(s, p[0]), p[1..], d);
    }
  }

  // Writing a new operand keeps the spine.
  lemma {:induction false} PutKeepsSpine(op: Op, e: Expr, p: Path, x: Expr)
    requires On(Spine(op, e), p) && At(Spine(op, e), p).Tip? && !IsNode(op, x)
    ensures Spine(op, Put(op, e, p, x)) == Spine(op, e)
    decreases |p|
  {
    if p != [] {
      PutKeepsSpine(op, if p[0] == L then e.left else e.right, p[1..], x);
    }
  }

  lemma {:induction false} GetPut(op: Op, e: Expr, p: Path, x: Expr)
    requires On(Spine(op, e), p) && At(Spine(op, e), p).Tip? && !IsNode(op, x)
    ensures Spine(op, Put(op, e, p, x)) == Spine(op, e)
    ensures Get(op, Put(op, e, p, x), p) == x
    decreases |p|
  {
    PutKeepsSpine(op, e, p, x);
    if p != [] {
      GetPut(op, if p[0] == L then e.left else e.right, p[1..], x);
    }
  }

  lemma {:induction false} PutGet(op: Op, e: Expr, p: Path)
    requires On(Spine(op, e), p)
    ensures Put(op, e, p, Get(op, e, p)) == e
    decreases |p|
  {
    if p != [] {
      PutGet(op, if p[0] == L then e.left else e.right, p[1..]);
    }
  }

  // Two different operands do not overlap.
  lemma {:induction false} GetPutOther(op: Op, e: Expr, p: Path, x: Expr, q: Path)
    requires On(Spine(op, e), p) && At(Spine(op, e), p).Tip? && !IsNode(op, x)
    requires On(Spine(op, e), q) && At(Spine(op, e), q).Tip? && p != q
    ensures Spine(op, Put(op, e, p, x)) == Spine(op, e)
    ensures Get(op, Put(op, e, p, x), q) == Get(op, e, q)
    decreases |p|
  {
    PutKeepsSpine(op, e, p, x);
    if p != [] && q != [] && p[0] == q[0] {
      assert p == [p[0]] + p[1..] && q == [q[0]] + q[1..];
      GetPutOther(op, if p[0] == L then e.left else e.right, p[1..], x, q[1..]);
    }
  }

  // ----- meaning -----

  /** What a tree is worth, in terms of the operand at one position and of all the rest. */
  lemma {:induction false} ValueOfPut(op: Op, e: Expr, p: Path, x: Expr, v: Valuation)
    requires On(Spine(op, e), p) && FixesYn(v)
    ensures Value(Put(op, e, p, x), v) == Apply(op, Value(x, v), Value(Put(op, e, p, Neutral(op)), v))
    decreases |p|
  {
    Units(op, Value(x, v), v);
    if p != [] {
      var c, d := if p[0] == L then e.left else e.right, if p[0] == L then e.right else e.left;
      ValueOfPut(op, c, p[1..], x, v);
      var rest := Value(Put(op, c, p[1..], Neutral(op)), v);
      ValueOfNode(op, Put(op, e, p, x), v);
      ValueOfNode(op, Put(op, e, p, Neutral(op)), v);
      Assoc(op, Value(x, v), rest, Value(d, v));
      Comm(op, Value(d, v), rest);
      Comm(op, Value(d, v), Apply(op, Value(x, v), rest));
    }
  }

  lemma {:induction false} ValueAround(op: Op, e: Expr, p: Path, v: Valuation)
    requires On(Spine(op, e), p) && FixesYn(v)
    ensures Value(e, v) == Apply(op, Value(Get(op, e, p), v), Value(Put(op, e, p, Neutral(op)), v))
  {
    PutGet(op, e, p);
    ValueOfPut(op, e, p, Get(op, e, p), v);
  }

  // ----- constants left behind -----

  lemma {:induction false} YnOperandAt(op: Op, e: Expr, p: Path)
    requires On(Spine(op, e), p) && p != []
    requires IsYn(Get(op, e, p)) || HasYnOperand(Get(op, e, p))
    ensures HasYnOperand(e)
    decreases |p|
  {
    if |p| > 1 {
      YnOperandAt(op, if p[0] == L then e.left else e.right, p[1..]);
    }
  }

  lemma {:induction false} PutKeepsYnOperand(op: Op, e: Expr, p: Path, x: Expr)
    requires On(Spine(op, e), p) && HasYnOperand(e)
    requires IsYn(Get(op, e, p)) || HasYnOperand(Get(op, e, p)) ==> IsYn(x) || HasYnOperand(x)
    ensures p != [] ==> HasYnOperand(Put(op, e, p, x))
    decreases |p|
  {
    if p != [] {
      var c := if p[0] == L then e.left else e.right;
      assert Get(op, e, p) == Get(op, c, p[1..]);
      if |p| > 1 && HasYnOperand(c) {
        PutKeepsYnOperand(op, c, p[1..], x);
      }
    }
  }
}
