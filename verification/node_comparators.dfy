/** The coordinate comparators of `NodeBase` used to sort nodes along an
    axis, and the two members of the node base class with fixed behaviour. */
module NodeComparators {
  import opened Wrappers

  /** The 2D coordinates a node reports through `GetCoordinates2D`. */
  datatype Node2D = Node2D(x: real, y: real)

  /** `less_XCoordinate2D`. */
  predicate LessX(a: Node2D, b: Node2D) {
    a.x < b.x
  }

  /** `greater_XCoordinate2D`. */
  predicate GreaterX(a: Node2D, b: Node2D) {
    a.x > b.x
  }

  /** `less_YCoordinate2D`. */
  predicate LessY(a: Node2D, b: Node2D) {
    a.y < b.y
  }

  /** `greater_YCoordinate2D`. */
  predicate GreaterY(a: Node2D, b: Node2D) {
    a.y > b.y
  }

  /** Each greater-comparator is its less-comparator with the arguments swapped. */
  lemma {:induction false} GreaterIsSwappedLess(a: Node2D, b: Node2D)
    ensures GreaterX(a, b) == LessX(b, a)
    ensures GreaterY(a, b) == LessY(b, a)
  {
  }

  /** The X comparator looks only at x: changing y never changes its answer. */
  lemma {:induction false} LessXIgnoresY(a: Node2D, b: Node2D, ya: real, yb: real)
    ensures LessX(a, b) == LessX(a.(y := ya), b.(y := yb))
  {
  }

  /** The Y comparator looks only at y. */
  lemma {:induction false} LessYIgnoresX(a: Node2D, b: Node2D, xa: real, xb: real)
    ensures LessY(a, b) == LessY(a.(x := xa), b.(x := xb))
  {
  }

  /** Both less-comparators are strict weak orders, as the standard sort
      demands: irreflexive, transitive, and incomparability (neither is
      less) is exactly equality of the compared coordinate. */
  lemma {:induction false} StrictWeakOrders(a: Node2D, b: Node2D, c: Node2D)
    ensures !LessX(a, a) && !LessY(a, a)
    ensures LessX(a, b) && LessX(b, c) ==> LessX(a, c)
    ensures LessY(a, b) && LessY(b, c) ==> LessY(a, c)
    ensures !LessX(a, b) && !LessX(b, a) <==> a.x == b.x
    ensures !LessY(a, b) && !LessY(b, a) <==> a.y == b.y
  {
  }

  /** The node-type query was removed and always fails. */
  function GetNodeType(n: Node2D): (r: Result<()>)
    ensures r.Failure?
  {
    Failure("routine is removed")
  }

  /** The assignment operator of the base class copies nothing: the target
      keeps its own data. */
  function Assign(target: Node2D, source: Node2D): (r: Node2D)
    ensures source != target ==> r != source
    ensures r.x == target.x && r.y == target.y
  {
    target
  }
}
