/** The six-node quadratic triangle `Plane2D6N`: its fixed node table and the
    constants the element reports. The nodes are identified by node ids. */
module Plane2D6N {
  import opened Wrappers
  import opened NutoEnums
  import StructureElement

  const NumNodes: nat := 6
  const NumShapeFunctions: nat := 6
  /** Two displacement dofs per node. */
  const NumLocalDofs: nat := 12

  datatype Element = Element(nodes: seq<int>)

  /** The node array of the element has exactly six slots. */
  predicate Valid(e: Element) {
    |e.nodes| == NumNodes
  }

  function GetEnumType(): (t: ElementType)
    ensures StructureElement.RequiredDimension(t) == Some(2)
  {
    PLANE2D6N
  }

  /** Slot `i` of the node array; the index must lie in 0 .. 5. */
  function GetNode(e: Element, i: int): (n: int)
    requires Valid(e) && 0 <= i < NumNodes
    ensures n in e.nodes
  {
    e.nodes[i]
  }

  /** Stores `n` in slot `i`; the other five slots keep their nodes. */
  function SetNode(e: Element, i: int, n: int): (r: Element)
    requires Valid(e) && 0 <= i < NumNodes
    ensures Valid(r)
    ensures GetNode(r, i) == n
    ensures forall j :: 0 <= j < NumNodes && j != i ==> GetNode(r, j) == GetNode(e, j)
  {
    e.(nodes := e.nodes[i := n])
  }

  /** Setting a slot to the node it already holds changes nothing, and the
      last of two writes to the same slot wins. */
  lemma {:induction false} SetNodeLaws(e: Element, i: int, n: int, m: int)
    requires Valid(e) && 0 <= i < NumNodes
    ensures SetNode(e, i, GetNode(e, i)) == e
    ensures SetNode(SetNode(e, i, n), i, m) == SetNode(e, i, m)
  {
  }

  /** There are two local dofs for every node. */
  lemma {:induction false} DofsPerNode()
    ensures NumLocalDofs == 2 * NumNodes && NumShapeFunctions == NumNodes
  {
  }

  /** The list of global dofs is not implemented for this element. */
  function CalculateGlobalDofs(e: Element): (r: Result<(seq<int>, seq<int>)>)
    ensures r.Failure?
  {
    Failure("to be implemented.")
  }
}
