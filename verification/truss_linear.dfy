/** Linear two-node truss interpolation (`InterpolationTrussLinear`) on the
    natural interval [-1, 1]. */
module InterpolationTrussLinear {
  import opened Wrappers

  const NumNodes: nat := 2

  /** Natural coordinate of a node: -1 for node 0, +1 for node 1; other indices fail. */
  function LocalCoords(nodeIndex: int): (r: Result<real>)
    ensures r.Success? <==> 0 <= nodeIndex < NumNodes
    ensures r.Success? ==> r.value == 2.0 * nodeIndex as real - 1.0
  {
    match nodeIndex
    case 0 => Success(-1.0)
    case 1 => Success(1.0)
    case _ => Failure("node index out of range (0..1)")
  }

  /** The two shape functions form a partition of unity at every point. */
  function ShapeFunctions(xi: real): (n: seq<real>)
    ensures |n| == NumNodes
    ensures n[0] + n[1] == 1.0
  {
    [0.5 * (1.0 - xi), 0.5 * (1.0 + xi)]
  }

  /** The constant derivatives, which sum to zero. */
  function DerivativeShapeFunctions(): (d: seq<real>)
    ensures |d| == NumNodes
    ensures d[0] + d[1] == 0.0
  {
    [-0.5, 0.5]
  }

  /** Kronecker property: shape function i is 1 at node i and 0 at the other node. */
  lemma {:induction false} Kronecker(i: nat, j: nat)
    requires i < NumNodes && j < NumNodes
    ensures ShapeFunctions(LocalCoords(j).value)[i] == if i == j then 1.0 else 0.0
  {
  }

  /** The derivatives are the slopes of the shape functions. */
  lemma {:induction false} DerivativesAreSlopes(xi: real, h: real)
    ensures forall i :: 0 <= i < NumNodes ==>
      ShapeFunctions(xi + h)[i] - ShapeFunctions(xi)[i] == h * DerivativeShapeFunctions()[i]
  {
  }

  /** Edge and face queries are not implemented and always fail. */
  function EdgeNodeIds(edgeIndex: int): (r: Result<seq<int>>)
    ensures r.Failure?
  {
    Failure("Not implemented")
  }

  function FaceNodeIds(faceIndex: int): (r: Result<seq<int>>)
    ensures r.Failure?
  {
    Failure("Not implemented")
  }
}
