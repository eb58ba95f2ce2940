/** Linear four-node tetrahedron interpolation (`InterpolationTetrahedronLinear`)
    on the reference tetrahedron with vertices 0, e1, e2, e3. */
module InterpolationTetrahedronLinear {
  import opened Wrappers

  const NumNodes: nat := 4

  /** Natural coordinates of a node: the origin and the three unit axis
      points; other indices fail. */
  function LocalCoords(nodeIndex: int): (r: Result<seq<real>>)
    ensures r.Success? <==> 0 <= nodeIndex < NumNodes
    ensures r.Success? ==> |r.value| == 3
    ensures r.Success? ==> forall k :: 0 <= k < 3 ==> r.value[k] == if k + 1 == nodeIndex then 1.0 else 0.0
  {
    match nodeIndex
    case 0 => Success([0.0, 0.0, 0.0])
    case 1 => Success([1.0, 0.0, 0.0])
    case 2 => Success([0.0, 1.0, 0.0])
    case 3 => Success([0.0, 0.0, 1.0])
    case _ => Failure("node index out of range (0..4)")
  }

  /** N0 = 1 - x - y - z, N1 = x, N2 = y, N3 = z: a partition of unity. */
  function ShapeFunctions(x: seq<real>): (n: seq<real>)
    requires |x| == 3
    ensures |n| == NumNodes
    ensures n[0] + n[1] + n[2] + n[3] == 1.0
  {
    [1.0 - (x[0] + x[1] + x[2]), x[0], x[1], x[2]]
  }

  /** The constant 4 x 3 derivative matrix; row i is the gradient of N_i. */
  function DerivativeShapeFunctions(): (d: seq<seq<real>>)
    ensures |d| == NumNodes && forall i :: 0 <= i < NumNodes ==> |d[i]| == 3
    ensures forall k :: 0 <= k < 3 ==> d[0][k] + d[1][k] + d[2][k] + d[3][k] == 0.0
  {
    [[-1.0, -1.0, -1.0],
     [1.0, 0.0, 0.0],
     [0.0, 1.0, 0.0],
     [0.0, 0.0, 1.0]]
  }

  /** Kronecker property: shape function i is 1 at node i and 0 at every other node. */
  lemma {:induction false} Kronecker(i: nat, j: nat)
    requires i < NumNodes && j < NumNodes
    ensures ShapeFunctions(LocalCoords(j).value)[i] == if i == j then 1.0 else 0.0
  {
  }

  /** The derivative matrix is the gradient of the shape functions: moving by
      h along axis k changes N_i by h times entry (i, k). */
  lemma {:induction false} DerivativesAreGradients(x: seq<real>, k: nat, h: real)
    requires |x| == 3 && k < 3
    ensures forall i :: 0 <= i < NumNodes ==>
      ShapeFunctions(x[k := x[k] + h])[i] - ShapeFunctions(x)[i] == h * DerivativeShapeFunctions()[i][k]
  {
  }

  /** The six edges as node pairs; an index outside 0..5 fails. */
  function EdgeNodeIds(edgeIndex: int): (r: Result<seq<int>>)
    ensures r.Success? <==> 0 <= edgeIndex < 6
    ensures r.Success? ==> |r.value| == 2 && r.value[0] != r.value[1]
    ensures r.Success? ==> forall k :: 0 <= k < 2 ==> 0 <= r.value[k] < NumNodes
  {
    match edgeIndex
    case 0 => Success([0, 1])
    case 1 => Success([1, 2])
    case 2 => Success([2, 0])
    case 3 => Success([0, 3])
    case 4 => Success([1, 3])
    case 5 => Success([2, 3])
    case _ => Failure("edge index out of range (0..5)")
  }

  /** The edges cover every pair of distinct nodes exactly once. */
  lemma {:induction false} EdgesCoverAllPairs(a: nat, b: nat)
    requires a < b < NumNodes
    ensures exists e :: 0 <= e < 6 && {a, b} == set k | k in EdgeNodeIds(e).value
    ensures forall e, e' :: 0 <= e < e' < 6 ==>
      (set k | k in EdgeNodeIds(e).value) != (set k | k in EdgeNodeIds(e').value)
  {
    var pairs := [{0, 1}, {1, 2}, {0, 2}, {0, 3}, {1, 3}, {2, 3}];
    assert forall e :: 0 <= e < 6 ==> (set k | k in EdgeNodeIds(e).value) == pairs[e];
    if a == 0 && b == 1 { assert {a, b} == pairs[0]; }
    else if a == 1 && b == 2 { assert {a, b} == pairs[1]; }
    else if a == 0 && b == 2 { assert {a, b} == pairs[2]; }
    else if a == 0 && b == 3 { assert {a, b} == pairs[3]; }
    else if a == 1 && b == 3 { assert {a, b} == pairs[4]; }
    else { assert {a, b} == pairs[5]; }
    forall e, e' | 0 <= e < e' < 6
      ensures (set k | k in EdgeNodeIds(e).value) != (set k | k in EdgeNodeIds(e').value)
    {
      var p := EdgeNodeIds(e).value;
      if p[0] in pairs[e'] {
        assert p[1] !in pairs[e'];
      }
    }
  }

  /** Face k is made of the three nodes other than node k; an index outside 0..3 fails. */
  function FaceNodeIds(faceIndex: int): (r: Result<seq<int>>)
    ensures r.Success? <==> 0 <= faceIndex < 4
    ensures r.Success? ==> |r.value| == 3 && (set k | k in r.value) == {0, 1, 2, 3} - {faceIndex}
  {
    match faceIndex
    case 0 => Success([1, 2, 3])
    case 1 => Success([0, 3, 2])
    case 2 => Success([0, 1, 3])
    case 3 => Success([0, 2, 1])
    case _ => Failure("edge index out of range (0..3)")
  }
}
