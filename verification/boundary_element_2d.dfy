/** The geometric part of `BoundaryElement2D`: which nodes of the base
    element lie on the boundary surface, decided by a collinearity test in
    natural coordinates. */
module BoundaryElement2D {
  import opened Wrappers

  datatype Point2 = Point2(x: real, y: real)

  /** The collinearity tolerance. */
  const Tolerance: real := 0.0000000001

  /** The determinant the collinearity test evaluates. */
  function Det(a: Point2, b: Point2, p: Point2): real {
    (b.x - a.x) * (a.y - p.y) - (a.x - p.x) * (b.y - a.y)
  }

  /** The cross product of two vectors of the plane, as an independent
      statement of collinearity. */
  function Cross(ux: real, uy: real, vx: real, vy: real): real {
    ux * vy - uy * vx
  }

  function Abs(v: real): real {
    if v < 0.0 then -v else v
  }

  /** `PointIsOnBoundary`: |det| below the tolerance. */
  predicate PointIsOnBoundary(a: Point2, b: Point2, p: Point2) {
    Abs(Det(a, b, p)) < Tolerance
  }

  /** The determinant is the negated cross product of B - A and P - A, so
      the test asks whether P lies (nearly) on the line through A and B. */
  lemma {:induction false} DetIsCross(a: Point2, b: Point2, p: Point2)
    ensures Det(a, b, p) == -Cross(b.x - a.x, b.y - a.y, p.x - a.x, p.y - a.y)
  {
  }

  /** Every point of the line through A and B passes, the end points included. */
  lemma {:induction false} LinePointsPass(a: Point2, b: Point2, t: real)
    ensures PointIsOnBoundary(a, b, Point2(a.x + t * (b.x - a.x), a.y + t * (b.y - a.y)))
    ensures PointIsOnBoundary(a, b, a) && PointIsOnBoundary(a, b, b)
  {
    var p := Point2(a.x + t * (b.x - a.x), a.y + t * (b.y - a.y));
    assert a.y - p.y == -t * (b.y - a.y);
    assert a.x - p.x == -t * (b.x - a.x);
    assert Det(a, b, p) == (b.x - a.x) * (-t * (b.y - a.y)) - (-t * (b.x - a.x)) * (b.y - a.y);
    assert Det(a, b, p) == 0.0;
    assert Det(a, b, b) == 0.0;
  }

  /** A point off the line by more than the tolerance in the cross product fails. */
  lemma {:induction false} FarPointFails(a: Point2, b: Point2, p: Point2)
    requires Abs(Cross(b.x - a.x, b.y - a.y, p.x - a.x, p.y - a.y)) >= Tolerance
    ensures !PointIsOnBoundary(a, b, p)
  {
    DetIsCross(a, b, p);
  }

  /** The indices below `n` of the nodes whose natural coordinates pass the
      test against A and B, in ascending order. */
  function BoundaryNodes(coords: seq<Point2>, a: Point2, b: Point2, n: nat): (r: seq<nat>)
    requires n <= |coords|
    ensures forall k :: 0 <= k < |r| ==> r[k] < n
    ensures forall k, l :: 0 <= k < l < |r| ==> r[k] < r[l]
    ensures forall i :: 0 <= i < n ==> (i in r <==> PointIsOnBoundary(a, b, coords[i]))
  {
    if n == 0 then []
    else
      var front := BoundaryNodes(coords, a, b, n - 1);
      if PointIsOnBoundary(a, b, coords[n - 1]) then front + [n - 1] else front
  }

  /** `GetBoundaryNodeIndices`: the natural coordinates of the element's
      nodes and the two node indices of the surface, which give A and B. */
  function GetBoundaryNodeIndices(coords: seq<Point2>, surfaceNodes: seq<nat>): (r: seq<nat>)
    requires |surfaceNodes| == 2
    requires surfaceNodes[0] < |coords| && surfaceNodes[1] < |coords|
    ensures forall k, l :: 0 <= k < l < |r| ==> r[k] < r[l]
    ensures forall i :: 0 <= i < |coords| ==>
      (i in r <==> PointIsOnBoundary(coords[surfaceNodes[0]], coords[surfaceNodes[1]], coords[i]))
    ensures forall k :: 0 <= k < |r| ==> r[k] < |coords|
  {
    BoundaryNodes(coords, coords[surfaceNodes[0]], coords[surfaceNodes[1]], |coords|)
  }

  /** The two surface nodes themselves are always boundary nodes. */
  lemma {:induction false} SurfaceNodesAreBoundaryNodes(coords: seq<Point2>, surfaceNodes: seq<nat>)
    requires |surfaceNodes| == 2
    requires surfaceNodes[0] < |coords| && surfaceNodes[1] < |coords|
    ensures surfaceNodes[0] in GetBoundaryNodeIndices(coords, surfaceNodes)
    ensures surfaceNodes[1] in GetBoundaryNodeIndices(coords, surfaceNodes)
  {
    LinePointsPass(coords[surfaceNodes[0]], coords[surfaceNodes[1]], 0.0);
  }

  /** `GetNumNodes`: the number of boundary nodes. */
  function GetNumNodes(coords: seq<Point2>, surfaceNodes: seq<nat>): (n: nat)
    requires |surfaceNodes| == 2
    requires surfaceNodes[0] < |coords| && surfaceNodes[1] < |coords|
    ensures n <= |coords|
  {
    var r := GetBoundaryNodeIndices(coords, surfaceNodes);
    AscendingBounded(r, |coords|);
    |r|
  }

  /** An element with two distinct surface nodes has at least two boundary nodes. */
  lemma {:induction false} AtLeastTheSurfaceNodes(coords: seq<Point2>, surfaceNodes: seq<nat>)
    requires |surfaceNodes| == 2
    requires surfaceNodes[0] < |coords| && surfaceNodes[1] < |coords|
    ensures GetNumNodes(coords, surfaceNodes) >= 1
    ensures surfaceNodes[0] != surfaceNodes[1] ==> GetNumNodes(coords, surfaceNodes) >= 2
  {
    SurfaceNodesAreBoundaryNodes(coords, surfaceNodes);
    var r := GetBoundaryNodeIndices(coords, surfaceNodes);
    if surfaceNodes[0] != surfaceNodes[1] {
      TwoMembers(r, surfaceNodes[0], surfaceNodes[1]);
    }
  }

  /** An ascending sequence of numbers below `bound` has at most `bound` entries. */
  lemma {:induction false} AscendingBounded(r: seq<nat>, bound: nat)
    requires forall k, l :: 0 <= k < l < |r| ==> r[k] < r[l]
    requires forall k :: 0 <= k < |r| ==> r[k] < bound
    ensures |r| <= bound
  {
    if |r| > 0 {
      var front := r[..|r| - 1];
      assert forall k :: 0 <= k < |front| ==> front[k] < r[|r| - 1];
      AscendingBounded(front, r[|r| - 1]);
    }
  }

  lemma {:induction false} TwoMembers(r: seq<nat>, x: nat, y: nat)
    requires x in r && y in r && x != y
    ensures |r| >= 2
  {
  }

  /** `GetBoundaryNodeIndex`: the i-th boundary node. */
  function GetBoundaryNodeIndex(coords: seq<Point2>, surfaceNodes: seq<nat>, i: nat): (node: nat)
    requires |surfaceNodes| == 2
    requires surfaceNodes[0] < |coords| && surfaceNodes[1] < |coords|
    requires i < GetNumNodes(coords, surfaceNodes)
    ensures node < |coords|
    ensures PointIsOnBoundary(coords[surfaceNodes[0]], coords[surfaceNodes[1]], coords[node])
  {
    GetBoundaryNodeIndices(coords, surfaceNodes)[i]
  }

  /** The boundary-condition check always answers false. */
  function IsBoundaryConditionFulfilled(elementId: int): (r: bool)
    ensures !r
  {
    false
  }

  /** The first step of `Evaluate`: an element without a section fails. */
  function EvaluateSectionCheck(hasSection: bool): (r: Result<()>)
    ensures r.Success? <==> hasSection
  {
    if !hasSection then Failure("no section allocated for element.") else Success(())
  }
}
