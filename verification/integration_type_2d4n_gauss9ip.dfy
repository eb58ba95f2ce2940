/** The 3x3 Gauss rule on the natural square (`IntegrationType2D4NGauss9Ip`):
    its points, weights and visualisation cells. */
module IntegrationType2D4NGauss9Ip {
  import opened Wrappers
  import IntegrationTypeBase

  /** The 1D Gauss abscissa, sqrt(3/5) to 15 decimals. */
  const A: real := 0.774596669241483

  const NumIntegrationPoints: nat := 9

  datatype Ip = Ip(x: real, y: real)

  predicate IsAbscissa(v: real) {
    v == -A || v == 0.0 || v == A
  }

  /** Number of zero coordinates: 0 for a corner point, 1 for an edge
      midpoint, 2 for the centre. */
  function ZeroCount(p: Ip): nat {
    (if p.x == 0.0 then 1 else 0) + (if p.y == 0.0 then 1 else 0)
  }

  /** Natural coordinates of an integration point: corners first (0-3), then
      edge midpoints (4-7), then the centre (8); other numbers fail. */
  function LocalCoordinates(ip: int): (r: Result<Ip>)
    ensures r.Success? <==> 0 <= ip < NumIntegrationPoints
    ensures r.Success? ==> IsAbscissa(r.value.x) && IsAbscissa(r.value.y)
    ensures r.Success? ==> ZeroCount(r.value) == if ip < 4 then 0 else if ip < 8 then 1 else 2
  {
    match ip
    case 0 => Success(Ip(-A, -A))
    case 1 => Success(Ip(A, -A))
    case 2 => Success(Ip(A, A))
    case 3 => Success(Ip(-A, A))
    case 4 => Success(Ip(0.0, -A))
    case 5 => Success(Ip(A, 0.0))
    case 6 => Success(Ip(0.0, A))
    case 7 => Success(Ip(-A, 0.0))
    case 8 => Success(Ip(0.0, 0.0))
    case _ => Failure("Ip number out of range.")
  }

  /** The number of the point at a grid position; the inverse of `LocalCoordinates`. */
  function GridIndex(p: Ip): (i: int)
    requires IsAbscissa(p.x) && IsAbscissa(p.y)
  {
    if p.y == -A then (if p.x == -A then 0 else if p.x == 0.0 then 4 else 1)
    else if p.y == 0.0 then (if p.x == -A then 7 else if p.x == 0.0 then 8 else 5)
    else (if p.x == -A then 3 else if p.x == 0.0 then 6 else 2)
  }

  /** The nine points are exactly the tensor grid {-a, 0, a}², each once. */
  lemma {:induction false} PointsAreTheGrid(p: Ip, ip: int)
    requires IsAbscissa(p.x) && IsAbscissa(p.y)
    requires 0 <= ip < NumIntegrationPoints
    ensures LocalCoordinates(GridIndex(p)) == Success(p)
    ensures GridIndex(LocalCoordinates(ip).value) == ip
  {
  }

  /** Weight of an integration point; other numbers fail. */
  function Weight(ip: int): (r: Result<real>)
    ensures r.Success? <==> 0 <= ip < NumIntegrationPoints
    ensures r.Success? ==> r.value > 0.0
  {
    match ip
    case 0 => Success(0.308641975)
    case 1 => Success(0.308641975)
    case 2 => Success(0.308641975)
    case 3 => Success(0.308641975)
    case 4 => Success(0.493827160)
    case 5 => Success(0.493827160)
    case 6 => Success(0.493827160)
    case 7 => Success(0.493827160)
    case 8 => Success(0.790123456)
    case _ => Failure("Ip number out of range.")
  }

  /** The 1D Gauss weight at an abscissa: 8/9 at the centre, 5/9 outside. */
  function Weight1D(v: real): real {
    if v == 0.0 then 8.0 / 9.0 else 5.0 / 9.0
  }

  /** Each weight is the product of the 1D weights of its coordinates, to
      within 1e-9, and so depends only on whether the point is a corner, an
      edge midpoint or the centre. */
  lemma {:induction false} WeightIsTensorProduct(ip: int)
    requires 0 <= ip < NumIntegrationPoints
    ensures var p := LocalCoordinates(ip).value;
            var exact := Weight1D(p.x) * Weight1D(p.y);
            -0.000000001 < Weight(ip).value - exact <= 0.0
  {
  }

  /** Mirroring a point in either axis gives a point of the rule with the same weight. */
  lemma {:induction false} MirrorSymmetric(ip: int)
    requires 0 <= ip < NumIntegrationPoints
    ensures var p := LocalCoordinates(ip).value;
            IsAbscissa(-p.x) && IsAbscissa(-p.y)
            && Weight(GridIndex(Ip(-p.x, p.y))) == Weight(ip)
            && Weight(GridIndex(Ip(p.x, -p.y))) == Weight(ip)
  {
  }

  function SumWeights(n: nat): real
    requires n <= NumIntegrationPoints
  {
    if n == 0 then 0.0 else SumWeights(n - 1) + Weight(n - 1).value
  }

  /** The weights add up to the area 4 of the square, less the rounding of the constants. */
  lemma {:induction false} WeightsSumToArea()
    ensures SumWeights(NumIntegrationPoints) == 4.0 - 0.000000004
  {
  }

  /** The abscissa squares to 3/5 within 1e-15. */
  lemma {:induction false} AbscissaSquared()
    ensures -0.000000000000001 < A * A - 3.0 / 5.0 < 0.0
  {
  }

  // ---------------------------------------------------------------------
  // Visualisation
  // ---------------------------------------------------------------------

  /** The visualisation grid coordinates -1, -1/3, 1/3, 1. */
  const Grid: seq<real> := [-1.0, -1.0 / 3.0, 1.0 / 3.0, 1.0]

  const VisualizationPointCoordinates: seq<real> := [
    -1.0, -1.0,  -1.0 / 3.0, -1.0,  1.0 / 3.0, -1.0,  1.0, -1.0,
    -1.0, -1.0 / 3.0,  -1.0 / 3.0, -1.0 / 3.0,  1.0 / 3.0, -1.0 / 3.0,  1.0, -1.0 / 3.0,
    -1.0, 1.0 / 3.0,  -1.0 / 3.0, 1.0 / 3.0,  1.0 / 3.0, 1.0 / 3.0,  1.0, 1.0 / 3.0,
    -1.0, 1.0,  -1.0 / 3.0, 1.0,  1.0 / 3.0, 1.0,  1.0, 1.0]

  const VisualizationIncidence: seq<nat> := [
    0, 1, 5, 4,   1, 2, 6, 5,   2, 3, 7, 6,
    4, 5, 9, 8,   5, 6, 10, 9,  6, 7, 11, 10,
    8, 9, 13, 12, 9, 10, 14, 13, 10, 11, 15, 14]

  const VisualizationIps: seq<nat> := [0, 4, 1, 7, 8, 5, 3, 6, 2]

  /** The tables of `GetVisualizationCells`: 16 points, 9 quadrilateral cells. */
  function VisualizationCells(): (r: IntegrationTypeBase.RawCells)
    ensures r.numPoints == 16 && r.numCells == 9
    ensures |r.pointCoordinates| == 2 * r.numPoints
    ensures |r.cellTypes| == r.numCells && |r.cellIps| == r.numCells
    ensures |r.incidence| == 4 * r.numCells
  {
    IntegrationTypeBase.RawCells(16, VisualizationPointCoordinates, 9,
      seq(9, _ => IntegrationTypeBase.QUAD), VisualizationIncidence, VisualizationIps)
  }

  /** Point p of the visualisation grid sits at column p mod 4, row p div 4. */
  lemma {:induction false} VisualizationPointsOnGrid(p: nat)
    requires p < 16
    ensures VisualizationPointCoordinates[2 * p] == Grid[p % 4]
    ensures VisualizationPointCoordinates[2 * p + 1] == Grid[p / 4]
  {
  }

  /** Every cell is the grid square whose lower-left point is p = 4 row + col,
      with corners p, p+1, p+5, p+4 counter-clockwise, so all ids are below 16. */
  lemma {:induction false} CellsAreGridSquares(c: nat)
    requires c < 9
    ensures var p := 4 * (c / 3) + c % 3;
            VisualizationIncidence[4 * c] == p && VisualizationIncidence[4 * c + 1] == p + 1
            && VisualizationIncidence[4 * c + 2] == p + 5 && VisualizationIncidence[4 * c + 3] == p + 4
            && p + 5 < 16
  {
    if c == 0 {} else if c == 1 {} else if c == 2 {}
    else if c == 3 {} else if c == 4 {} else if c == 5 {}
    else if c == 6 {} else if c == 7 {} else {}
  }

  /** The cells' ip ids are a permutation of 0..8. */
  lemma {:induction false} IpsArePermutation()
    ensures |VisualizationIps| == NumIntegrationPoints
    ensures forall ip :: 0 <= ip < NumIntegrationPoints ==> ip in VisualizationIps
    ensures forall i, j :: 0 <= i < j < |VisualizationIps| ==> VisualizationIps[i] != VisualizationIps[j]
  {
    assert forall ip :: 0 <= ip < NumIntegrationPoints ==> VisualizationIps[[0, 2, 8, 6, 1, 5, 7, 3, 4][ip]] == ip;
  }

  /** Each cell contains the integration point it displays. */
  lemma {:induction false} CellContainsItsIp(c: nat)
    requires c < 9
    ensures var ip := LocalCoordinates(VisualizationIps[c]).value;
            var lower := VisualizationIncidence[4 * c];
            var upper := VisualizationIncidence[4 * c + 2];
            Grid[lower % 4] < ip.x < Grid[upper % 4] && Grid[lower / 4] < ip.y < Grid[upper / 4]
  {
  }

  /** With four points to a quadrilateral, the base class turns the tables
      into 16 two-dimensional vertices on the grid and 9 cells whose point
      ids are the grid squares above. */
  lemma {:induction false} VisualizationCellInfo(pointsOf: IntegrationTypeBase.CellType -> nat, c: nat, p: nat)
    requires pointsOf(IntegrationTypeBase.QUAD) == 4
    requires c < 9 && p < 16
    ensures IntegrationTypeBase.WellFormed(VisualizationCells(), pointsOf)
    ensures var info := IntegrationTypeBase.GetVisualizationCells(VisualizationCells(), pointsOf);
            |info.cellVertices| == 16 && info.cellVertices[p] == [Grid[p % 4], Grid[p / 4]]
            && |info.cells| == 9 && info.cells[c].ipId == VisualizationIps[c]
            && info.cells[c].pointIds == VisualizationIncidence[4 * c..4 * c + 4]
  {
    var raw := VisualizationCells();
    assert AllQuads(raw, pointsOf, 9);
    QuadSums(raw, pointsOf, 9);
    IntegrationTypeBase.VertexIsBlock(raw.pointCoordinates, 16, 2, p);
    VisualizationPointsOnGrid(p);
    QuadCells(raw, pointsOf, 9, c);
  }

  /** Cells that all have four points take the incidence list four ids at a time. */
  predicate AllQuads(raw: IntegrationTypeBase.RawCells, pointsOf: IntegrationTypeBase.CellType -> nat, k: nat) {
    k <= |raw.cellTypes| && k <= |raw.cellIps| && 4 * k <= |raw.incidence|
    && forall i :: 0 <= i < k ==> pointsOf(raw.cellTypes[i]) == 4
  }

  lemma {:induction false} QuadSums(raw: IntegrationTypeBase.RawCells, pointsOf: IntegrationTypeBase.CellType -> nat, k: nat)
    requires AllQuads(raw, pointsOf, k)
    ensures IntegrationTypeBase.PointSum(raw.cellTypes[..k], pointsOf) == 4 * k
    decreases k
  {
    if k > 0 {
      assert raw.cellTypes[..k][..k - 1] == raw.cellTypes[..k - 1];
      QuadSums(raw, pointsOf, k - 1);
    }
  }

  lemma {:induction false} QuadCells(raw: IntegrationTypeBase.RawCells, pointsOf: IntegrationTypeBase.CellType -> nat, k: nat, c: nat)
    requires AllQuads(raw, pointsOf, k)
    requires c < k
    ensures IntegrationTypeBase.PointSum(raw.cellTypes[..k], pointsOf) <= |raw.incidence|
    ensures IntegrationTypeBase.Cells(raw, pointsOf, k)[c].pointIds == raw.incidence[4 * c..4 * c + 4]
    decreases k
  {
    QuadSums(raw, pointsOf, k);
    QuadSums(raw, pointsOf, k - 1);
    if c < k - 1 {
      QuadCells(raw, pointsOf, k - 1, c);
    }
  }
}
