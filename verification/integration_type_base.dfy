/** The shared part of every integration type (`IntegrationTypeBase`): turning
    the flat visualisation tables a concrete type fills in into cell records,
    and the operations the base class refuses. */
module IntegrationTypeBase {
  import opened Wrappers

  /** Visualisation cell shapes; only the quadrilateral is named here. */
  datatype CellType = QUAD | OtherCell(name: string)

  /** The flat tables of the out-parameter form of `GetVisualizationCells`. */
  datatype RawCells = RawCells(
    numPoints: nat,
    pointCoordinates: seq<real>,
    numCells: nat,
    cellTypes: seq<CellType>,
    incidence: seq<nat>,
    cellIps: seq<nat>)

  datatype CellInfo = CellInfo(cellType: CellType, ipId: nat, pointIds: seq<nat>)

  datatype IpCellInfo = IpCellInfo(cellVertices: seq<seq<real>>, cells: seq<CellInfo>)

  /** Total number of point ids taken by the given cells; `pointsOf` is the
      point count of a cell shape. */
  function PointSum(types: seq<CellType>, pointsOf: CellType -> nat): nat {
    if |types| == 0 then 0 else PointSum(types[..|types| - 1], pointsOf) + pointsOf(types[|types| - 1])
  }

  lemma {:induction false} PointSumPrefix(types: seq<CellType>, pointsOf: CellType -> nat, k: nat)
    requires k <= |types|
    ensures PointSum(types[..k], pointsOf) <= PointSum(types, pointsOf)
    decreases |types|
  {
    if k < |types| {
      var front := types[..|types| - 1];
      assert front[..k] == types[..k];
      PointSumPrefix(front, pointsOf, k);
    } else {
      assert types[..k] == types;
    }
  }

  /** The tables describe a usable set of cells: enough types, ips and
      incidence entries for the cell count, and points when there are cells. */
  predicate WellFormed(raw: RawCells, pointsOf: CellType -> nat) {
    raw.numCells > 0 ==>
      raw.numPoints > 0
      && raw.numCells <= |raw.cellTypes| && raw.numCells <= |raw.cellIps|
      && PointSum(raw.cellTypes[..raw.numCells], pointsOf) <= |raw.incidence|
  }

  /** The first `k` cells, each taking the next consecutive run of point ids. */
  function Cells(raw: RawCells, pointsOf: CellType -> nat, k: nat): (r: seq<CellInfo>)
    requires k <= |raw.cellTypes| && k <= |raw.cellIps|
    requires PointSum(raw.cellTypes[..k], pointsOf) <= |raw.incidence|
    ensures |r| == k
    ensures forall i :: 0 <= i < k ==>
      r[i].cellType == raw.cellTypes[i] && r[i].ipId == raw.cellIps[i]
      && |r[i].pointIds| == pointsOf(raw.cellTypes[i])
  {
    if k == 0 then []
    else
      var front := raw.cellTypes[..k - 1];
      assert raw.cellTypes[..k][..k - 1] == front;
      var start := PointSum(front, pointsOf);
      var n := pointsOf(raw.cellTypes[k - 1]);
      Cells(raw, pointsOf, k - 1) + [CellInfo(raw.cellTypes[k - 1], raw.cellIps[k - 1], raw.incidence[start..start + n])]
  }

  /** All point ids of the cells, in order. */
  function Flatten(cells: seq<CellInfo>): seq<nat> {
    if |cells| == 0 then [] else Flatten(cells[..|cells| - 1]) + cells[|cells| - 1].pointIds
  }

  /** `GetVisualizationCells`: no cells gives the empty record; otherwise
      the vertices are consecutive blocks of `dim` coordinates, and the cells'
      point-id lists are consecutive runs of the incidence list, dim being the number
      of coordinates per point, and cell i takes its type and ip from the
      i-th table entries. */
  function GetVisualizationCells(raw: RawCells, pointsOf: CellType -> nat): (r: IpCellInfo)
    requires WellFormed(raw, pointsOf)
    ensures raw.numCells == 0 ==> r == IpCellInfo([], [])
    ensures raw.numCells > 0 ==>
      var dim := Dim(|raw.pointCoordinates|, raw.numPoints);
      |r.cellVertices| == raw.numPoints
      && (forall i :: 0 <= i < raw.numPoints ==> |r.cellVertices[i]| == dim)
      && Concat(r.cellVertices) == raw.pointCoordinates[..raw.numPoints * dim]
      && |r.cells| == raw.numCells
      && forall i :: 0 <= i < raw.numCells ==>
           r.cells[i].cellType == raw.cellTypes[i] && r.cells[i].ipId == raw.cellIps[i]
           && |r.cells[i].pointIds| == pointsOf(raw.cellTypes[i])
    ensures raw.numCells > 0 ==>
      Flatten(r.cells) == raw.incidence[..PointSum(raw.cellTypes[..raw.numCells], pointsOf)]
  {
    if raw.numCells == 0 then IpCellInfo([], [])
    else
      var dim := Dim(|raw.pointCoordinates|, raw.numPoints);
      VerticesTileCoordinates(raw.pointCoordinates, raw.numPoints, dim);
      CellsTileIncidence(raw, pointsOf, raw.numCells);
      IpCellInfo(Vertices(raw.pointCoordinates, raw.numPoints, dim), Cells(raw, pointsOf, raw.numCells))
  }

  /** The column-major reading of a flat coordinate list: the first `k`
      blocks of `dim` consecutive entries. */
  function Vertices(coordinates: seq<real>, k: nat, dim: nat): (r: seq<seq<real>>)
    requires k * dim <= |coordinates|
    ensures |r| == k
    ensures forall i :: 0 <= i < k ==> |r[i]| == dim
  {
    if k == 0 then []
    else
      StepBlock(k, dim);
      Vertices(coordinates, k - 1, dim) + [coordinates[(k - 1) * dim..k * dim]]
  }

  lemma {:induction false} StepBlock(k: nat, dim: nat)
    requires k > 0
    ensures (k - 1) * dim + dim == k * dim
    ensures (k - 1) * dim <= k * dim
  {
  }

  /** Vertex i is the i-th block of `dim` coordinates. */
  lemma {:induction false} VertexIsBlock(coordinates: seq<real>, k: nat, dim: nat, i: nat)
    requires k * dim <= |coordinates| && i < k
    ensures i * dim + dim <= k * dim
    ensures Vertices(coordinates, k, dim)[i] == coordinates[i * dim..i * dim + dim]
    decreases k
  {
    StepBlock(k, dim);
    if i < k - 1 {
      VertexIsBlock(coordinates, k - 1, dim, i);
    }
  }

  function Concat(blocks: seq<seq<real>>): seq<real> {
    if |blocks| == 0 then [] else Concat(blocks[..|blocks| - 1]) + blocks[|blocks| - 1]
  }

  /** The vertices, put back together, are exactly the first k·dim coordinates. */
  lemma {:induction false} VerticesTileCoordinates(coordinates: seq<real>, k: nat, dim: nat)
    requires k * dim <= |coordinates|
    ensures Concat(Vertices(coordinates, k, dim)) == coordinates[..k * dim]
    decreases k
  {
    if k > 0 {
      StepBlock(k, dim);
      var r := Vertices(coordinates, k, dim);
      assert r[..k - 1] == Vertices(coordinates, k - 1, dim);
      VerticesTileCoordinates(coordinates, k - 1, dim);
      assert coordinates[..k * dim] == coordinates[..(k - 1) * dim] + coordinates[(k - 1) * dim..k * dim];
    }
  }

  /** Coordinates per point: the integer quotient of the list length by the
      point count, so that `points` blocks of it fit in the list. */
  function Dim(len: nat, points: nat): (d: nat)
    requires points > 0
    ensures points * d <= len < points * (d + 1)
  {
    len / points
  }

  /** The point-id lists of the first k cells, put together, are the first
      `PointSum` entries of the incidence list: nothing is skipped or reused. */
  lemma {:induction false} CellsTileIncidence(raw: RawCells, pointsOf: CellType -> nat, k: nat)
    requires k <= |raw.cellTypes| && k <= |raw.cellIps|
    requires PointSum(raw.cellTypes[..k], pointsOf) <= |raw.incidence|
    ensures Flatten(Cells(raw, pointsOf, k)) == raw.incidence[..PointSum(raw.cellTypes[..k], pointsOf)]
    decreases k
  {
    if k > 0 {
      var start, stop := LastCellFlattened(raw, pointsOf, k);
      var front := Flatten(Cells(raw, pointsOf, k - 1));
      var last := raw.incidence[start..stop];
      CellsTileIncidence(raw, pointsOf, k - 1);
      PrefixSplit(raw.incidence, start, stop);
      calc {
        Flatten(Cells(raw, pointsOf, k));
        front + last;
        raw.incidence[..start] + last;
        raw.incidence[..stop];
      }
    }
  }

  /** The last of k cells adds its run of the incidence list, which starts
      where the runs of the first k - 1 cells end. */
  lemma {:induction false} LastCellFlattened(raw: RawCells, pointsOf: CellType -> nat, k: nat) returns (start: nat, stop: nat)
    requires 0 < k <= |raw.cellTypes| && k <= |raw.cellIps|
    requires PointSum(raw.cellTypes[..k], pointsOf) <= |raw.incidence|
    ensures start == PointSum(raw.cellTypes[..k - 1], pointsOf)
    ensures stop == PointSum(raw.cellTypes[..k], pointsOf)
    ensures start <= stop
    ensures Flatten(Cells(raw, pointsOf, k)) == Flatten(Cells(raw, pointsOf, k - 1)) + raw.incidence[start..stop]
  {
    var front := raw.cellTypes[..k - 1];
    assert raw.cellTypes[..k][..k - 1] == front;
    start := PointSum(front, pointsOf);
    stop := PointSum(raw.cellTypes[..k], pointsOf);
    var cells := Cells(raw, pointsOf, k);
    assert cells[..k - 1] == Cells(raw, pointsOf, k - 1);
  }

  lemma {:induction false} PrefixSplit(s: seq<nat>, a: nat, b: nat)
    requires a <= b <= |s|
    ensures s[..b] == s[..a] + s[a..b]
  {
  }

  /** The base class has no natural ip coordinate matrix. */
  function GetNaturalIntegrationPointCoordinates(): (r: Result<seq<seq<real>>>)
    ensures r.Failure?
  {
    Failure("Not implemented in base class.")
  }

  /** Integration points cannot be added to or deleted from a fixed rule. */
  function AddIntegrationPoints(area: seq<seq<real>>, order: nat): (r: Result<()>)
    ensures r.Failure?
  {
    Failure("Cannot add an IP to this integration type.")
  }

  function AddIntegrationPoint(coordinates: seq<real>, weight: real): (r: Result<()>)
    ensures r.Failure?
  {
    Failure("Cannot add an IP to this integration type.")
  }

  function DeleteIntegrationPoint(ipNum: int): (r: Result<()>)
    ensures r.Failure?
  {
    Failure("Cannot delete an IP to this integration type.")
  }
}
