/** Quadrilateral interpolation (`Interpolation2DQuad`) on the natural square
    [-1, 1]²: node counts, standard integration types, the four surfaces and
    the search that links the interpolation's nodes to existing element nodes. */
module Interpolation2DQuad {
  import opened Wrappers
  import opened NutoEnums

  datatype Coord2 = Coord2(xi: real, eta: real)

  /** The orders a quadrilateral supports. */
  predicate Supported(order: TypeOrder) {
    order in {EQUIDISTANT1, EQUIDISTANT2, LOBATTO2, LOBATTO3, LOBATTO4}
  }

  /** The polynomial degree of a spectral (Lobatto) order. */
  function LobattoDegree(order: TypeOrder): Option<nat> {
    match order
    case LOBATTO2 => Some(2)
    case LOBATTO3 => Some(3)
    case LOBATTO4 => Some(4)
    case _ => None
  }

  /** Number of nodes: the full tensor grid of degree p for the bilinear and
      the spectral orders, the serendipity grid (no centre node) for
      EQUIDISTANT2. */
  function NumNodes(order: TypeOrder): (r: Result<nat>)
    ensures r.Success? <==> Supported(order)
    ensures LobattoDegree(order).Some? ==>
      r == Success((LobattoDegree(order).value + 1) * (LobattoDegree(order).value + 1))
    ensures order == EQUIDISTANT1 ==> r == Success(2 * 2)
    ensures order == EQUIDISTANT2 ==> r == Success(3 * 3 - 1)
  {
    match order
    case EQUIDISTANT1 => Success(4)
    case EQUIDISTANT2 => Success(8)
    case LOBATTO2 => Success(9)
    case LOBATTO3 => Success(16)
    case LOBATTO4 => Success(25)
    case _ => Failure("Interpolation type and order not implemented")
  }

  /** Number of integration points of the quadrilateral integration types. */
  function IpCount(k: IntegrationKind): Option<nat> {
    match k
    case IntegrationType2D4NGauss4Ip => Some(4)
    case IntegrationType2D4NGauss9Ip => Some(9)
    case IntegrationType2D4NLobatto9Ip => Some(9)
    case IntegrationType2D4NLobatto16Ip => Some(16)
    case IntegrationType2D4NLobatto25Ip => Some(25)
    case _ => None
  }

  /** The standard integration type: 2x2 Gauss points for the equidistant
      orders; for the spectral orders a Lobatto rule whose points are the
      nodes themselves. The same orders fail as for `NumNodes`. */
  function StandardIntegrationType(order: TypeOrder): (r: Result<IntegrationKind>)
    ensures r.Success? <==> NumNodes(order).Success?
    ensures r.Success? ==> IpCount(r.value).Some?
    ensures r.Success? && LobattoDegree(order).Some? ==> IpCount(r.value) == Some(NumNodes(order).value)
    ensures order in {EQUIDISTANT1, EQUIDISTANT2} ==> r == Success(IntegrationType2D4NGauss4Ip)
  {
    match order
    case EQUIDISTANT1 => Success(IntegrationType2D4NGauss4Ip)
    case EQUIDISTANT2 => Success(IntegrationType2D4NGauss4Ip)
    case LOBATTO2 => Success(IntegrationType2D4NLobatto9Ip)
    case LOBATTO3 => Success(IntegrationType2D4NLobatto16Ip)
    case LOBATTO4 => Success(IntegrationType2D4NLobatto25Ip)
    case _ => Failure("Interpolation for exact integration not implemented")
  }

  // ---------------------------------------------------------------------
  // Surfaces
  // ---------------------------------------------------------------------

  /** Maps the surface parameter t to the square's boundary; there are
      exactly four surfaces, 0 to 3. */
  function SurfaceCoordinates(t: real, surface: int): (r: Result<Coord2>)
    ensures r.Success? <==> 0 <= surface < 4
  {
    match surface
    case 0 => Success(Coord2(t, -1.0))
    case 1 => Success(Coord2(1.0, t))
    case 2 => Success(Coord2(-t, 1.0))
    case 3 => Success(Coord2(-1.0, -t))
    case _ => Failure("QUAD2D has exactly four surfaces, 0 to 3")
  }

  /** The tangent of a surface, the same for every t. */
  function SurfaceDerivative(surface: int): (r: Result<Coord2>)
    ensures r.Success? <==> 0 <= surface < 4
    ensures r.Success? ==> r.value.xi * r.value.xi + r.value.eta * r.value.eta == 1.0
  {
    match surface
    case 0 => Success(Coord2(1.0, 0.0))
    case 1 => Success(Coord2(0.0, 1.0))
    case 2 => Success(Coord2(-1.0, 0.0))
    case 3 => Success(Coord2(0.0, -1.0))
    case _ => Failure("QUAD2D has exactly four surfaces, 0 to 3")
  }

  function Abs(x: real): real {
    if x < 0.0 then -x else x
  }

  predicate OnSquareBoundary(p: Coord2) {
    -1.0 <= p.xi <= 1.0 && -1.0 <= p.eta <= 1.0 && (Abs(p.xi) == 1.0 || Abs(p.eta) == 1.0)
  }

  /** The derivative is the exact slope of the surface map. */
  lemma {:induction false} DerivativeIsSlope(t: real, h: real, surface: int)
    requires 0 <= surface < 4
    ensures SurfaceCoordinates(t + h, surface).value.xi
      == SurfaceCoordinates(t, surface).value.xi + h * SurfaceDerivative(surface).value.xi
    ensures SurfaceCoordinates(t + h, surface).value.eta
      == SurfaceCoordinates(t, surface).value.eta + h * SurfaceDerivative(surface).value.eta
  {
  }

  /** Parameters in [-1, 1] land on the boundary of the natural square. */
  lemma {:induction false} SurfaceOnBoundary(t: real, surface: int)
    requires 0 <= surface < 4
    requires -1.0 <= t <= 1.0
    ensures OnSquareBoundary(SurfaceCoordinates(t, surface).value)
  {
  }

  /** The surfaces chain around the square: the end of one is the start of the next. */
  lemma {:induction false} SurfacesChain(surface: int)
    requires 0 <= surface < 4
    ensures SurfaceCoordinates(1.0, surface) == SurfaceCoordinates(-1.0, (surface + 1) % 4)
  {
  }

  /** The surfaces run counter-clockwise: the tangent turned clockwise by a
      right angle is the outward unit normal, whose product with every point
      of the surface is 1. */
  lemma {:induction false} OutwardNormal(t: real, surface: int)
    requires 0 <= surface < 4
    ensures var p := SurfaceCoordinates(t, surface).value;
            var d := SurfaceDerivative(surface).value;
            d.eta * p.xi - d.xi * p.eta == 1.0
  {
  }

  // ---------------------------------------------------------------------
  // Node search
  // ---------------------------------------------------------------------

  /** How many existing nodes `c` matches. */
  function MatchCount(c: seq<real>, existing: seq<seq<real>>, matches: (seq<real>, seq<real>) -> bool): (r: nat)
    ensures r == 0 <==> forall j :: 0 <= j < |existing| ==> !matches(c, existing[j])
    ensures r <= |existing|
  {
    if |existing| == 0 then 0
    else
      var front := MatchCount(c, existing[..|existing| - 1], matches);
      assert forall j :: 0 <= j < |existing| - 1 ==> existing[..|existing| - 1][j] == existing[j];
      front + if matches(c, existing[|existing| - 1]) then 1 else 0
  }

  /** The index of the last existing node that `c` matches, or `fallback`
      when none does (later matches overwrite earlier ones). */
  function LastMatch(c: seq<real>, existing: seq<seq<real>>, matches: (seq<real>, seq<real>) -> bool, fallback: int): (r: int)
    ensures MatchCount(c, existing, matches) == 0 ==> r == fallback
    ensures MatchCount(c, existing, matches) > 0 ==>
      0 <= r < |existing| && matches(c, existing[r])
      && forall j :: r < j < |existing| ==> !matches(c, existing[j])
  {
    if |existing| == 0 then fallback
    else if matches(c, existing[|existing| - 1]) then |existing| - 1
    else
      assert forall j :: 0 <= j < |existing| - 1 ==> existing[..|existing| - 1][j] == existing[j];
      LastMatch(c, existing[..|existing| - 1], matches, fallback)
  }

  /** The number of (node, existing node) pairs that match. */
  function TotalMatches(natural: seq<seq<real>>, existing: seq<seq<real>>, matches: (seq<real>, seq<real>) -> bool): nat {
    if |natural| == 0 then 0
    else TotalMatches(natural[..|natural| - 1], existing, matches) + MatchCount(natural[|natural| - 1], existing, matches)
  }

  /** `std::vector<int>::resize`: kept entries, then zeros. */
  function Resized(prior: seq<int>, n: nat): (r: seq<int>)
    ensures |r| == n
    ensures forall i :: 0 <= i < n ==> r[i] == if i < |prior| then prior[i] else 0
  {
    seq(n, i requires 0 <= i < n => if i < |prior| then prior[i] else 0)
  }

  /** Every node matches some existing node. */
  predicate AllFound(natural: seq<seq<real>>, existing: seq<seq<real>>, matches: (seq<real>, seq<real>) -> bool) {
    forall i :: 0 <= i < |natural| ==> MatchCount(natural[i], existing, matches) > 0
  }

  /** The node indices after the search: for each node the last matching
      existing node, the previous entry where nothing matches. */
  function Indices(natural: seq<seq<real>>, existing: seq<seq<real>>, matches: (seq<real>, seq<real>) -> bool, prior: seq<int>): (r: seq<int>)
    ensures |r| == |natural|
    ensures forall i :: 0 <= i < |natural| && MatchCount(natural[i], existing, matches) > 0 ==>
      0 <= r[i] < |existing| && matches(natural[i], existing[r[i]])
      && forall j :: r[i] < j < |existing| ==> !matches(natural[i], existing[j])
    ensures forall i :: 0 <= i < |natural| && MatchCount(natural[i], existing, matches) == 0 ==>
      r[i] == if i < |prior| then prior[i] else 0
  {
    var kept := Resized(prior, |natural|);
    seq(|natural|, i requires 0 <= i < |natural| => LastMatch(natural[i], existing, matches, kept[i]))
  }

  /** `UpdateNodeIndices` as written: the natural node coordinates of the
      order are given, and the search fails when the number of matching pairs
      is below the node count. */
  function UpdateNodeIndicesAsWritten(order: TypeOrder, natural: seq<seq<real>>, existing: seq<seq<real>>,
                                      matches: (seq<real>, seq<real>) -> bool, prior: seq<int>): (r: Result<seq<int>>)
    requires NumNodes(order).Success? ==> |natural| == NumNodes(order).value
    ensures r.Success? <==> Supported(order) && TotalMatches(natural, existing, matches) >= |natural|
    ensures r.Success? ==> r.value == Indices(natural, existing, matches, prior)
  {
    var n :- NumNodes(order);
    if TotalMatches(natural, existing, matches) < n then Failure("Not all nodes found!")
    else Success(Indices(natural, existing, matches, prior))
  }

  /** The node search as its error message intends: it fails exactly when some
      node matches no existing node, so on success every index is a match. */
  function UpdateNodeIndices(order: TypeOrder, natural: seq<seq<real>>, existing: seq<seq<real>>,
                             matches: (seq<real>, seq<real>) -> bool, prior: seq<int>): (r: Result<seq<int>>)
    requires NumNodes(order).Success? ==> |natural| == NumNodes(order).value
    ensures r.Success? <==> Supported(order) && AllFound(natural, existing, matches)
    ensures r.Success? ==> |r.value| == |natural| && forall i :: 0 <= i < |natural| ==>
      0 <= r.value[i] < |existing| && matches(natural[i], existing[r.value[i]])
  {
    var n :- NumNodes(order);
    if !AllFound(natural, existing, matches) then Failure("Not all nodes found!")
    else Success(Indices(natural, existing, matches, prior))
  }

  lemma {:induction false} TotalAtLeastCount(natural: seq<seq<real>>, existing: seq<seq<real>>, matches: (seq<real>, seq<real>) -> bool)
    requires AllFound(natural, existing, matches)
    ensures TotalMatches(natural, existing, matches) >= |natural|
    decreases |natural|
  {
    if |natural| > 0 {
      var front := natural[..|natural| - 1];
      assert forall i :: 0 <= i < |front| ==> front[i] == natural[i];
      TotalAtLeastCount(front, existing, matches);
    }
  }

  lemma {:induction false} TotalBelowWithGap(natural: seq<seq<real>>, existing: seq<seq<real>>, matches: (seq<real>, seq<real>) -> bool, k: nat)
    requires forall i :: 0 <= i < |natural| ==> MatchCount(natural[i], existing, matches) <= 1
    requires k < |natural| && MatchCount(natural[k], existing, matches) == 0
    ensures TotalMatches(natural, existing, matches) < |natural|
    decreases |natural|
  {
    var front := natural[..|natural| - 1];
    assert forall i :: 0 <= i < |front| ==> front[i] == natural[i];
    if k == |natural| - 1 {
      TotalAtMost(front, existing, matches);
    } else {
      TotalBelowWithGap(front, existing, matches, k);
    }
  }

  lemma {:induction false} TotalAtMost(natural: seq<seq<real>>, existing: seq<seq<real>>, matches: (seq<real>, seq<real>) -> bool)
    requires forall i :: 0 <= i < |natural| ==> MatchCount(natural[i], existing, matches) <= 1
    ensures TotalMatches(natural, existing, matches) <= |natural|
    decreases |natural|
  {
    if |natural| > 0 {
      var front := natural[..|natural| - 1];
      assert forall i :: 0 <= i < |front| ==> front[i] == natural[i];
      TotalAtMost(front, existing, matches);
    }
  }

  /** Whatever the intended search accepts, the code as written accepts too,
      with the same indices. */
  lemma {:induction false} CorrectedAcceptsLess(order: TypeOrder, natural: seq<seq<real>>, existing: seq<seq<real>>,
                             matches: (seq<real>, seq<real>) -> bool, prior: seq<int>)
    requires NumNodes(order).Success? ==> |natural| == NumNodes(order).value
    requires UpdateNodeIndices(order, natural, existing, matches, prior).Success?
    ensures UpdateNodeIndicesAsWritten(order, natural, existing, matches, prior)
         == UpdateNodeIndices(order, natural, existing, matches, prior)
  {
    TotalAtLeastCount(natural, existing, matches);
  }

  /** When no node matches two existing nodes, counting pairs is the same as
      checking every node, and both searches agree. */
  lemma {:induction false} AgreeOnUniqueMatches(order: TypeOrder, natural: seq<seq<real>>, existing: seq<seq<real>>,
                             matches: (seq<real>, seq<real>) -> bool, prior: seq<int>)
    requires NumNodes(order).Success? ==> |natural| == NumNodes(order).value
    requires forall i :: 0 <= i < |natural| ==> MatchCount(natural[i], existing, matches) <= 1
    ensures UpdateNodeIndicesAsWritten(order, natural, existing, matches, prior)
         == UpdateNodeIndices(order, natural, existing, matches, prior)
  {
    if AllFound(natural, existing, matches) {
      TotalAtLeastCount(natural, existing, matches);
    } else {
      var k :| 0 <= k < |natural| && MatchCount(natural[k], existing, matches) == 0;
      TotalBelowWithGap(natural, existing, matches, k);
    }
  }

  /** Exact coordinate equality, the simplest node comparison. */
  predicate SameCoordinates(a: seq<real>, b: seq<real>) {
    a == b
  }

  /** As written, the search accepts a bilinear quad whose node 1 matches
      nothing, because node 0 matches two existing nodes. */
  lemma {:induction false} AsWrittenAcceptsMissingNode()
    ensures var natural := [[-1.0, -1.0], [1.0, -1.0], [1.0, 1.0], [-1.0, 1.0]];
            var existing := [[-1.0, -1.0], [-1.0, -1.0], [1.0, 1.0], [-1.0, 1.0]];
            UpdateNodeIndicesAsWritten(EQUIDISTANT1, natural, existing, SameCoordinates, []).Success?
            && !AllFound(natural, existing, SameCoordinates)
  {
    var natural := [[-1.0, -1.0], [1.0, -1.0], [1.0, 1.0], [-1.0, 1.0]];
    var existing := [[-1.0, -1.0], [-1.0, -1.0], [1.0, 1.0], [-1.0, 1.0]];
    var f := SameCoordinates;
    assert MatchCount(natural[1], existing, f) == 0 by {
      assert forall j :: 0 <= j < |existing| ==> existing[j][0] != 1.0 || existing[j][1] != -1.0;
    }
    assert existing[..3] == [existing[0], existing[1], existing[2]];
    assert existing[..3][..2] == [existing[0], existing[1]];
    assert existing[..3][..2][..1] == [existing[0]];
    assert MatchCount(natural[0], existing[..3][..2][..1], f) == 1;
    assert MatchCount(natural[0], existing[..3][..2], f) == 2;
    assert MatchCount(natural[0], existing, f) >= 2;
    assert MatchCount(natural[2], existing, f) >= 1 by {
      assert f(natural[2], existing[2]);
    }
    assert MatchCount(natural[3], existing, f) >= 1 by {
      assert f(natural[3], existing[3]);
    }
    assert natural[..3] == [natural[0], natural[1], natural[2]];
    assert natural[..3][..2] == [natural[0], natural[1]];
    assert natural[..3][..2][..1] == [natural[0]];
    assert TotalMatches(natural[..3][..2][..1], existing, f) >= 2;
    assert TotalMatches(natural[..3][..2], existing, f) >= 2;
    assert TotalMatches(natural[..3], existing, f) >= 3;
    assert TotalMatches(natural, existing, f) >= 4;
  }
}
