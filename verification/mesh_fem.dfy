/** Node lookup and node filters of a finite-element mesh (`MeshFem`).

    Every element contributes, in its local node order, a list of node
    sites: a node id and the global position at which it sits. For the
    coordinate element the position is the node's stored value; for the
    element of a dof type it is the coordinate interpolation evaluated at
    the dof node's natural coordinates, which this model receives as data. */
module MeshFem {
  import opened Wrappers
  import opened Vectors

  datatype Site = Site(node: int, coords: seq<real>)

  /** One element of the mesh: its coordinate node sites and, per dof type
      name, the sites of that dof's nodes. */
  datatype MeshElement = MeshElement(coordinateNodes: seq<Site>, dofNodes: map<string, seq<Site>>)

  datatype Mesh<I> = Mesh(elements: seq<MeshElement>, interpolations: seq<I>)

  /** Eigen's dummy precision for `double`, used by `isMuchSmallerThan`. */
  const Precision: real := 0.000000000001

  /** `ToComponentIndex`. */
  datatype Direction = X | Y | Z

  function ComponentIndex(d: Direction): nat {
    match d
    case X => 0
    case Y => 1
    case Z => 2
  }

  /** `CreateInterpolation`: appends a copy and returns it. */
  function CreateInterpolation<I>(m: Mesh<I>, interpolation: I): (r: (Mesh<I>, I))
    ensures |r.0.interpolations| == |m.interpolations| + 1
    ensures r.0.interpolations[..|m.interpolations|] == m.interpolations
    ensures r.0.interpolations[|m.interpolations|] == r.1 == interpolation
    ensures r.0.elements == m.elements
  {
    (m.(interpolations := m.interpolations + [interpolation]), interpolation)
  }

  /** `(p - q).isMuchSmallerThan(tol)`: the squared norm of the difference is
      at most (precision * tol)^2. Positions of another dimension never match. */
  predicate Matches(p: seq<real>, q: seq<real>, tol: real) {
    |p| == |q| && SquaredDistance(p, q) <= (Precision * tol) * (Precision * tol)
  }

  /** A position always matches itself. */
  lemma {:induction false} MatchesItself(p: seq<real>, tol: real)
    ensures Matches(p, p, tol)
  {
    SquaredDistanceSelf(p);
  }

  /** The sites of all elements, element after element. */
  function AllSites(lists: seq<seq<Site>>): (r: seq<Site>)
    ensures forall s :: s in r <==> exists e :: 0 <= e < |lists| && s in lists[e]
  {
    if |lists| == 0 then []
    else
      var front := AllSites(lists[..|lists| - 1]);
      assert forall e :: 0 <= e < |lists| - 1 ==> lists[..|lists| - 1][e] == lists[e];
      front + lists[|lists| - 1]
  }

  function CoordinateSites(m: Mesh): seq<seq<Site>> {
    seq(|m.elements|, e requires 0 <= e < |m.elements| => m.elements[e].coordinateNodes)
  }

  /** Every element has nodes for the dof type. */
  predicate HasDof(m: Mesh, dofType: string) {
    forall e :: 0 <= e < |m.elements| ==> dofType in m.elements[e].dofNodes
  }

  function DofSites(m: Mesh, dofType: string): seq<seq<Site>>
    requires HasDof(m, dofType)
  {
    seq(|m.elements|, e requires 0 <= e < |m.elements| => m.elements[e].dofNodes[dofType])
  }

  /** `node` belongs to a site that matches `q` and that no earlier
      matching site precedes. */
  ghost predicate FirstMatch(sites: seq<Site>, q: seq<real>, tol: real, node: int) {
    exists k :: 0 <= k < |sites| && sites[k].node == node && Matches(sites[k].coords, q, tol)
                && forall j :: 0 <= j < k ==> !Matches(sites[j].coords, q, tol)
  }

  /** The first site in the list whose position matches `q`; without one the
      lookup fails. */
  function FirstAt(sites: seq<Site>, q: seq<real>, tol: real): (r: Result<int>)
    ensures r.Failure? <==> forall k :: 0 <= k < |sites| ==> !Matches(sites[k].coords, q, tol)
    ensures r.Success? ==> FirstMatch(sites, q, tol, r.value)
  {
    if |sites| == 0 then Failure("There is no node at the given coordinates")
    else if Matches(sites[0].coords, q, tol) then Success(sites[0].node)
    else
      var rest := FirstAt(sites[1..], q, tol);
      assert forall k :: 1 <= k < |sites| ==> sites[k] == sites[1..][k - 1];
      rest
  }

  /** `NodeAtCoordinate` over the coordinate nodes. */
  function NodeAtCoordinate(m: Mesh, q: seq<real>, tol: real): (r: Result<int>)
    ensures r.Success? ==> r.value in NodesTotal(m)
    ensures r.Success? ==> FirstMatch(AllSites(CoordinateSites(m)), q, tol, r.value)
    ensures r.Failure? <==> forall e, s :: 0 <= e < |m.elements| && s in m.elements[e].coordinateNodes ==> !Matches(s.coords, q, tol)
  {
    var lists := CoordinateSites(m);
    assert forall e :: 0 <= e < |m.elements| ==> lists[e] == m.elements[e].coordinateNodes;
    var sites := AllSites(lists);
    var r := FirstAt(sites, q, tol);
    assert r.Success? ==> exists k :: 0 <= k < |sites| && sites[k].node == r.value;
    assert (forall k :: 0 <= k < |sites| ==> !Matches(sites[k].coords, q, tol)) <==> (forall s :: s in sites ==> !Matches(s.coords, q, tol));
    r
  }

  /** `NodeAtCoordinate` for a dof type, over the interpolated dof node positions. */
  function NodeAtCoordinateDof(m: Mesh, dofType: string, q: seq<real>, tol: real): (r: Result<int>)
    requires HasDof(m, dofType)
    ensures r.Success? ==> r.value in NodesTotalDof(m, dofType)
    ensures r.Success? ==> FirstMatch(AllSites(DofSites(m, dofType)), q, tol, r.value)
    ensures r.Failure? <==> forall e, s :: 0 <= e < |m.elements| && s in m.elements[e].dofNodes[dofType] ==> !Matches(s.coords, q, tol)
  {
    var lists := DofSites(m, dofType);
    assert forall e :: 0 <= e < |m.elements| ==> lists[e] == m.elements[e].dofNodes[dofType];
    var sites := AllSites(lists);
    assert (forall k :: 0 <= k < |sites| ==> !Matches(sites[k].coords, q, tol)) <==> (forall s :: s in sites ==> !Matches(s.coords, q, tol));
    var r := FirstAt(sites, q, tol);
    assert r.Success? ==> exists k :: 0 <= k < |sites| && sites[k].node == r.value;
    r
  }

  /** The condition of `NodesAtAxis`: the chosen component lies within `tol`
      of the offset. A position without that component never qualifies. */
  predicate OnAxis(s: Site, direction: Direction, offset: real, tol: real) {
    var c := ComponentIndex(direction);
    c < |s.coords| && -tol < s.coords[c] - offset < tol
  }

  /** The nodes of the listed sites that satisfy the axis condition. */
  function AxisNodes(sites: seq<Site>, direction: Direction, offset: real, tol: real): (r: set<int>)
    ensures forall n :: n in r <==> exists s :: s in sites && s.node == n && OnAxis(s, direction, offset, tol)
  {
    if |sites| == 0 then {}
    else
      var last := sites[|sites| - 1];
      var front := AxisNodes(sites[..|sites| - 1], direction, offset, tol);
      assert forall s :: s in sites <==> s in sites[..|sites| - 1] || s == last;
      if OnAxis(last, direction, offset, tol) then front + {last.node} else front
  }

  /** `NodesAtAxis` over the coordinate nodes. */
  function NodesAtAxis(m: Mesh, direction: Direction, offset: real, tol: real): (r: set<int>)
    ensures forall n :: n in r <==>
      exists e, s :: 0 <= e < |m.elements| && s in m.elements[e].coordinateNodes && s.node == n && OnAxis(s, direction, offset, tol)
  {
    var lists := CoordinateSites(m);
    assert forall e :: 0 <= e < |m.elements| ==> lists[e] == m.elements[e].coordinateNodes;
    AxisNodes(AllSites(lists), direction, offset, tol)
  }

  /** `NodesAtAxis` for a dof type, over the interpolated dof node positions. */
  function NodesAtAxisDof(m: Mesh, dofType: string, direction: Direction, offset: real, tol: real): (r: set<int>)
    requires HasDof(m, dofType)
    ensures forall n :: n in r <==>
      exists e, s :: 0 <= e < |m.elements| && s in m.elements[e].dofNodes[dofType] && s.node == n && OnAxis(s, direction, offset, tol)
  {
    var lists := DofSites(m, dofType);
    assert forall e :: 0 <= e < |m.elements| ==> lists[e] == m.elements[e].dofNodes[dofType];
    AxisNodes(AllSites(lists), direction, offset, tol)
  }

  /** The nodes of the listed sites. */
  function SiteNodes(sites: seq<Site>): (r: set<int>)
    ensures forall n :: n in r <==> exists s :: s in sites && s.node == n
  {
    if |sites| == 0 then {}
    else
      assert forall s :: s in sites <==> s in sites[..|sites| - 1] || s == sites[|sites| - 1];
      SiteNodes(sites[..|sites| - 1]) + {sites[|sites| - 1].node}
  }

  /** `NodesTotal`: every coordinate node of every element. */
  function NodesTotal(m: Mesh): (r: set<int>)
    ensures forall e, s :: 0 <= e < |m.elements| && s in m.elements[e].coordinateNodes ==> s.node in r
    ensures forall n :: n in r ==> exists e, s :: 0 <= e < |m.elements| && s in m.elements[e].coordinateNodes && s.node == n
  {
    var lists := CoordinateSites(m);
    assert forall e :: 0 <= e < |m.elements| ==> lists[e] == m.elements[e].coordinateNodes;
    SiteNodes(AllSites(lists))
  }

  /** `NodesTotal` for a dof type: every dof node of every element. */
  function NodesTotalDof(m: Mesh, dofType: string): (r: set<int>)
    requires HasDof(m, dofType)
    ensures forall e, s :: 0 <= e < |m.elements| && s in m.elements[e].dofNodes[dofType] ==> s.node in r
    ensures forall n :: n in r ==> exists e, s :: 0 <= e < |m.elements| && s in m.elements[e].dofNodes[dofType] && s.node == n
  {
    var lists := DofSites(m, dofType);
    assert forall e :: 0 <= e < |m.elements| ==> lists[e] == m.elements[e].dofNodes[dofType];
    SiteNodes(AllSites(lists))
  }

  /** The nodes on an axis are nodes of the mesh. */
  lemma {:induction false} AxisNodesAreMeshNodes(m: Mesh, direction: Direction, offset: real, tol: real)
    ensures NodesAtAxis(m, direction, offset, tol) <= NodesTotal(m)
  {
  }

  /** A coordinate node is always found at its own position. */
  lemma {:induction false} NodeFoundAtItsPosition(m: Mesh, e: nat, k: nat, tol: real)
    requires e < |m.elements| && k < |m.elements[e].coordinateNodes|
    ensures NodeAtCoordinate(m, m.elements[e].coordinateNodes[k].coords, tol).Success?
  {
    var s := m.elements[e].coordinateNodes[k];
    var lists := CoordinateSites(m);
    assert lists[e] == m.elements[e].coordinateNodes;
    assert s in lists[e];
    var sites := AllSites(lists);
    assert s in sites;
    MatchesItself(s.coords, tol);
  }
}
