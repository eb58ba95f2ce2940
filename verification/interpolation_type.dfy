/** The dof registry of an element's interpolation (`InterpolationType`):
    one dof interpolation per dof type, the active and constitutive-input
    flags, the local start indices of the active dofs, the merged list of
    natural node coordinates and the node renumbering pairs.

    The dof interpolations themselves (`Interpolation2DQuad` and its
    siblings) are built by code outside this model; `AddDofInterpolation`
    receives what that construction produces. */
module InterpolationType {
  import opened Wrappers
  import opened NutoEnums
  import opened Vectors

  /** What the registry stores per dof. `standardIntegration` is the dof
      interpolation's own standard integration type, which may fail. */
  datatype DofInterpolation = DofInterpolation(
    order: TypeOrder,
    numDofs: nat,
    nodeCoordinates: seq<seq<real>>,
    standardIntegration: Result<IntegrationKind>,
    isActive: bool,
    isInput: bool,
    localStartIndex: nat,
    nodeIndices: seq<nat>)

  datatype Registry = Registry(
    shape: ShapeType,
    dimension: int,
    interpolations: map<Dof, DofInterpolation>,
    active: set<Dof>,
    numDofs: nat,
    numActiveDofs: nat,
    nodeCoordinates: seq<seq<real>>,
    nodeDofs: seq<set<Dof>>,
    renumbering: seq<(nat, nat)>)

  /** The constructor: no dofs, no nodes. */
  function Create(shape: ShapeType, dimension: int): (r: Registry)
    ensures Consistent(r)
  {
    PrefixSumNothing(map[], AllDofs, |OrderedDofs|);
    PrefixSumNothing(map[], {}, |OrderedDofs|);
    Registry(shape, dimension, map[], {}, 0, 0, [], [], [])
  }

  lemma {:induction false} PrefixSumNothing(interps: map<Dof, DofInterpolation>, within: set<Dof>, k: nat)
    requires k <= |OrderedDofs| && interps == map[]
    ensures PrefixSum(interps, within, k) == 0
  {
    if k > 0 {
      PrefixSumNothing(interps, within, k - 1);
    }
  }

  // ---------------------------------------------------------------------------
  // Dof counts and start indices

  /** What dof `d` adds to a sum over the dofs of `within`. */
  function Contribution(interps: map<Dof, DofInterpolation>, within: set<Dof>, d: Dof): nat {
    if d in interps && d in within then interps[d].numDofs else 0
  }

  /** The sum of the contributions of the first `k` dofs of the fixed order. */
  function PrefixSum(interps: map<Dof, DofInterpolation>, within: set<Dof>, k: nat): nat
    requires k <= |OrderedDofs|
  {
    if k == 0 then 0 else PrefixSum(interps, within, k - 1) + Contribution(interps, within, OrderedDofs[k - 1])
  }

  const AllDofs: set<Dof> := set d: Dof | d in OrderedDofs

  /** The number of dofs of all dof interpolations. */
  function TotalDofs(interps: map<Dof, DofInterpolation>): nat {
    PrefixSum(interps, AllDofs, |OrderedDofs|)
  }

  /** The number of dofs of the active dof interpolations. */
  function ActiveDofCount(interps: map<Dof, DofInterpolation>, active: set<Dof>): nat {
    PrefixSum(interps, active, |OrderedDofs|)
  }

  /** The local start index of a dof: the dof counts of the active dofs that
      precede it in the fixed order. */
  function StartIndex(interps: map<Dof, DofInterpolation>, active: set<Dof>, d: Dof): nat {
    PrefixSum(interps, active, DofPosition(d))
  }

  /** `UpdateLocalStartIndices`. */
  function WithStartIndices(interps: map<Dof, DofInterpolation>, active: set<Dof>): (r: map<Dof, DofInterpolation>)
    ensures r.Keys == interps.Keys
    ensures forall d :: d in r ==> r[d].localStartIndex == StartIndex(interps, active, d)
    ensures forall d :: d in r ==> r[d] == interps[d].(localStartIndex := r[d].localStartIndex)
  {
    map d | d in interps :: interps[d].(localStartIndex := StartIndex(interps, active, d))
  }

  /** The registry's bookkeeping agrees with its dof interpolations. */
  predicate Consistent(t: Registry) {
    FlagsAgree(t) && StartsAgree(t) && CountsAgree(t) && |t.nodeCoordinates| <= |t.nodeDofs|
  }

  /** The active set lists exactly the registered dofs flagged active. */
  predicate FlagsAgree(t: Registry) {
    && t.active <= t.interpolations.Keys
    && (forall d :: d in t.interpolations ==> (t.interpolations[d].isActive <==> d in t.active))
  }

  /** Every registered dof carries its start index. */
  predicate StartsAgree(t: Registry) {
    forall d :: d in t.interpolations ==> t.interpolations[d].localStartIndex == StartIndex(t.interpolations, t.active, d)
  }

  /** The two dof counts are the sums over the registered and the active dofs. */
  predicate CountsAgree(t: Registry) {
    t.numDofs == TotalDofs(t.interpolations) && t.numActiveDofs == ActiveDofCount(t.interpolations, t.active)
  }

  /** Changing what one dof contributes changes every prefix sum that covers
      it by the difference, and no other. */
  lemma {:induction false} PrefixSumChange(i1: map<Dof, DofInterpolation>, w1: set<Dof>,
                                           i2: map<Dof, DofInterpolation>, w2: set<Dof>, d: Dof, k: nat)
    requires k <= |OrderedDofs|
    requires forall e :: e != d ==> Contribution(i1, w1, e) == Contribution(i2, w2, e)
    ensures PrefixSum(i2, w2, k) as int == PrefixSum(i1, w1, k) as int
      + (if DofPosition(d) < k then Contribution(i2, w2, d) as int - Contribution(i1, w1, d) as int else 0)
  {
    if k > 0 {
      PrefixSumChange(i1, w1, i2, w2, d, k - 1);
      OrderedDofsDistinct(k - 1);
    }
  }

  /** Prefix sums grow with the prefix. */
  lemma {:induction false} PrefixSumMonotone(interps: map<Dof, DofInterpolation>, within: set<Dof>, j: nat, k: nat)
    requires j <= k <= |OrderedDofs|
    ensures PrefixSum(interps, within, j) <= PrefixSum(interps, within, k)
    decreases k - j
  {
    if j < k {
      PrefixSumMonotone(interps, within, j, k - 1);
    }
  }

  /** The local dof ranges of the active dofs lie within the active dof count
      and do not overlap: a dof that comes later in the order starts after
      the range of an earlier active one ends. */
  lemma {:induction false} ActiveRangesDisjoint(t: Registry, d: Dof, e: Dof)
    requires Consistent(t)
    requires d in t.active
    ensures t.interpolations[d].localStartIndex + t.interpolations[d].numDofs <= t.numActiveDofs
    ensures e in t.interpolations && DofPosition(d) < DofPosition(e) ==>
      t.interpolations[d].localStartIndex + t.interpolations[d].numDofs <= t.interpolations[e].localStartIndex
  {
    var p := DofPosition(d);
    assert PrefixSum(t.interpolations, t.active, p + 1) == StartIndex(t.interpolations, t.active, d) + t.interpolations[d].numDofs;
    PrefixSumMonotone(t.interpolations, t.active, p + 1, |OrderedDofs|);
    if e in t.interpolations && p < DofPosition(e) {
      PrefixSumMonotone(t.interpolations, t.active, p + 1, DofPosition(e));
    }
  }

  // ---------------------------------------------------------------------------
  // Flags

  /** `SetIsActive`: a dof that is not registered fails; otherwise the dof
      joins or leaves the active set and the start indices and the active
      dof count are recomputed. */
  function SetIsActive(t: Registry, isActive: bool, d: Dof): (r: Result<Registry>)
    ensures r.Success? <==> d in t.interpolations
    ensures r.Success? ==> (d in r.value.active <==> isActive)
    ensures r.Success? ==> r.value.active - {d} == t.active - {d}
    ensures r.Success? ==> r.value.interpolations.Keys == t.interpolations.Keys
    ensures r.Success? ==> forall e :: e in t.interpolations ==>
      r.value.interpolations[e].isActive == (if e == d then isActive else t.interpolations[e].isActive)
    ensures r.Success? ==> r.value.numActiveDofs == ActiveDofCount(r.value.interpolations, r.value.active)
  {
    if d !in t.interpolations then Failure("Dof is not a member of this interpolation type. Add it first.")
    else
      var active := if isActive then t.active + {d} else t.active - {d};
      var interps := t.interpolations[d := t.interpolations[d].(isActive := isActive)];
      var updated := WithStartIndices(interps, active);
      Success(t.(interpolations := updated, active := active, numActiveDofs := ActiveDofCount(updated, active)))
  }

  /** Contributions do not look at the start indices. */
  lemma {:induction false} ContributionIgnoresStart(interps: map<Dof, DofInterpolation>, active: set<Dof>, within: set<Dof>)
    ensures forall e :: Contribution(WithStartIndices(interps, active), within, e) == Contribution(interps, within, e)
  {
  }

  lemma {:induction false} PrefixSumIgnoresStart(interps: map<Dof, DofInterpolation>, active: set<Dof>, within: set<Dof>, k: nat)
    requires k <= |OrderedDofs|
    ensures PrefixSum(WithStartIndices(interps, active), within, k) == PrefixSum(interps, within, k)
  {
    if k > 0 {
      ContributionIgnoresStart(interps, active, within);
      PrefixSumIgnoresStart(interps, active, within, k - 1);
    }
  }

  /** The recomputed start indices are those of the updated map. */
  lemma {:induction false} StartIndicesHold(interps: map<Dof, DofInterpolation>, active: set<Dof>)
    ensures var r := WithStartIndices(interps, active);
      forall d :: d in r ==> r[d].localStartIndex == StartIndex(r, active, d)
  {
    forall d | d in WithStartIndices(interps, active)
      ensures WithStartIndices(interps, active)[d].localStartIndex == StartIndex(WithStartIndices(interps, active), active, d)
    {
      PrefixSumIgnoresStart(interps, active, active, DofPosition(d));
    }
  }

  /** `SetIsActive` keeps the registry consistent; switching an inactive dof
      on adds exactly its dof count to the active count, switching an active
      one off removes it. */
  lemma {:induction false} SetIsActiveCounts(t: Registry, isActive: bool, d: Dof)
    requires Consistent(t) && d in t.interpolations
    ensures Consistent(SetIsActive(t, isActive, d).value)
    ensures isActive && d !in t.active ==>
      SetIsActive(t, isActive, d).value.numActiveDofs == t.numActiveDofs + t.interpolations[d].numDofs
    ensures !isActive && d in t.active ==>
      SetIsActive(t, isActive, d).value.numActiveDofs + t.interpolations[d].numDofs == t.numActiveDofs
  {
    SetIsActiveFlags(t, isActive, d);
    SetIsActiveStarts(t, isActive, d);
    SetIsActiveTotals(t, isActive, d);
  }

  lemma {:induction false} SetIsActiveFlags(t: Registry, isActive: bool, d: Dof)
    requires FlagsAgree(t) && d in t.interpolations
    ensures FlagsAgree(SetIsActive(t, isActive, d).value)
    ensures SetIsActive(t, isActive, d).value.nodeCoordinates == t.nodeCoordinates
    ensures SetIsActive(t, isActive, d).value.nodeDofs == t.nodeDofs
  {
  }

  lemma {:induction false} SetIsActiveStarts(t: Registry, isActive: bool, d: Dof)
    requires d in t.interpolations
    ensures StartsAgree(SetIsActive(t, isActive, d).value)
  {
    var active := if isActive then t.active + {d} else t.active - {d};
    var interps := t.interpolations[d := t.interpolations[d].(isActive := isActive)];
    StartIndicesHold(interps, active);
  }

  lemma {:induction false} SetIsActiveTotals(t: Registry, isActive: bool, d: Dof)
    requires CountsAgree(t) && d in t.interpolations
    ensures CountsAgree(SetIsActive(t, isActive, d).value)
    ensures SetIsActive(t, isActive, d).value.numActiveDofs as int == t.numActiveDofs as int
      + (if isActive then t.interpolations[d].numDofs as int else 0)
      - (if d in t.active then t.interpolations[d].numDofs as int else 0)
  {
    var active := if isActive then t.active + {d} else t.active - {d};
    var interps := t.interpolations[d := t.interpolations[d].(isActive := isActive)];
    ActiveCountAfterToggle(t.interpolations, t.active, interps, active, d);
    TotalAfterToggle(t.interpolations, interps, d);
    PrefixSumIgnoresStart(interps, active, active, |OrderedDofs|);
    PrefixSumIgnoresStart(interps, active, AllDofs, |OrderedDofs|);
  }

  lemma {:induction false} ActiveCountAfterToggle(i1: map<Dof, DofInterpolation>, a1: set<Dof>,
                               i2: map<Dof, DofInterpolation>, a2: set<Dof>, d: Dof)
    requires d in i1 && i2.Keys == i1.Keys && i2[d].numDofs == i1[d].numDofs
    requires forall e :: e in i1 && e != d ==> i2[e] == i1[e]
    requires a2 - {d} == a1 - {d}
    ensures ActiveDofCount(i2, a2) as int == ActiveDofCount(i1, a1) as int
      + (if d in a2 then i1[d].numDofs as int else 0) - (if d in a1 then i1[d].numDofs as int else 0)
  {
    forall e | e != d
      ensures Contribution(i1, a1, e) == Contribution(i2, a2, e)
    {
      assert e in a1 - {d} <==> e in a2 - {d};
    }
    PrefixSumChange(i1, a1, i2, a2, d, |OrderedDofs|);
  }

  lemma {:induction false} TotalAfterToggle(i1: map<Dof, DofInterpolation>, i2: map<Dof, DofInterpolation>, d: Dof)
    requires d in i1 && i2.Keys == i1.Keys && i2[d].numDofs == i1[d].numDofs
    requires forall e :: e in i1 && e != d ==> i2[e] == i1[e]
    ensures TotalDofs(i2) == TotalDofs(i1)
  {
    PrefixSumChange(i1, AllDofs, i2, AllDofs, d, |OrderedDofs|);
  }

  /** `IsConstitutiveInput`: false for a dof that is not registered. */
  function IsConstitutiveInput(t: Registry, d: Dof): (r: bool)
    ensures r ==> d in t.interpolations
  {
    d in t.interpolations && t.interpolations[d].isInput
  }

  // ---------------------------------------------------------------------------
  // Natural node coordinates

  /** The tolerance of `CoordinatesAreEqual`. */
  const CoordinateTolerance: real := 0.0000000001

  /** `CoordinatesAreEqual`: the difference has norm at most 1e-10. The code
      asserts equal dimensions; vectors of different dimension are unequal here. */
  predicate CoordinatesAreEqual(a: seq<real>, b: seq<real>) {
    |a| == |b| && SquaredDistance(a, b) <= CoordinateTolerance * CoordinateTolerance
  }

  /** The last existing node whose coordinates equal `c`: the scan keeps
      overwriting the index, so the last match wins. */
  function LastMatch(coords: seq<seq<real>>, c: seq<real>): (r: Option<nat>)
    ensures r.None? <==> forall i :: 0 <= i < |coords| ==> !CoordinatesAreEqual(coords[i], c)
    ensures r.Some? ==> r.value < |coords| && CoordinatesAreEqual(coords[r.value], c)
    ensures r.Some? ==> forall j :: r.value < j < |coords| ==> !CoordinatesAreEqual(coords[j], c)
  {
    if |coords| == 0 then None
    else if CoordinatesAreEqual(coords[|coords| - 1], c) then Some(|coords| - 1)
    else LastMatch(coords[..|coords| - 1], c)
  }

  datatype Merged = Merged(coords: seq<seq<real>>, nodeDofs: seq<set<Dof>>, index: nat)

  /** One node of a new dof interpolation: an existing node at the same
      coordinates is reused (and every such node gains the dof); otherwise the
      node is appended and the new node gains the dof. */
  function MergeNode(coords: seq<seq<real>>, nodeDofs: seq<set<Dof>>, c: seq<real>, d: Dof): (m: Merged)
    requires |coords| < |nodeDofs|
    ensures |m.nodeDofs| == |nodeDofs|
    ensures m.index < |m.coords| <= |nodeDofs|
    ensures d in m.nodeDofs[m.index] && CoordinatesAreEqual(m.coords[m.index], c)
    ensures LastMatch(coords, c).Some? ==> m.coords == coords && m.index < |coords|
    ensures LastMatch(coords, c).None? ==> m.coords == coords + [c] && m.index == |coords|
    ensures forall k :: 0 <= k < |coords| ==>
      m.nodeDofs[k] == if CoordinatesAreEqual(coords[k], c) then nodeDofs[k] + {d} else nodeDofs[k]
    ensures forall k :: 0 <= k < |nodeDofs| ==> nodeDofs[k] <= m.nodeDofs[k]
  {
    match LastMatch(coords, c)
    case Some(i) =>
      var dofs := seq(|nodeDofs|, k requires 0 <= k < |nodeDofs| =>
        if k < |coords| && CoordinatesAreEqual(coords[k], c) then nodeDofs[k] + {d} else nodeDofs[k]);
      Merged(coords, dofs, i)
    case None =>
      SquaredDistanceSelf(c);
      var k := |coords|;
      Merged(coords + [c], nodeDofs[k := nodeDofs[k] + {d}], k)
  }

  /** All nodes of a new dof interpolation, in their local order. */
  function MergeNodes(coords: seq<seq<real>>, nodeDofs: seq<set<Dof>>, news: seq<seq<real>>, d: Dof): (m: (Merged, seq<nat>))
    requires |coords| + |news| <= |nodeDofs|
    ensures |m.0.nodeDofs| == |nodeDofs|
    ensures |coords| <= |m.0.coords| <= |coords| + |news|
    ensures m.0.coords[..|coords|] == coords
    ensures forall k :: 0 <= k < |nodeDofs| ==> nodeDofs[k] <= m.0.nodeDofs[k]
    ensures |m.1| == |news|
    ensures forall i :: 0 <= i < |news| ==>
      m.1[i] < |m.0.coords| && CoordinatesAreEqual(m.0.coords[m.1[i]], news[i]) && d in m.0.nodeDofs[m.1[i]]
  {
    if |news| == 0 then (Merged(coords, nodeDofs, 0), [])
    else
      var front := MergeNodes(coords, nodeDofs, news[..|news| - 1], d);
      var next := MergeNode(front.0.coords, front.0.nodeDofs, news[|news| - 1], d);
      MergeStep(front.0, front.1, next, news, d);
      (next, front.1 + [next.index])
  }

  /** Merging one more node keeps every earlier node where it was: the
      indices found for the earlier nodes stay valid. */
  lemma {:induction false} MergeStep(front: Merged, indices: seq<nat>, next: Merged, news: seq<seq<real>>, d: Dof)
    requires |news| > 0 && |indices| == |news| - 1 && |front.coords| < |front.nodeDofs|
    requires forall i :: 0 <= i < |indices| ==>
      indices[i] < |front.coords| && CoordinatesAreEqual(front.coords[indices[i]], news[i]) && d in front.nodeDofs[indices[i]]
    requires next == MergeNode(front.coords, front.nodeDofs, news[|news| - 1], d)
    ensures forall i :: 0 <= i < |news| ==>
      (indices + [next.index])[i] < |next.coords| && CoordinatesAreEqual(next.coords[(indices + [next.index])[i]], news[i])
      && d in next.nodeDofs[(indices + [next.index])[i]]
  {
    assert |front.coords| <= |next.coords|;
    forall i | 0 <= i < |news|
      ensures (indices + [next.index])[i] < |next.coords|
      ensures CoordinatesAreEqual(next.coords[(indices + [next.index])[i]], news[i])
      ensures d in next.nodeDofs[(indices + [next.index])[i]]
    {
      if i < |indices| {
        var k := indices[i];
        assert next.coords[k] == front.coords[k];
        assert front.nodeDofs[k] <= next.nodeDofs[k];
      }
    }
  }

  // ---------------------------------------------------------------------------
  // Node renumbering

  /** The reflection used to pair nodes: the point mirror for the 1D shapes,
      the swap of the first two coordinates otherwise. */
  function Reflect(shape: ShapeType, x: seq<real>): (r: Result<seq<real>>)
    ensures r.Success? <==> shape != OtherShape
    ensures r.Success? ==> |r.value| == |x|
  {
    match shape
    case SPRING => Success(Negated(x))
    case TRUSS1D => Success(Negated(x))
    case TRUSSXD => Success(Negated(x))
    case INTERFACE => Success(Negated(x))
    case OtherShape => Failure("not implemented for this shape type")
    case _ => Success(if |x| >= 2 then x[0 := x[1]][1 := x[0]] else x)
  }

  function Negated(x: seq<real>): (r: seq<real>)
    ensures |r| == |x| && forall i :: 0 <= i < |x| ==> r[i] == -x[i]
  {
    seq(|x|, i requires 0 <= i < |x| => -x[i])
  }

  /** The pairs (i, j) with i < j < `upto` whose node j sits at the mirror image of node i. */
  function RowPairs(coords: seq<seq<real>>, mirrored: seq<real>, i: nat, upto: nat): (r: seq<(nat, nat)>)
    requires upto <= |coords|
    ensures forall p :: p in r <==> p.0 == i && i < p.1 < upto && CoordinatesAreEqual(mirrored, coords[p.1])
    ensures forall k, l :: 0 <= k < l < |r| ==> r[k].1 < r[l].1
  {
    if upto <= i + 1 then []
    else
      var front := RowPairs(coords, mirrored, i, upto - 1);
      if CoordinatesAreEqual(mirrored, coords[upto - 1]) then front + [(i, upto - 1)] else front
  }

  /** `UpdateNodeRenumberingIndices` for the first `rows` nodes: every node i
      is compared with the later nodes j only. */
  function RenumberingPairs(shape: ShapeType, coords: seq<seq<real>>, rows: nat): (r: Result<seq<(nat, nat)>>)
    requires rows <= |coords|
    ensures shape == OtherShape && rows > 0 ==> r.Failure?
    ensures shape != OtherShape ==> r.Success?
    ensures r.Success? ==> forall p :: p in r.value ==> p.0 < p.1 < |coords|
    ensures r.Success? ==> forall p :: p in r.value <==>
      p.0 < rows && p.0 < p.1 < |coords| && Reflect(shape, coords[p.0]).Success?
      && CoordinatesAreEqual(Reflect(shape, coords[p.0]).value, coords[p.1])
  {
    if rows == 0 then Success([])
    else
      var front :- RenumberingPairs(shape, coords, rows - 1);
      var mirrored :- Reflect(shape, coords[rows - 1]);
      Success(front + RowPairs(coords, mirrored, rows - 1, |coords|))
  }

  /** The loop stops at the second-to-last node: the last node has no later partner. */
  function NodeRenumbering(shape: ShapeType, coords: seq<seq<real>>): (r: Result<seq<(nat, nat)>>)
    ensures shape != OtherShape ==> r.Success?
    ensures r.Success? ==> forall p :: p in r.value ==> p.0 < p.1 < |coords|
    ensures r.Success? ==> forall p :: p in r.value <==>
      p.0 < p.1 < |coords| && Reflect(shape, coords[p.0]).Success?
      && CoordinatesAreEqual(Reflect(shape, coords[p.0]).value, coords[p.1])
  {
    if |coords| == 0 then Success([])
    else RenumberingPairs(shape, coords, |coords| - 1)
  }

  // ---------------------------------------------------------------------------
  // Adding a dof

  predicate ShapeSupported(shape: ShapeType) {
    shape != OtherShape
  }

  /** `AddDofInterpolation`: a dof that is already registered fails, as does
      a shape type without interpolations. `created` is the new dof
      interpolation as its constructor builds it. COORDINATES is registered
      inactive and not as a constitutive input, every other dof active and
      as an input; the new nodes are merged into the node list and, for
      COORDINATES, the renumbering pairs are recomputed. */
  function AddDofInterpolation(t: Registry, d: Dof, created: DofInterpolation): (r: Result<Registry>)
    requires |t.nodeCoordinates| <= |t.nodeDofs|
    ensures r.Success? <==> d !in t.interpolations && ShapeSupported(t.shape)
    ensures r.Success? ==> r.value.interpolations.Keys == t.interpolations.Keys + {d}
    ensures r.Success? ==> r.value.numDofs == t.numDofs + created.numDofs
    ensures r.Success? ==> (r.value.interpolations[d].isActive <==> d != COORDINATES)
    ensures r.Success? ==> (IsConstitutiveInput(r.value, d) <==> d != COORDINATES)
    ensures r.Success? ==> r.value.active == if d == COORDINATES then t.active - {d} else t.active + {d}
    ensures r.Success? ==> |t.nodeCoordinates| <= |r.value.nodeCoordinates| <= |t.nodeCoordinates| + |created.nodeCoordinates|
    ensures r.Success? ==> r.value.nodeCoordinates[..|t.nodeCoordinates|] == t.nodeCoordinates
    ensures r.Success? && d != COORDINATES ==> r.value.renumbering == t.renumbering
    ensures r.Success? && d == COORDINATES ==> MirrorPairs(t.shape, created.nodeCoordinates, r.value.renumbering)
  {
    if d in t.interpolations then Failure("Dof exists.")
    else if !ShapeSupported(t.shape) then Failure("ShapeType not implemented.")
    else Success(Registered(t, d, created))
  }

  /** The registry after a successful `AddDofInterpolation`: the staged
      registry with its active dof count and, for COORDINATES, its node
      renumbering brought up to date. */
  function Registered(t: Registry, d: Dof, created: DofInterpolation): (r: Registry)
    requires |t.nodeCoordinates| <= |t.nodeDofs|
    requires d !in t.interpolations && ShapeSupported(t.shape)
    ensures r.interpolations.Keys == t.interpolations.Keys + {d}
    ensures r.numDofs == t.numDofs + created.numDofs
    ensures r.interpolations[d].isActive <==> d != COORDINATES
    ensures IsConstitutiveInput(r, d) <==> d != COORDINATES
    ensures r.active == if d == COORDINATES then t.active - {d} else t.active + {d}
    ensures |t.nodeCoordinates| <= |r.nodeCoordinates| <= |t.nodeCoordinates| + |created.nodeCoordinates|
    ensures r.nodeCoordinates[..|t.nodeCoordinates|] == t.nodeCoordinates
    ensures d != COORDINATES ==> r.renumbering == t.renumbering
    ensures d == COORDINATES ==> MirrorPairs(t.shape, created.nodeCoordinates, r.renumbering)
  {
    var s := Staged(t, d, created);
    s.(numActiveDofs := ActiveDofCount(s.interpolations, s.active), renumbering := Renumbering(s, d, created))
  }

  /** The registry with `d` inserted, its nodes merged and the start indices
      recomputed. */
  function Staged(t: Registry, d: Dof, created: DofInterpolation): (r: Registry)
    requires |t.nodeCoordinates| <= |t.nodeDofs|
    requires d !in t.interpolations && ShapeSupported(t.shape)
    ensures r.interpolations.Keys == t.interpolations.Keys + {d}
    ensures r.numDofs == t.numDofs + created.numDofs
    ensures r.interpolations[d].isActive <==> d != COORDINATES
    ensures IsConstitutiveInput(r, d) <==> d != COORDINATES
    ensures r.active == if d == COORDINATES then t.active - {d} else t.active + {d}
    ensures |t.nodeCoordinates| <= |r.nodeCoordinates| <= |t.nodeCoordinates| + |created.nodeCoordinates|
    ensures r.nodeCoordinates[..|t.nodeCoordinates|] == t.nodeCoordinates
  {
    var isOn := d != COORDINATES;
    var active := if isOn then t.active + {d} else t.active - {d};
    var news := created.nodeCoordinates;
    var grown := t.nodeDofs + seq(|news|, _ => {});
    var merged := MergeNodes(t.nodeCoordinates, grown, news, d);
    assert merged.0.coords[..|t.nodeCoordinates|] == t.nodeCoordinates;
    var entry := created.(isActive := isOn, isInput := isOn, nodeIndices := merged.1);
    var interps := WithStartIndices(t.interpolations[d := entry], active);
    assert interps[d].isActive == isOn && interps[d].isInput == isOn;
    t.(interpolations := interps, active := active, numDofs := t.numDofs + created.numDofs,
       nodeCoordinates := merged.0.coords, nodeDofs := merged.0.nodeDofs)
  }

  /** Registering COORDINATES recomputes the node renumbering pairs from the
      natural node coordinates of the COORDINATES interpolation itself (not
      from the merged node list); any other dof keeps them. */
  function Renumbering(s: Registry, d: Dof, created: DofInterpolation): seq<(nat, nat)> {
    if d != COORDINATES then s.renumbering
    else
      var pairs := NodeRenumbering(s.shape, created.nodeCoordinates);
      if pairs.Success? then pairs.value else []
  }

  /** `pairs` holds exactly the pairs i < j of the given nodes whose node j
      sits at the mirror image of node i. */
  ghost predicate MirrorPairs(shape: ShapeType, coords: seq<seq<real>>, pairs: seq<(nat, nat)>) {
    forall p :: p in pairs <==>
      p.0 < p.1 < |coords| && Reflect(shape, coords[p.0]).Success?
      && CoordinatesAreEqual(Reflect(shape, coords[p.0]).value, coords[p.1])
  }

  /** The dof map and active set right after registering `d`, before the
      start indices are recomputed. */
  function Inserted(t: Registry, d: Dof, created: DofInterpolation): (r: (map<Dof, DofInterpolation>, set<Dof>))
    requires |t.nodeCoordinates| <= |t.nodeDofs|
    requires d !in t.interpolations && ShapeSupported(t.shape)
    ensures r.0.Keys == t.interpolations.Keys + {d}
    ensures forall e :: e in t.interpolations ==> r.0[e] == t.interpolations[e]
    ensures r.0[d].numDofs == created.numDofs && r.0[d].isActive == (d != COORDINATES)
    ensures r.1 == if d == COORDINATES then t.active - {d} else t.active + {d}
    ensures AddDofInterpolation(t, d, created).value.interpolations == WithStartIndices(r.0, r.1)
    ensures AddDofInterpolation(t, d, created).value.active == r.1
    ensures AddDofInterpolation(t, d, created).value.numDofs == t.numDofs + created.numDofs
    ensures AddDofInterpolation(t, d, created).value.numActiveDofs == ActiveDofCount(WithStartIndices(r.0, r.1), r.1)
  {
    var isOn := d != COORDINATES;
    var active := if isOn then t.active + {d} else t.active - {d};
    var news := created.nodeCoordinates;
    var grown := t.nodeDofs + seq(|news|, _ => {});
    var merged := MergeNodes(t.nodeCoordinates, grown, news, d);
    var entry := created.(isActive := isOn, isInput := isOn, nodeIndices := merged.1);
    (t.interpolations[d := entry], active)
  }

  /** Adding a dof keeps the registry consistent: the total and active dof
      counts grow by the new dof count exactly when the new dof is counted. */
  lemma {:induction false} AddKeepsConsistent(t: Registry, d: Dof, created: DofInterpolation)
    requires Consistent(t)
    requires d !in t.interpolations && ShapeSupported(t.shape)
    ensures Consistent(AddDofInterpolation(t, d, created).value)
    ensures AddDofInterpolation(t, d, created).value.numActiveDofs ==
      t.numActiveDofs + (if d == COORDINATES then 0 else created.numDofs)
  {
    AddFlags(t, d, created);
    AddStarts(t, d, created);
    AddTotals(t, d, created);
  }

  lemma {:induction false} AddFlags(t: Registry, d: Dof, created: DofInterpolation)
    requires FlagsAgree(t) && |t.nodeCoordinates| <= |t.nodeDofs|
    requires d !in t.interpolations && ShapeSupported(t.shape)
    ensures FlagsAgree(AddDofInterpolation(t, d, created).value)
  {
    var ins := Inserted(t, d, created);
    forall e | e in ins.0
      ensures ins.0[e].isActive <==> e in ins.1
    {
      if e != d {
        assert ins.0[e] == t.interpolations[e];
      }
    }
    FlagsSurviveStartIndices(ins.0, ins.1);
  }

  /** Recomputing the start indices leaves the active flags alone. */
  lemma {:induction false} FlagsSurviveStartIndices(interps: map<Dof, DofInterpolation>, active: set<Dof>)
    requires forall e :: e in interps ==> (interps[e].isActive <==> e in active)
    ensures forall e :: e in WithStartIndices(interps, active) ==> (WithStartIndices(interps, active)[e].isActive <==> e in active)
  {
  }

  lemma {:induction false} AddStarts(t: Registry, d: Dof, created: DofInterpolation)
    requires |t.nodeCoordinates| <= |t.nodeDofs|
    requires d !in t.interpolations && ShapeSupported(t.shape)
    ensures StartsAgree(AddDofInterpolation(t, d, created).value)
  {
    var ins := Inserted(t, d, created);
    StartIndicesHold(ins.0, ins.1);
  }

  lemma {:induction false} AddTotals(t: Registry, d: Dof, created: DofInterpolation)
    requires CountsAgree(t) && t.active <= t.interpolations.Keys && |t.nodeCoordinates| <= |t.nodeDofs|
    requires d !in t.interpolations && ShapeSupported(t.shape)
    ensures CountsAgree(AddDofInterpolation(t, d, created).value)
    ensures AddDofInterpolation(t, d, created).value.numActiveDofs ==
      t.numActiveDofs + (if d == COORDINATES then 0 else created.numDofs)
  {
    var ins := Inserted(t, d, created);
    InsertedSums(t.interpolations, t.active, ins.0, ins.1, d);
    PrefixSumIgnoresStart(ins.0, ins.1, ins.1, |OrderedDofs|);
    PrefixSumIgnoresStart(ins.0, ins.1, AllDofs, |OrderedDofs|);
  }

  lemma {:induction false} InsertedSums(i1: map<Dof, DofInterpolation>, a1: set<Dof>, i2: map<Dof, DofInterpolation>, a2: set<Dof>, d: Dof)
    requires d !in i1 && a1 <= i1.Keys && d in i2
    requires forall e :: e in i1 ==> e in i2 && i2[e] == i1[e]
    requires i2.Keys == i1.Keys + {d}
    requires a2 - {d} == a1
    ensures TotalDofs(i2) == TotalDofs(i1) + i2[d].numDofs
    ensures ActiveDofCount(i2, a2) == ActiveDofCount(i1, a1) + (if d in a2 then i2[d].numDofs else 0)
  {
    forall e | e != d
      ensures Contribution(i1, a1, e) == Contribution(i2, a2, e)
      ensures Contribution(i1, AllDofs, e) == Contribution(i2, AllDofs, e)
    {
      assert e in a1 <==> e in a2;
    }
    PrefixSumChange(i1, a1, i2, a2, d, |OrderedDofs|);
    PrefixSumChange(i1, AllDofs, i2, AllDofs, d, |OrderedDofs|);
    assert d in AllDofs by {
      assert OrderedDofs[DofPosition(d)] == d;
    }
  }

  /** Every node of the new dof interpolation is linked to a registry node at
      the same coordinates, and that node lists the new dof. */
  lemma {:induction false} AddLinksNodes(t: Registry, d: Dof, created: DofInterpolation)
    requires |t.nodeCoordinates| <= |t.nodeDofs|
    requires d !in t.interpolations && ShapeSupported(t.shape)
    ensures var r := AddDofInterpolation(t, d, created).value;
      forall i :: 0 <= i < |created.nodeCoordinates| ==>
        var n := r.interpolations[d].nodeIndices[i];
        n < |r.nodeCoordinates| && CoordinatesAreEqual(r.nodeCoordinates[n], created.nodeCoordinates[i])
        && d in r.nodeDofs[n]
  {
  }

  // ---------------------------------------------------------------------------
  // Standard integration type

  /** The polynomial order the standard integration type is chosen by. */
  function OrderValue(o: TypeOrder): (r: Option<nat>)
    ensures r.Some? ==> 1 <= r.value <= 4
    ensures r.None? <==> o == OtherOrder
  {
    match o
    case EQUIDISTANT1 => Some(1)
    case EQUIDISTANT2 => Some(2)
    case LOBATTO2 => Some(2)
    case EQUIDISTANT3 => Some(3)
    case LOBATTO3 => Some(3)
    case EQUIDISTANT4 => Some(4)
    case LOBATTO4 => Some(4)
    case OtherOrder => None
  }

  /** The scan over the first `k` dofs, in set order: the highest order so
      far and the integration type of the dof that first reached it. */
  function StandardScan(interps: map<Dof, DofInterpolation>, k: nat): (r: Result<(nat, IntegrationKind)>)
    requires k <= |OrderedDofs|
    ensures (exists i :: 0 <= i < k && OrderedDofs[i] in interps && interps[OrderedDofs[i]].order == OtherOrder) ==> r.Failure?
    ensures r.Success? ==> r.value.0 <= 4
    ensures r.Success? ==> forall i :: 0 <= i < k && OrderedDofs[i] in interps ==>
      OrderValue(interps[OrderedDofs[i]].order).Some? && OrderValue(interps[OrderedDofs[i]].order).value <= r.value.0
    ensures r.Success? && r.value.0 == 0 ==> r.value.1 == NotSet
    ensures (forall i :: 0 <= i < k ==> OrderedDofs[i] !in interps) ==> r == Success((0, NotSet))
    ensures r.Success? && r.value.0 > 0 ==> exists i :: 0 <= i < k && FirstWithOrder(interps, i, r.value.0)
                                                    && interps[OrderedDofs[i]].standardIntegration == Success(r.value.1)
  {
    if k == 0 then Success((0, NotSet))
    else
      var front :- StandardScan(interps, k - 1);
      var d := OrderedDofs[k - 1];
      if d !in interps then Success(front)
      else match OrderValue(interps[d].order)
        case None => Failure("Standard integration type is not implemented.")
        case Some(o) =>
          if o > front.0 then
            var kind :- interps[d].standardIntegration;
            Success((o, kind))
          else Success(front)
  }

  /** Dof `i` of the order is registered, has order `o`, and no earlier
      registered dof reaches `o`. */
  predicate FirstWithOrder(interps: map<Dof, DofInterpolation>, i: nat, o: nat)
    requires i < |OrderedDofs|
  {
    && OrderedDofs[i] in interps
    && OrderValue(interps[OrderedDofs[i]].order) == Some(o)
    && forall j :: 0 <= j < i && OrderedDofs[j] in interps ==>
         OrderValue(interps[OrderedDofs[j]].order).Some? && OrderValue(interps[OrderedDofs[j]].order).value < o
  }

  /** `GetStandardIntegrationType`: the standard integration type of the
      highest-order dof, the earliest dof winning ties; NotSet without dofs. */
  function GetStandardIntegrationType(t: Registry): (r: Result<IntegrationKind>)
    ensures t.interpolations == map[] ==> r == Success(NotSet)
    ensures r.Success? && r.value != NotSet ==>
      exists d :: d in t.interpolations && t.interpolations[d].standardIntegration == Success(r.value)
  {
    var s :- StandardScan(t.interpolations, |OrderedDofs|);
    Success(s.1)
  }

  /** A registered dof with an unsupported order makes the query fail. */
  lemma {:induction false} UnsupportedOrderFails(t: Registry, d: Dof)
    requires d in t.interpolations && t.interpolations[d].order == OtherOrder
    ensures GetStandardIntegrationType(t).Failure?
  {
    assert OrderedDofs[DofPosition(d)] == d;
  }

  /** On success the answer belongs to a dof of maximal order that no earlier
      dof of the same order precedes. */
  lemma {:induction false} StandardIntegrationIsFirstHighest(t: Registry)
    requires GetStandardIntegrationType(t).Success?
    ensures var kind := GetStandardIntegrationType(t).value;
      kind == NotSet ||
        exists i, o :: (0 <= i < |OrderedDofs| && FirstWithOrder(t.interpolations, i, o)
          && t.interpolations[OrderedDofs[i]].standardIntegration == Success(kind)
          && forall d :: d in t.interpolations ==>
               OrderValue(t.interpolations[d].order).Some? && OrderValue(t.interpolations[d].order).value <= o)
  {
    var s := StandardScan(t.interpolations, |OrderedDofs|).value;
    forall d | d in t.interpolations
      ensures OrderValue(t.interpolations[d].order).Some? && OrderValue(t.interpolations[d].order).value <= s.0
    {
      assert OrderedDofs[DofPosition(d)] == d;
    }
  }
}
