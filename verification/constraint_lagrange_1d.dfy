/** A 1D displacement constraint on every node of a group, enforced with one
    augmented-Lagrange multiplier per node
    (`ConstraintLagrangeNodeGroupDisplacements1D`). */
module ConstraintLagrangeNodeGroupDisplacements1D {
  import opened Wrappers
  import opened GlobalDofVectors

  /** `Constraint::eEquationSign`; `OtherSign` is any value outside the three. */
  datatype Sign = EQUAL | SMALLER | GREATER | OtherSign

  /** The multipliers' values and global dofs are kept per group member, in
      the group's iteration order. The penalty factor comes from the Lagrange
      base class. */
  datatype Constraint = Constraint(sign: Sign, rhs: real, penalty: real, values: seq<real>, dofs: seq<int>)

  predicate Valid(c: Constraint) {
    |c.values| == |c.dofs|
  }

  /** The constructor: the direction must be a 1x1 matrix; there is one
      multiplier per group member, each starting at 0 (and so does its dof). */
  function Create(groupSize: nat, directionRows: nat, directionColumns: nat, sign: Sign, rhs: real, penalty: real): (r: Result<Constraint>)
    ensures r.Success? <==> directionRows == 1 && directionColumns == 1
    ensures r.Success? ==> Valid(r.value) && NumLagrangeMultipliers(r.value) == groupSize
    ensures r.Success? ==> forall k :: 0 <= k < groupSize ==> r.value.values[k] == 0.0
    ensures r.Success? ==> r.value.sign == sign && r.value.rhs == rhs
  {
    if directionColumns != 1 || directionRows != 1 then
      Failure("Dimension of the direction matrix must be equal to the dimension of the structure.")
    else
      Success(Constraint(sign, rhs, penalty, seq(groupSize, _ => 0.0), seq(groupSize, _ => 0)))
  }

  function NumLagrangeMultipliers(c: Constraint): nat {
    |c.values|
  }

  /** Numbers the multipliers consecutively from `next` and returns the
      advanced counter. */
  function SetGlobalDofs(c: Constraint, next: int): (r: (Constraint, int))
    requires Valid(c)
    ensures Valid(r.0) && r.0.values == c.values
    ensures r.1 == next + NumLagrangeMultipliers(c)
    ensures forall k :: 0 <= k < |c.dofs| ==> next <= r.0.dofs[k] < r.1
    ensures forall k, m :: 0 <= k < m < |c.dofs| ==> r.0.dofs[k] < r.0.dofs[m]
  {
    (c.(dofs := seq(|c.dofs|, k requires 0 <= k < |c.dofs| => next + k)), next + |c.dofs|)
  }

  // ---------------------------------------------------------------------
  // Global dof vectors
  // ---------------------------------------------------------------------

  predicate DofsInRange(c: Constraint, active: seq<real>, dependent: seq<real>) {
    forall k :: 0 <= k < |c.dofs| ==> InRange(active, dependent, c.dofs[k])
  }

  /** `SetGlobalDofValues`: every multiplier takes the value at its dof. */
  function SetGlobalDofValues(c: Constraint, active: seq<real>, dependent: seq<real>): (r: Constraint)
    requires Valid(c) && DofsInRange(c, active, dependent)
    ensures Valid(r) && r.dofs == c.dofs
    ensures forall k :: 0 <= k < |c.dofs| ==> r.values[k] == Read(active, dependent, c.dofs[k])
  {
    c.(values := seq(|c.dofs|, k requires 0 <= k < |c.dofs| => Read(active, dependent, c.dofs[k])))
  }

  /** `GetGlobalDofValues` after its first `k` multipliers: each writes its
      value to its dof, a later multiplier overwriting an earlier one on the
      same dof. */
  function WriteValues(c: Constraint, active: seq<real>, dependent: seq<real>, k: nat): (r: (seq<real>, seq<real>))
    requires Valid(c) && DofsInRange(c, active, dependent) && k <= |c.dofs|
    ensures |r.0| == |active| && |r.1| == |dependent|
  {
    if k == 0 then (active, dependent)
    else
      var prev := WriteValues(c, active, dependent, k - 1);
      Write(prev.0, prev.1, c.dofs[k - 1], c.values[k - 1])
  }

  function GetGlobalDofValues(c: Constraint, active: seq<real>, dependent: seq<real>): (r: (seq<real>, seq<real>))
    requires Valid(c) && DofsInRange(c, active, dependent)
    ensures |r.0| == |active| && |r.1| == |dependent|
    ensures forall d :: InRange(active, dependent, d) && d !in c.dofs ==> Read(r.0, r.1, d) == Read(active, dependent, d)
  {
    WritesFrame(c, active, dependent, |c.dofs|);
    WriteValues(c, active, dependent, |c.dofs|)
  }

  predicate DistinctDofs(c: Constraint) {
    forall k, m :: 0 <= k < m < |c.dofs| ==> c.dofs[k] != c.dofs[m]
  }

  lemma {:induction false} WritesFrame(c: Constraint, active: seq<real>, dependent: seq<real>, k: nat)
    requires Valid(c) && DofsInRange(c, active, dependent) && k <= |c.dofs|
    ensures forall d :: InRange(active, dependent, d) && d !in c.dofs[..k] ==>
      Read(WriteValues(c, active, dependent, k).0, WriteValues(c, active, dependent, k).1, d) == Read(active, dependent, d)
    decreases k
  {
    if k > 0 {
      WritesFrame(c, active, dependent, k - 1);
      assert forall d :: d !in c.dofs[..k] ==> d !in c.dofs[..k - 1] && d != c.dofs[k - 1] by {
        assert c.dofs[..k] == c.dofs[..k - 1] + [c.dofs[k - 1]];
      }
    }
  }

  lemma {:induction false} WritesStored(c: Constraint, active: seq<real>, dependent: seq<real>, k: nat, m: nat)
    requires Valid(c) && DofsInRange(c, active, dependent) && DistinctDofs(c)
    requires m < k <= |c.dofs|
    ensures Read(WriteValues(c, active, dependent, k).0, WriteValues(c, active, dependent, k).1, c.dofs[m]) == c.values[m]
    decreases k
  {
    if m < k - 1 {
      WritesStored(c, active, dependent, k - 1, m);
    }
  }

  /** Writing the multipliers out and reading them back gives the same values
      when no two multipliers share a dof. */
  lemma {:induction false} GetThenSetRoundTrip(c: Constraint, active: seq<real>, dependent: seq<real>)
    requires Valid(c) && DofsInRange(c, active, dependent) && DistinctDofs(c)
    ensures var written := GetGlobalDofValues(c, active, dependent);
            DofsInRange(c, written.0, written.1)
            && SetGlobalDofValues(c, written.0, written.1) == c
  {
    var written := GetGlobalDofValues(c, active, dependent);
    forall m | 0 <= m < |c.dofs|
      ensures Read(written.0, written.1, c.dofs[m]) == c.values[m]
    {
      WritesStored(c, active, dependent, |c.dofs|, m);
    }
  }

  /** Reading the multipliers in and writing them out leaves the vectors unchanged. */
  lemma {:induction false} SetThenGetRoundTrip(c: Constraint, active: seq<real>, dependent: seq<real>)
    requires Valid(c) && DofsInRange(c, active, dependent) && DistinctDofs(c)
    ensures GetGlobalDofValues(SetGlobalDofValues(c, active, dependent), active, dependent) == (active, dependent)
  {
    var c2 := SetGlobalDofValues(c, active, dependent);
    var written := GetGlobalDofValues(c2, active, dependent);
    forall d | InRange(active, dependent, d)
      ensures Read(written.0, written.1, d) == Read(active, dependent, d)
    {
      if d in c.dofs {
        var m :| 0 <= m < |c.dofs| && c.dofs[m] == d;
        WritesStored(c2, active, dependent, |c.dofs|, m);
      }
    }
    ReadExtensional(written.0, written.1, active, dependent);
  }

  /** `RenumberGlobalDofs`: every multiplier dof goes through the mapping. */
  function RenumberGlobalDofs(c: Constraint, mapping: seq<int>): (r: Constraint)
    requires Valid(c)
    requires forall k :: 0 <= k < |c.dofs| ==> 0 <= c.dofs[k] < |mapping|
    ensures Valid(r) && r.values == c.values
    ensures forall k :: 0 <= k < |c.dofs| ==> r.dofs[k] == mapping[c.dofs[k]]
  {
    c.(dofs := seq(|c.dofs|, k requires 0 <= k < |c.dofs| => mapping[c.dofs[k]]))
  }

  /** Renumbering with an injective mapping keeps the multiplier dofs distinct. */
  lemma {:induction false} RenumberKeepsDistinct(c: Constraint, mapping: seq<int>)
    requires Valid(c) && DistinctDofs(c)
    requires forall k :: 0 <= k < |c.dofs| ==> 0 <= c.dofs[k] < |mapping|
    requires forall i, j :: 0 <= i < j < |mapping| ==> mapping[i] != mapping[j]
    ensures DistinctDofs(RenumberGlobalDofs(c, mapping))
  {
    var r := RenumberGlobalDofs(c, mapping);
    forall k, m | 0 <= k < m < |c.dofs| ensures r.dofs[k] != r.dofs[m] {
      if c.dofs[k] < c.dofs[m] {
        assert mapping[c.dofs[k]] != mapping[c.dofs[m]];
      } else {
        assert mapping[c.dofs[m]] != mapping[c.dofs[k]];
      }
    }
  }

  // ---------------------------------------------------------------------
  // Gradient and tangent
  // ---------------------------------------------------------------------

  /** A constrained node: its current displacement and its displacement dof. */
  datatype NodeState = NodeState(displacement: real, dof: int)

  /** Whether the constraint acts on a node: always for EQUAL; for SMALLER
      and GREATER when the violation exceeds -lambda / penalty. */
  predicate Engaged(sign: Sign, rhs: real, penalty: real, lambda: real, u: real)
    requires penalty != 0.0
  {
    match sign
    case EQUAL => true
    case SMALLER => u - rhs > -lambda / penalty
    case GREATER => rhs - u > -lambda / penalty
    case OtherSign => false
  }

  /** The node's two gradient entries (multiplier row, displacement row). A
      disengaged inequality leaves the displacement row at zero. */
  function NodeGradient(sign: Sign, rhs: real, penalty: real, lambda: real, u: real): (g: (real, real))
    requires penalty != 0.0
    requires sign != OtherSign
  {
    if !Engaged(sign, rhs, penalty, lambda, u) then (-lambda / penalty, 0.0)
    else if sign == GREATER then (rhs - u, -lambda - penalty * (rhs - u))
    else (u - rhs, lambda + penalty * (u - rhs))
  }

  /** An entry added to the symmetric tangent, in local (row, column) positions. */
  datatype Entry = Entry(row: nat, column: nat, value: real)

  /** The node's tangent entries, local rows 0 (multiplier) and 1 (displacement). */
  function NodeTangent(sign: Sign, rhs: real, penalty: real, lambda: real, u: real): (t: seq<Entry>)
    requires penalty != 0.0
    requires sign != OtherSign
    ensures forall e :: e in t ==> e.row <= e.column <= 1
  {
    if !Engaged(sign, rhs, penalty, lambda, u) then [Entry(0, 0, -1.0 / penalty)]
    else if sign == GREATER then [Entry(0, 1, -1.0), Entry(1, 1, penalty)]
    else [Entry(0, 1, 1.0), Entry(1, 1, penalty)]
  }

  /** The product of a symmetric matrix, stored by its upper-triangle entries,
      with the increment (dLambda, dU). */
  function Apply(t: seq<Entry>, dLambda: real, dU: real): (real, real) {
    if |t| == 0 then (0.0, 0.0)
    else
      var rest := Apply(t[1..], dLambda, dU);
      var e := t[0];
      var atRow := e.value * Increment(e.column, dLambda, dU);
      var atColumn := if e.row != e.column then e.value * Increment(e.row, dLambda, dU) else 0.0;
      (rest.0 + (if e.row == 0 then atRow else 0.0) + (if e.column == 0 then atColumn else 0.0),
       rest.1 + (if e.row == 1 then atRow else 0.0) + (if e.column == 1 then atColumn else 0.0))
  }

  function Increment(local: nat, dLambda: real, dU: real): real {
    if local == 0 then dLambda else dU
  }

  lemma {:induction false} ApplyDiagonal(v: real, dLambda: real, dU: real)
    ensures Apply([Entry(0, 0, v)], dLambda, dU) == (v * dLambda, 0.0)
  {
    var t := [Entry(0, 0, v)];
    assert t[1..] == [];
    assert Apply(t[1..], dLambda, dU) == (0.0, 0.0);
    assert t[0].row == 0;
    assert Apply(t, dLambda, dU).0 == v * dLambda;
  }

  lemma {:induction false} ApplyCoupled(coupling: real, penalty: real, dLambda: real, dU: real)
    ensures Apply([Entry(0, 1, coupling), Entry(1, 1, penalty)], dLambda, dU)
         == (coupling * dU, coupling * dLambda + penalty * dU)
  {
    var t := [Entry(0, 1, coupling), Entry(1, 1, penalty)];
    assert t[1..] == [Entry(1, 1, penalty)];
    assert t[1..][1..] == [];
    assert Apply(t[1..][1..], dLambda, dU) == (0.0, 0.0);
    assert t[1..][0].row == 1;
    assert Apply(t[1..], dLambda, dU).0 == 0.0;
    assert Apply(t[1..], dLambda, dU).1 == penalty * dU;
    assert t[0].row == 0 && t[0].column == 1;
    assert Apply(t, dLambda, dU).0 == coupling * dU;
    assert Apply(t, dLambda, dU).1 == coupling * dLambda + penalty * dU;
  }

  /** The tangent is the exact derivative of the gradient: as long as a step
      does not switch an inequality on or off, the gradient changes by the
      tangent applied to the step. */
  lemma {:induction false} TangentIsDerivative(sign: Sign, rhs: real, penalty: real, lambda: real, u: real, dLambda: real, dU: real)
    requires penalty != 0.0 && sign != OtherSign
    requires Engaged(sign, rhs, penalty, lambda, u) == Engaged(sign, rhs, penalty, lambda + dLambda, u + dU)
    ensures var g0 := NodeGradient(sign, rhs, penalty, lambda, u);
            var g1 := NodeGradient(sign, rhs, penalty, lambda + dLambda, u + dU);
            var k := Apply(NodeTangent(sign, rhs, penalty, lambda, u), dLambda, dU);
            g1.0 == g0.0 + k.0 && g1.1 == g0.1 + k.1
  {
    if !Engaged(sign, rhs, penalty, lambda, u) {
      DisengagedIsDerivative(sign, rhs, penalty, lambda, u, dLambda, dU);
    } else if sign == GREATER {
      GreaterIsDerivative(rhs, penalty, lambda, u, dLambda, dU);
    } else {
      SmallerOrEqualIsDerivative(sign, rhs, penalty, lambda, u, dLambda, dU);
    }
  }

  lemma {:induction false} DisengagedIsDerivative(sign: Sign, rhs: real, penalty: real, lambda: real, u: real, dLambda: real, dU: real)
    requires penalty != 0.0 && sign != OtherSign
    requires !Engaged(sign, rhs, penalty, lambda, u) && !Engaged(sign, rhs, penalty, lambda + dLambda, u + dU)
    ensures var g0 := NodeGradient(sign, rhs, penalty, lambda, u);
            var g1 := NodeGradient(sign, rhs, penalty, lambda + dLambda, u + dU);
            var k := Apply(NodeTangent(sign, rhs, penalty, lambda, u), dLambda, dU);
            g1.0 == g0.0 + k.0 && g1.1 == g0.1 + k.1
  {
    assert NodeTangent(sign, rhs, penalty, lambda, u) == [Entry(0, 0, -1.0 / penalty)];
    ApplyDiagonal(-1.0 / penalty, dLambda, dU);
    DisengagedStep(penalty, lambda, dLambda);
  }

  lemma {:induction false} GreaterIsDerivative(rhs: real, penalty: real, lambda: real, u: real, dLambda: real, dU: real)
    requires penalty != 0.0
    requires Engaged(GREATER, rhs, penalty, lambda, u) && Engaged(GREATER, rhs, penalty, lambda + dLambda, u + dU)
    ensures var g0 := NodeGradient(GREATER, rhs, penalty, lambda, u);
            var g1 := NodeGradient(GREATER, rhs, penalty, lambda + dLambda, u + dU);
            var k := Apply(NodeTangent(GREATER, rhs, penalty, lambda, u), dLambda, dU);
            g1.0 == g0.0 + k.0 && g1.1 == g0.1 + k.1
  {
    assert NodeTangent(GREATER, rhs, penalty, lambda, u) == [Entry(0, 1, -1.0), Entry(1, 1, penalty)];
    ApplyCoupled(-1.0, penalty, dLambda, dU);
    assert penalty * (rhs - (u + dU)) == penalty * (rhs - u) - penalty * dU;
  }

  lemma {:induction false} SmallerOrEqualIsDerivative(sign: Sign, rhs: real, penalty: real, lambda: real, u: real, dLambda: real, dU: real)
    requires penalty != 0.0 && (sign == EQUAL || sign == SMALLER)
    requires Engaged(sign, rhs, penalty, lambda, u) && Engaged(sign, rhs, penalty, lambda + dLambda, u + dU)
    ensures var g0 := NodeGradient(sign, rhs, penalty, lambda, u);
            var g1 := NodeGradient(sign, rhs, penalty, lambda + dLambda, u + dU);
            var k := Apply(NodeTangent(sign, rhs, penalty, lambda, u), dLambda, dU);
            g1.0 == g0.0 + k.0 && g1.1 == g0.1 + k.1
  {
    assert NodeTangent(sign, rhs, penalty, lambda, u) == [Entry(0, 1, 1.0), Entry(1, 1, penalty)];
    ApplyCoupled(1.0, penalty, dLambda, dU);
    assert penalty * ((u + dU) - rhs) == penalty * (u - rhs) + penalty * dU;
  }

  lemma {:induction false} DisengagedStep(penalty: real, lambda: real, dLambda: real)
    requires penalty != 0.0
    ensures -(lambda + dLambda) / penalty == -lambda / penalty + (-1.0 / penalty) * dLambda
  {
  }


  /** Alternates the entries of two equally long lists: a[0], b[0], a[1], b[1], ... */
  function Interleave<T>(a: seq<T>, b: seq<T>): (r: seq<T>)
    requires |a| == |b|
    ensures |r| == 2 * |a|
    ensures forall k :: 0 <= k < |a| ==> r[2 * k] == a[k] && r[2 * k + 1] == b[k]
  {
    if |a| == 0 then []
    else Interleave(a[..|a| - 1], b[..|b| - 1]) + [a[|a| - 1], b[|b| - 1]]
  }

  /** The gradient entries and their dofs, pair by pair. */
  function GradientVectors(c: Constraint, nodes: seq<NodeState>): (seq<real>, seq<int>)
    requires Valid(c) && |nodes| == |c.dofs| && c.penalty != 0.0 && c.sign != OtherSign
  {
    var n := |nodes|;
    var g := seq(n, k requires 0 <= k < n => NodeGradient(c.sign, c.rhs, c.penalty, c.values[k], nodes[k].displacement));
    (Interleave(seq(n, k requires 0 <= k < n => g[k].0), seq(n, k requires 0 <= k < n => g[k].1)),
     PairDofs(c, nodes))
  }

  /** Each member's multiplier dof followed by its node's displacement dof. */
  function PairDofs(c: Constraint, nodes: seq<NodeState>): (r: seq<int>)
    requires |nodes| == |c.dofs|
    ensures |r| == 2 * |nodes|
    ensures forall k :: 0 <= k < |nodes| ==> r[2 * k] == c.dofs[k] && r[2 * k + 1] == nodes[k].dof
  {
    Interleave(c.dofs, seq(|nodes|, k requires 0 <= k < |nodes| => nodes[k].dof))
  }

  /** Member k owns entries 2k (its multiplier) and 2k+1 (its displacement). */
  lemma {:induction false} GradientLayout(c: Constraint, nodes: seq<NodeState>)
    requires Valid(c) && |nodes| == |c.dofs| && c.penalty != 0.0 && c.sign != OtherSign
    ensures |GradientVectors(c, nodes).0| == 2 * |nodes| && |GradientVectors(c, nodes).1| == 2 * |nodes|
    ensures forall k :: 0 <= k < |nodes| ==>
      GradientVectors(c, nodes).1[2 * k] == c.dofs[k] && GradientVectors(c, nodes).1[2 * k + 1] == nodes[k].dof
      && (GradientVectors(c, nodes).0[2 * k], GradientVectors(c, nodes).0[2 * k + 1])
         == NodeGradient(c.sign, c.rhs, c.penalty, c.values[k], nodes[k].displacement)
  {
    var n := |nodes|;
    var g := seq(n, k requires 0 <= k < n => NodeGradient(c.sign, c.rhs, c.penalty, c.values[k], nodes[k].displacement));
    var lambdaRows := seq(n, k requires 0 <= k < n => g[k].0);
    var displacementRows := seq(n, k requires 0 <= k < n => g[k].1);
    var values := Interleave(lambdaRows, displacementRows);
    var dofs := PairDofs(c, nodes);
    assert GradientVectors(c, nodes) == (values, dofs);
    forall k | 0 <= k < n
      ensures (values[2 * k], values[2 * k + 1]) == NodeGradient(c.sign, c.rhs, c.penalty, c.values[k], nodes[k].displacement)
    {
      assert values[2 * k] == lambdaRows[k] && values[2 * k + 1] == displacementRows[k];
      assert g[k] == NodeGradient(c.sign, c.rhs, c.penalty, c.values[k], nodes[k].displacement);
    }
  }

  /** `CalculateGradientInternalPotential`: a vector of 2n entries laid out
      as (multiplier dof, displacement dof) pairs per member; an unknown sign
      fails as soon as there is a member. */
  function GradientInternalPotential(c: Constraint, nodes: seq<NodeState>): (r: Result<(seq<real>, seq<int>)>)
    requires Valid(c) && |nodes| == |c.dofs| && c.penalty != 0.0
    ensures r.Success? <==> c.sign != OtherSign || |nodes| == 0
    ensures r.Success? ==> |r.value.0| == 2 * |nodes| && |r.value.1| == 2 * |nodes|
    ensures r.Success? ==> forall k :: 0 <= k < |nodes| ==>
      r.value.1[2 * k] == c.dofs[k] && r.value.1[2 * k + 1] == nodes[k].dof
      && (r.value.0[2 * k], r.value.0[2 * k + 1])
         == NodeGradient(c.sign, c.rhs, c.penalty, c.values[k], nodes[k].displacement)
  {
    if c.sign == OtherSign && |nodes| > 0 then Failure("equation sign should be either EQUAL, SMALLER or GREATER.")
    else if |nodes| == 0 then Success(([], []))
    else
      GradientLayout(c, nodes);
      Success(GradientVectors(c, nodes))
  }

  /** A member's tangent entries moved to its own pair of rows and columns. */
  function Shift(local: seq<Entry>, offset: nat): (r: seq<Entry>)
    ensures |r| == |local|
    ensures forall i :: 0 <= i < |local| ==>
      r[i] == Entry(offset + local[i].row, offset + local[i].column, local[i].value)
  {
    seq(|local|, i requires 0 <= i < |local| => Entry(offset + local[i].row, offset + local[i].column, local[i].value))
  }

  /** `CalculateCoefficientMatrix_0`, as the entries each member adds to the
      symmetric matrix of size 2n, together with the global dof of every row:
      member k contributes its tangent entries, each one and in order, on
      rows and columns 2k and 2k+1 only, in the upper triangle; row 2k is its
      multiplier's dof and row 2k+1 its node's displacement dof. */
  function CoefficientMatrix0(c: Constraint, nodes: seq<NodeState>): (r: Result<(seq<seq<Entry>>, seq<int>)>)
    requires Valid(c) && |nodes| == |c.dofs| && c.penalty != 0.0
    ensures r.Success? <==> c.sign != OtherSign || |nodes| == 0
    ensures r.Success? ==> |r.value.0| == |nodes| && |r.value.1| == 2 * |nodes|
    ensures r.Success? ==> forall k, e :: 0 <= k < |nodes| && e in r.value.0[k] ==>
      2 * k <= e.row <= e.column < 2 * k + 2
      && Entry(e.row - 2 * k, e.column - 2 * k, e.value)
         in NodeTangent(c.sign, c.rhs, c.penalty, c.values[k], nodes[k].displacement)
    ensures r.Success? ==> forall k :: 0 <= k < |nodes| ==>
      |r.value.0[k]| == |NodeTangent(c.sign, c.rhs, c.penalty, c.values[k], nodes[k].displacement)|
    ensures r.Success? ==> forall k, i ::
      (0 <= k < |nodes| && 0 <= i < |NodeTangent(c.sign, c.rhs, c.penalty, c.values[k], nodes[k].displacement)|) ==>
      var e := NodeTangent(c.sign, c.rhs, c.penalty, c.values[k], nodes[k].displacement)[i];
      r.value.0[k][i] == Entry(e.row + 2 * k, e.column + 2 * k, e.value)
    ensures r.Success? ==> forall k :: 0 <= k < |nodes| ==>
      r.value.1[2 * k] == c.dofs[k] && r.value.1[2 * k + 1] == nodes[k].dof
  {
    if c.sign == OtherSign && |nodes| > 0 then Failure("equation sign should be either EQUAL, SMALLER or GREATER.")
    else
      var n := |nodes|;
      Success((seq(n, k requires 0 <= k < n =>
        Shift(NodeTangent(c.sign, c.rhs, c.penalty, c.values[k], nodes[k].displacement), 2 * k)), PairDofs(c, nodes)))
  }

  /** The matrix and the gradient are assembled on the same global dofs. */
  lemma {:induction false} MatrixAndGradientShareDofs(c: Constraint, nodes: seq<NodeState>)
    requires Valid(c) && |nodes| == |c.dofs| && c.penalty != 0.0
    ensures CoefficientMatrix0(c, nodes).Success? <==> GradientInternalPotential(c, nodes).Success?
    ensures CoefficientMatrix0(c, nodes).Success? ==>
      CoefficientMatrix0(c, nodes).value.1 == GradientInternalPotential(c, nodes).value.1
  {
    if CoefficientMatrix0(c, nodes).Success? {
      var a := CoefficientMatrix0(c, nodes).value.1;
      var b := GradientInternalPotential(c, nodes).value.1;
      assert |a| == |b|;
      forall i | 0 <= i < |a|
        ensures a[i] == b[i]
      {
        var k := i / 2;
        if i % 2 == 0 {
          assert i == 2 * k;
        } else {
          assert i == 2 * k + 1;
        }
      }
    }
  }
}
