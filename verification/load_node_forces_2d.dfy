/** A force of given magnitude along a fixed direction on one 2D node
    (`LoadNodeForces2D`). */
module LoadNodeForces2D {
  import opened Wrappers
  import opened GlobalDofVectors

  /** Directions shorter than this are rejected. */
  const MinNorm: real := 0.00000000000001

  /** The stored load: a unit direction and the magnitude. */
  datatype Load = Load(direction0: real, direction1: real, value: real)

  /** The constructor. The direction must be a 2x1 matrix of length at least
      1e-14 and is stored scaled to unit length. The square root is not
      modelled: `norm` is the non-negative number whose square is the squared
      length of the direction. */
  function Create(rows: nat, columns: nat, direction: seq<real>, norm: real, value: real): (r: Result<Load>)
    requires |direction| == rows * columns
    requires rows == 2 && columns == 1 ==>
      norm >= 0.0 && norm * norm == direction[0] * direction[0] + direction[1] * direction[1]
    ensures r.Success? <==> rows == 2 && columns == 1 && norm >= MinNorm
    ensures r.Success? ==> r.value.value == value
    ensures r.Success? ==>
      r.value.direction0 * r.value.direction0 + r.value.direction1 * r.value.direction1 == 1.0
    ensures r.Success? ==> r.value.direction0 * norm == direction[0] && r.value.direction1 * norm == direction[1]
  {
    if columns != 1 || rows != 2 then
      Failure("Dimension of the direction matrix must be equal to the dimension of the structure.")
    else if norm < MinNorm then Failure("direction vector has zero length")
    else
      var inverse := 1.0 / norm;
      UnitAfterScaling(direction[0], direction[1], norm);
      Success(Load(direction[0] * inverse, direction[1] * inverse, value))
  }

  lemma {:induction false} UnitAfterScaling(d0: real, d1: real, norm: real)
    requires norm > 0.0 && norm * norm == d0 * d0 + d1 * d1
    ensures (d0 * (1.0 / norm)) * (d0 * (1.0 / norm)) + (d1 * (1.0 / norm)) * (d1 * (1.0 / norm)) == 1.0
    ensures d0 * (1.0 / norm) * norm == d0 && d1 * (1.0 / norm) * norm == d1
  {
    var s := 1.0 / norm;
    assert s * norm == 1.0;
    calc {
      (d0 * s) * (d0 * s) + (d1 * s) * (d1 * s);
      (d0 * d0 + d1 * d1) * (s * s);
      (norm * norm) * (s * s);
      (norm * s) * (norm * s);
    }
  }

  /** `AddLoadToGlobalSubVectors`: adds value·direction[k] to the entry of the
      node's k-th displacement dof, in the active or the dependent vector;
      every other entry is left as it was. */
  function AddLoadToGlobalSubVectors(load: Load, dof0: int, dof1: int, active: seq<real>, dependent: seq<real>): (r: (seq<real>, seq<real>))
    requires InRange(active, dependent, dof0) && InRange(active, dependent, dof1)
    ensures |r.0| == |active| && |r.1| == |dependent|
    ensures forall d :: InRange(active, dependent, d) ==>
      Read(r.0, r.1, d) == Read(active, dependent, d)
        + (if d == dof0 then load.value * load.direction0 else 0.0)
        + (if d == dof1 then load.value * load.direction1 else 0.0)
  {
    var first := AddTo(active, dependent, dof0, load.value * load.direction0);
    AddTo(first.0, first.1, dof1, load.value * load.direction1)
  }

  /** Loads accumulate: applying two loads in either order gives the same vectors. */
  lemma {:induction false} LoadsCommute(a: Load, aDof0: int, aDof1: int, b: Load, bDof0: int, bDof1: int, active: seq<real>, dependent: seq<real>)
    requires InRange(active, dependent, aDof0) && InRange(active, dependent, aDof1)
    requires InRange(active, dependent, bDof0) && InRange(active, dependent, bDof1)
    ensures var ab := AddLoadToGlobalSubVectors(a, aDof0, aDof1, active, dependent);
            var ba := AddLoadToGlobalSubVectors(b, bDof0, bDof1, active, dependent);
            AddLoadToGlobalSubVectors(b, bDof0, bDof1, ab.0, ab.1) == AddLoadToGlobalSubVectors(a, aDof0, aDof1, ba.0, ba.1)
  {
    var ab := AddLoadToGlobalSubVectors(a, aDof0, aDof1, active, dependent);
    var ba := AddLoadToGlobalSubVectors(b, bDof0, bDof1, active, dependent);
    var x := AddLoadToGlobalSubVectors(b, bDof0, bDof1, ab.0, ab.1);
    var y := AddLoadToGlobalSubVectors(a, aDof0, aDof1, ba.0, ba.1);
    ReadExtensional(x.0, x.1, y.0, y.1);
  }

  /** The load adds a force of its full magnitude: when the two dofs differ,
      the added components have squared length value². */
  lemma {:induction false} AddedForceHasMagnitude(load: Load, dof0: int, dof1: int, active: seq<real>, dependent: seq<real>)
    requires InRange(active, dependent, dof0) && InRange(active, dependent, dof1) && dof0 != dof1
    requires load.direction0 * load.direction0 + load.direction1 * load.direction1 == 1.0
    ensures var r := AddLoadToGlobalSubVectors(load, dof0, dof1, active, dependent);
            var f0 := Read(r.0, r.1, dof0) - Read(active, dependent, dof0);
            var f1 := Read(r.0, r.1, dof1) - Read(active, dependent, dof1);
            f0 * f0 + f1 * f1 == load.value * load.value
  {
    var v := load.value;
    assert (v * load.direction0) * (v * load.direction0) + (v * load.direction1) * (v * load.direction1)
        == v * v * (load.direction0 * load.direction0 + load.direction1 * load.direction1);
  }
}
