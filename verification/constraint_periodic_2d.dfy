/** Periodic displacement boundary conditions on a rectangular 2D specimen
    (`ConstraintDisplacementsPeriodic2D`): construction checks, angle
    normalisation, strain updates and the interpolation helpers. */
module ConstraintDisplacementsPeriodic2D {
  import opened Wrappers

  /** The applied strain (e_xx, e_yy, gamma_xy). */
  datatype Strain = Strain(xx: real, yy: real, xy: real)

  datatype Point2 = Point2(x: real, y: real)

  /** The constraint after construction. The slave node lists are filled by
      `SetBoundaryVectors`, which is not part of this model; they are given to
      the constructor instead. */
  datatype Periodic = Periodic(
    angle: real,
    strain: Strain,
    leftUpper: int, rightUpper: int, leftLower: int, rightLower: int,
    slaveNodesRight: seq<int>, slaveNodesTop: seq<int>)

  // ---------------------------------------------------------------------
  // Angle
  // ---------------------------------------------------------------------

  /** Reduces an angle by the symmetries of the periodic box: above 225 by
      -180, then below 45 by +180; anything still outside [45, 225] fails.
      This accepts exactly the angles from -135 to 405 and moves them by a
      multiple of 180 into [45, 225]. */
  function NormalizeAngle(angle: real): (r: Result<real>)
    ensures r.Success? <==> -135.0 <= angle <= 405.0
    ensures r.Success? ==> 45.0 <= r.value <= 225.0
    ensures r.Success? ==> r.value - angle in {-180.0, 0.0, 180.0}
  {
    var reduced := if angle > 225.0 then angle - 180.0 else angle;
    var raised := if reduced < 45.0 then reduced + 180.0 else reduced;
    if raised < 45.0 || raised > 225.0 then
      Failure("angle should be in the range 0..360, which is reduced to 45..225 due to symmetries.")
    else Success(raised)
  }

  /** An angle already in range is left alone. */
  lemma {:induction false} NormalizeIdempotent(angle: real)
    requires NormalizeAngle(angle).Success?
    ensures NormalizeAngle(NormalizeAngle(angle).value) == NormalizeAngle(angle)
  {
  }

  /** The angle test of `SetBoundaryVectors`: the boundary node lists are
      only built for angles in [45, 135); every other angle throws, the
      range [135, 225) included. */
  function CheckBoundaryAngle(angle: real): (r: Result<()>)
    ensures r.Success? <==> 45.0 <= angle < 135.0
  {
    if 45.0 <= angle < 135.0 then Success(())
    else Failure("Not implemented for angles outside 0-90 degrees")
  }

  /** `SetAngle` stores the angle as given, without the constructor's
      reduction, and then rebuilds the boundary vectors. The first half of
      the result is the constraint after the call, the second whether the
      call returned normally: the angle is stored even when the rebuild
      throws. */
  function SetAngle(c: Periodic, angle: real): (r: (Periodic, Result<()>))
    ensures r.0 == c.(angle := angle)
    ensures r.1.Success? <==> 45.0 <= angle < 135.0
  {
    (c.(angle := angle), CheckBoundaryAngle(angle))
  }

  /** So a constraint can carry an angle the constructor would have
      reduced: 300 is stored as it is, and the call then throws. */
  lemma {:induction false} SetAngleSkipsReduction(c: Periodic)
    ensures SetAngle(c, 300.0).0.angle == 300.0 != NormalizeAngle(300.0).value
    ensures SetAngle(c, 300.0).1.Failure?
  {
    assert NormalizeAngle(300.0).value == 120.0;
  }

  /** Setting the angle a constructed constraint already has returns
      normally and changes nothing. */
  lemma {:induction false} SetAngleKeepsCreated(angle: real, strainRows: nat, strainColumns: nat, strainEntries: seq<real>,
                                              top: seq<int>, bottom: seq<int>, left: seq<int>, right: seq<int>,
                                              coordinates: map<int, seq<real>>,
                                              slaveNodesRight: seq<int>, slaveNodesTop: seq<int>)
    requires |strainEntries| == strainRows * strainColumns
    ensures var c := Create(angle, strainRows, strainColumns, strainEntries, top, bottom, left, right,
                            coordinates, slaveNodesRight, slaveNodesTop);
      c.Success? ==> SetAngle(c.value, c.value.angle) == (c.value, Success(()))
  {
  }

  // ---------------------------------------------------------------------
  // Strain
  // ---------------------------------------------------------------------

  /** A strain matrix must be 3x1: (e_xx, e_yy, gamma_xy). */
  function StrainFromMatrix(rows: nat, columns: nat, entries: seq<real>): (r: Result<Strain>)
    requires |entries| == rows * columns
    ensures r.Success? <==> rows == 3 && columns == 1
    ensures r.Success? ==> r.value == Strain(entries[0], entries[1], entries[2])
  {
    if rows != 3 || columns != 1 then Failure("the strain is matrix (3,1) with (e_xx, e_yy, gamma_xy)")
    else Success(Strain(entries[0], entries[1], entries[2]))
  }

  /** `SetStrain`: replaces the strain, or fails on a matrix that is not 3x1
      and leaves nothing changed. */
  function SetStrain(c: Periodic, rows: nat, columns: nat, entries: seq<real>): (r: Result<Periodic>)
    requires |entries| == rows * columns
    ensures r.Success? <==> rows == 3 && columns == 1
    ensures r.Success? ==> r.value == c.(strain := Strain(entries[0], entries[1], entries[2]))
  {
    var strain :- StrainFromMatrix(rows, columns, entries);
    Success(c.(strain := strain))
  }

  // ---------------------------------------------------------------------
  // Corners and the box check
  // ---------------------------------------------------------------------

  /** The members of `a` that are also in `b`, in the order of `a`. */
  function Intersection(a: seq<int>, b: seq<int>): (r: seq<int>)
    ensures forall x :: x in r <==> x in a && x in b
  {
    if |a| == 0 then []
    else
      var rest := Intersection(a[..|a| - 1], b);
      assert forall x :: x in a <==> x in a[..|a| - 1] || x == a[|a| - 1] by {
        assert a == a[..|a| - 1] + [a[|a| - 1]];
      }
      if a[|a| - 1] in b then rest + [a[|a| - 1]] else rest
  }

  /** The corner shared by two boundary groups, which must be unique. */
  function Corner(a: seq<int>, b: seq<int>, which: string): (r: Result<int>)
    ensures r.Success? <==> |Intersection(a, b)| == 1
    ensures r.Success? ==> r.value in a && r.value in b
  {
    var shared := Intersection(a, b);
    if |shared| != 1 then Failure(which + " corner node can not be determined.")
    else Success(shared[0])
  }

  /** The box check as written: the lower-boundary test compares the lower
      left x coordinate with the lower right y coordinate. */
  function CheckBoxAsWritten(leftUpper: Point2, rightUpper: Point2, leftLower: Point2, rightLower: Point2): (r: Result<()>)
    ensures r.Success? ==> leftLower.x == rightLower.y
  {
    if leftUpper.x != leftLower.x then Failure("Left boundary is not correct - check your node groups.")
    else if rightUpper.x != rightLower.x then Failure("Right boundary is not correct - check your node groups.")
    else if rightUpper.x <= leftUpper.x then Failure("left boundary coordinate is larger than right boundary coordinate.")
    else if leftUpper.y != rightUpper.y then Failure("upper boundary is not correct - check your node groups.")
    else if leftLower.x != rightLower.y then Failure("lower boundary is not correct - check your node groups.")
    else if leftUpper.y <= leftLower.y then Failure("upper boundary coordinate is larger than lower boundary coordinate.")
    else Success(())
  }

  /** The four corners span an axis-aligned rectangle of positive width and height. */
  predicate IsBox(leftUpper: Point2, rightUpper: Point2, leftLower: Point2, rightLower: Point2) {
    leftUpper.x == leftLower.x && rightUpper.x == rightLower.x
    && leftUpper.y == rightUpper.y && leftLower.y == rightLower.y
    && leftUpper.x < rightUpper.x && leftLower.y < leftUpper.y
  }

  /** As written, the unit square with its lower left corner at (1, 0) is
      rejected, because 1 (an x coordinate) differs from 0 (a y coordinate). */
  lemma {:induction false} AsWrittenRejectsUnitBox()
    ensures IsBox(Point2(1.0, 1.0), Point2(2.0, 1.0), Point2(1.0, 0.0), Point2(2.0, 0.0))
    ensures CheckBoxAsWritten(Point2(1.0, 1.0), Point2(2.0, 1.0), Point2(1.0, 0.0), Point2(2.0, 0.0)).Failure?
  {
  }

  /** The box check comparing the two lower y coordinates: it accepts
      exactly the rectangles. */
  function CheckBox(leftUpper: Point2, rightUpper: Point2, leftLower: Point2, rightLower: Point2): (r: Result<()>)
    ensures r.Success? <==> IsBox(leftUpper, rightUpper, leftLower, rightLower)
  {
    if leftUpper.x != leftLower.x then Failure("Left boundary is not correct - check your node groups.")
    else if rightUpper.x != rightLower.x then Failure("Right boundary is not correct - check your node groups.")
    else if rightUpper.x <= leftUpper.x then Failure("left boundary coordinate is larger than right boundary coordinate.")
    else if leftUpper.y != rightUpper.y then Failure("upper boundary is not correct - check your node groups.")
    else if leftLower.y != rightLower.y then Failure("lower boundary is not correct - check your node groups.")
    else if leftUpper.y <= leftLower.y then Failure("upper boundary coordinate is larger than lower boundary coordinate.")
    else Success(())
  }

  /** The two checks differ only in the lower-boundary test: on boxes whose
      lower left x equals their lower y they agree. */
  lemma {:induction false} ChecksAgreeWhenXEqualsY(leftUpper: Point2, rightUpper: Point2, leftLower: Point2, rightLower: Point2)
    requires leftLower.x == leftLower.y
    ensures CheckBoxAsWritten(leftUpper, rightUpper, leftLower, rightLower).Success?
        <==> CheckBox(leftUpper, rightUpper, leftLower, rightLower).Success?
  {
  }

  /** A node's coordinates, which must have two entries to be a corner. */
  function Coordinates2D(coordinates: map<int, seq<real>>, node: int, which: string): (r: Result<Point2>)
    ensures r.Success? <==> node in coordinates && |coordinates[node]| == 2
    ensures r.Success? ==> r.value == Point2(coordinates[node][0], coordinates[node][1])
  {
    if node !in coordinates || |coordinates[node]| != 2 then Failure(which + " node does not have 2 coordinates.")
    else Success(Point2(coordinates[node][0], coordinates[node][1]))
  }

  /** The four corner nodes and their coordinates. */
  datatype Corners = Corners(
    leftUpper: int, rightUpper: int, leftLower: int, rightLower: int,
    leftUpperAt: Point2, rightUpperAt: Point2, leftLowerAt: Point2, rightLowerAt: Point2)

  /** Each corner is the unique common member of two boundary groups and has
      two coordinates. */
  function FindCorners(top: seq<int>, bottom: seq<int>, left: seq<int>, right: seq<int>,
                       coordinates: map<int, seq<real>>): (r: Result<Corners>)
    ensures (|Intersection(top, left)| != 1 || |Intersection(top, right)| != 1
             || |Intersection(bottom, left)| != 1 || |Intersection(bottom, right)| != 1) ==> r.Failure?
    ensures r.Success? ==>
      r.value.leftUpper in top && r.value.leftUpper in left
      && r.value.rightUpper in top && r.value.rightUpper in right
      && r.value.leftLower in bottom && r.value.leftLower in left
      && r.value.rightLower in bottom && r.value.rightLower in right
    ensures r.Success? ==>
      Coordinates2D(coordinates, r.value.leftUpper, "").Success?
      && r.value.leftUpperAt == Coordinates2D(coordinates, r.value.leftUpper, "").value
      && Coordinates2D(coordinates, r.value.rightUpper, "").Success?
      && r.value.rightUpperAt == Coordinates2D(coordinates, r.value.rightUpper, "").value
      && Coordinates2D(coordinates, r.value.leftLower, "").Success?
      && r.value.leftLowerAt == Coordinates2D(coordinates, r.value.leftLower, "").value
      && Coordinates2D(coordinates, r.value.rightLower, "").Success?
      && r.value.rightLowerAt == Coordinates2D(coordinates, r.value.rightLower, "").value
  {
    var lu :- Corner(top, left, "Top left");
    var ru :- Corner(top, right, "Top right");
    var ll :- Corner(bottom, left, "Bottom left");
    var rl :- Corner(bottom, right, "Bottom right");
    var luc :- Coordinates2D(coordinates, lu, "Upper left");
    var ruc :- Coordinates2D(coordinates, ru, "Upper right");
    var llc :- Coordinates2D(coordinates, ll, "Lower left");
    var rlc :- Coordinates2D(coordinates, rl, "Lower right");
    Success(Corners(lu, ru, ll, rl, luc, ruc, llc, rlc))
  }

  /** The constructor: reduce the angle, read the 3x1 strain, find the four
      corners and check that they span a rectangle; it succeeds exactly when
      every step does, including the boundary-vector angle test on the
      reduced angle. */
  function Create(angle: real, strainRows: nat, strainColumns: nat, strainEntries: seq<real>,
                  top: seq<int>, bottom: seq<int>, left: seq<int>, right: seq<int>,
                  coordinates: map<int, seq<real>>,
                  slaveNodesRight: seq<int>, slaveNodesTop: seq<int>): (r: Result<Periodic>)
    requires |strainEntries| == strainRows * strainColumns
    ensures r.Success? <==>
      NormalizeAngle(angle).Success? && strainRows == 3 && strainColumns == 1
      && FindCorners(top, bottom, left, right, coordinates).Success?
      && (var k := FindCorners(top, bottom, left, right, coordinates).value;
          IsBox(k.leftUpperAt, k.rightUpperAt, k.leftLowerAt, k.rightLowerAt))
      && NormalizeAngle(angle).value < 135.0
    ensures r.Success? ==> 45.0 <= r.value.angle < 135.0 && r.value.angle == NormalizeAngle(angle).value
    ensures r.Success? ==>
      var k := FindCorners(top, bottom, left, right, coordinates).value;
      r.value.leftUpper == k.leftUpper && r.value.rightUpper == k.rightUpper
      && r.value.leftLower == k.leftLower && r.value.rightLower == k.rightLower
  {
    var reduced :- NormalizeAngle(angle);
    var strain :- StrainFromMatrix(strainRows, strainColumns, strainEntries);
    var k :- FindCorners(top, bottom, left, right, coordinates);
    var _ :- CheckBox(k.leftUpperAt, k.rightUpperAt, k.leftLowerAt, k.rightLowerAt);
    var _ :- CheckBoundaryAngle(reduced);
    Success(Periodic(reduced, strain, k.leftUpper, k.rightUpper, k.leftLower, k.rightLower, slaveNodesRight, slaveNodesTop))
  }

  /** Two equations (x and y) per slave node on the right and top boundaries. */
  function NumConstraintEquations(c: Periodic): (n: nat)
    ensures n % 2 == 0
    ensures n == 2 * |c.slaveNodesRight| + 2 * |c.slaveNodesTop|
  {
    2 * (|c.slaveNodesRight| + |c.slaveNodesTop|)
  }

  // ---------------------------------------------------------------------
  // Interpolation helpers
  // ---------------------------------------------------------------------

  /** Weight of the current master node for a slave between it and the next
      master: linear, 1 at the current and 0 at the next master. */
  function WeightFunction(current: real, next: real, slave: real): real
    requires next != current
  {
    1.0 - (slave - current) / (next - current)
  }

  lemma {:induction false} WeightAtMasters(current: real, next: real)
    requires next != current
    ensures WeightFunction(current, next, current) == 1.0
    ensures WeightFunction(current, next, next) == 0.0
  {
    assert (next - current) / (next - current) == 1.0;
  }

  /** Moving the slave a fraction t of the way to the next master lowers the weight by t. */
  lemma {:induction false} WeightIsLinear(current: real, next: real, t: real)
    requires next != current
    ensures WeightFunction(current, next, current + t * (next - current)) == 1.0 - t
  {
    assert (current + t * (next - current) - current) / (next - current) == t;
  }

  /** The weights of the two masters of a slave add up to one. */
  lemma {:induction false} WeightsPartitionUnity(current: real, next: real, slave: real)
    requires next != current
    ensures WeightFunction(current, next, slave) + WeightFunction(next, current, slave) == 1.0
  {
    var d := next - current;
    assert (slave - next) / (current - next) == (next - slave) / d;
    assert (slave - current) / d + (next - slave) / d == 1.0;
  }

  /** The displacement offset the strain imposes at a position. */
  function DeltaDisp(strain: Strain, p: Point2): Point2 {
    Point2(strain.xx * p.x + strain.xy * p.y, strain.yy * p.y + strain.xy * p.x)
  }

  /** The offset is linear in the position ... */
  lemma {:induction false} DeltaDispLinear(strain: Strain, p: Point2, q: Point2, s: real)
    ensures DeltaDisp(strain, Point2(p.x + s * q.x, p.y + s * q.y))
         == Point2(DeltaDisp(strain, p).x + s * DeltaDisp(strain, q).x,
                   DeltaDisp(strain, p).y + s * DeltaDisp(strain, q).y)
  {
  }

  /** ... and given by a symmetric matrix: the shear couples both directions equally. */
  lemma {:induction false} DeltaDispSymmetric(strain: Strain, p: Point2, q: Point2)
    ensures DeltaDisp(strain, p).x * q.x + DeltaDisp(strain, p).y * q.y
         == p.x * DeltaDisp(strain, q).x + p.y * DeltaDisp(strain, q).y
  {
  }
}
