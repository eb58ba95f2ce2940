/** A visualisation point (`Visualize::Point`): three coordinates plus a list
    of data vectors addressed by index. */
module VisualizePoint {

  datatype Point = Point(coordinates: seq<real>, data: seq<seq<real>>)

  /** The constructor taking a vector of dimension d <= 3: the d given
      components are copied and the remaining ones are zero. A 3-vector is
      stored unchanged. */
  function FromVector(coordinates: seq<real>): (p: Point)
    requires |coordinates| <= 3
    ensures |p.coordinates| == 3 && p.data == []
    ensures forall i :: 0 <= i < |coordinates| ==> p.coordinates[i] == coordinates[i]
    ensures forall i :: |coordinates| <= i < 3 ==> p.coordinates[i] == 0.0
  {
    Point(coordinates + seq(3 - |coordinates|, _ => 0.0), [])
  }

  function GetCoordinates(p: Point): seq<real> {
    p.coordinates
  }

  function GetData(p: Point, dataIndex: int): seq<real>
    requires 0 <= dataIndex < |p.data|
  {
    p.data[dataIndex]
  }

  /** Stores `d` at `dataIndex`, first growing the list with empty vectors
      when it is too short; a long enough list keeps its length. */
  function SetData(p: Point, dataIndex: nat, d: seq<real>): (r: Point)
    ensures |r.data| == if dataIndex < |p.data| then |p.data| else dataIndex + 1
    ensures r.coordinates == p.coordinates
  {
    var grown := if dataIndex >= |p.data| then p.data + seq(dataIndex + 1 - |p.data|, _ => []) else p.data;
    Point(p.coordinates, grown[dataIndex := d])
  }

  /** Reading back: the slot written holds the new vector, the old slots keep
      theirs and the slots created by growing are empty. */
  lemma {:induction false} SetThenGet(p: Point, dataIndex: nat, d: seq<real>, j: nat)
    requires j < |SetData(p, dataIndex, d).data|
    ensures GetData(SetData(p, dataIndex, d), j)
         == if j == dataIndex then d else if j < |p.data| then GetData(p, j) else []
  {
  }

  /** A 3-vector is stored as given. */
  lemma {:induction false} ThreeVectorUnchanged(coordinates: seq<real>)
    requires |coordinates| == 3
    ensures GetCoordinates(FromVector(coordinates)) == coordinates
  {
    var p := FromVector(coordinates);
    assert p.coordinates == coordinates;
  }
}
