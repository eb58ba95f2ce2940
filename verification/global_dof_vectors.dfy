/** The split of global dof values into an active and a dependent vector:
    a dof below the active count indexes the active vector, any other the
    dependent vector, shifted by the active count. */
module GlobalDofVectors {

  predicate InRange(active: seq<real>, dependent: seq<real>, dof: int) {
    0 <= dof < |active| + |dependent|
  }

  function Read(active: seq<real>, dependent: seq<real>, dof: int): real
    requires InRange(active, dependent, dof)
  {
    if dof >= |active| then dependent[dof - |active|] else active[dof]
  }

  /** Overwrites the entry of one dof. */
  function Write(active: seq<real>, dependent: seq<real>, dof: int, value: real): (r: (seq<real>, seq<real>))
    requires InRange(active, dependent, dof)
    ensures |r.0| == |active| && |r.1| == |dependent|
    ensures Read(r.0, r.1, dof) == value
    ensures forall d :: InRange(active, dependent, d) && d != dof ==> Read(r.0, r.1, d) == Read(active, dependent, d)
  {
    if dof >= |active| then (active, dependent[dof - |active| := value]) else (active[dof := value], dependent)
  }

  /** Adds to the entry of one dof. */
  function AddTo(active: seq<real>, dependent: seq<real>, dof: int, value: real): (r: (seq<real>, seq<real>))
    requires InRange(active, dependent, dof)
    ensures |r.0| == |active| && |r.1| == |dependent|
    ensures forall d :: InRange(active, dependent, d) ==>
      Read(r.0, r.1, d) == Read(active, dependent, d) + (if d == dof then value else 0.0)
  {
    Write(active, dependent, dof, Read(active, dependent, dof) + value)
  }

  /** Vectors that read the same at every dof are equal. */
  lemma {:induction false} ReadExtensional(a1: seq<real>, d1: seq<real>, a2: seq<real>, d2: seq<real>)
    requires |a1| == |a2| && |d1| == |d2|
    requires forall d :: InRange(a1, d1, d) ==> Read(a1, d1, d) == Read(a2, d2, d)
    ensures a1 == a2 && d1 == d2
  {
    forall i | 0 <= i < |a1| ensures a1[i] == a2[i] {
      assert Read(a1, d1, i) == Read(a2, d2, i);
    }
    forall i | 0 <= i < |d1| ensures d1[i] == d2[i] {
      assert Read(a1, d1, |a1| + i) == Read(a2, d2, |a1| + i);
    }
  }
}
