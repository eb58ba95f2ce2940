/** The list of nonlocal elements an element keeps (`ElementDataNonlocalBase`).
    `AddNonlocalElement` treats the list as an ordered set. */
module NonlocalData {

  /** The first position of `e` in `list`, -1 when it is absent. */
  function IndexOf<E(==)>(list: seq<E>, e: E): (r: int)
    ensures -1 <= r < |list|
    ensures r >= 0 ==> list[r] == e && forall i :: 0 <= i < r ==> list[i] != e
    ensures r == -1 <==> e !in list
  {
    if |list| == 0 then -1
    else if list[0] == e then 0
    else
      var rest := IndexOf(list[1..], e);
      if rest == -1 then -1 else rest + 1
  }

  /** Reference behaviour: the list after the call and the returned index. */
  function Added<E(==)>(list: seq<E>, e: E): (r: (seq<E>, int))
    ensures 0 <= r.1 < |r.0| && r.0[r.1] == e
    ensures e in list ==> r.0 == list && forall i :: 0 <= i < r.1 ==> list[i] != e
    ensures e !in list ==> r.0 == list + [e] && r.1 == |list|
  {
    var i := IndexOf(list, e);
    if i >= 0 then (list, i) else (list + [e], |list|)
  }

  /** The linear scan of the source: the first matching position is
      returned, otherwise the element is appended. */
  method AddNonlocalElement<E(==)>(list: seq<E>, e: E) returns (newList: seq<E>, index: int)
    ensures (newList, index) == Added(list, e)
  {
    var k := 0;
    while k < |list|
      invariant 0 <= k <= |list|
      invariant e !in list[..k]
    {
      if list[k] == e {
        assert IndexOf(list, e) == k by {
          assert forall i :: 0 <= i < k ==> list[i] != e by {
            forall i | 0 <= i < k ensures list[i] != e {
              assert list[i] == list[..k][i];
            }
          }
        }
        return list, k;
      }
      assert list[..k + 1] == list[..k] + [list[k]];
      k := k + 1;
    }
    assert list[..k] == list;
    newList, index := list + [e], |list|;
  }

  function GetNumNonlocalElements<E>(list: seq<E>): nat {
    |list|
  }

  predicate NoDuplicates<E(==)>(list: seq<E>) {
    forall i, j :: 0 <= i < j < |list| ==> list[i] != list[j]
  }

  /** A duplicate-free list stays duplicate-free. */
  lemma {:induction false} AddKeepsNoDuplicates<E>(list: seq<E>, e: E)
    requires NoDuplicates(list)
    ensures NoDuplicates(Added(list, e).0)
  {
  }

  /** Adding is idempotent: the second call returns the same index and changes nothing. */
  lemma {:induction false} AddIdempotent<E>(list: seq<E>, e: E)
    ensures var (l1, i1) := Added(list, e);
            Added(l1, e) == (l1, i1)
  {
  }

  /** The count grows by one exactly for an element not yet listed. */
  lemma {:induction false} CountAfterAdd<E>(list: seq<E>, e: E)
    ensures GetNumNonlocalElements(Added(list, e).0)
         == GetNumNonlocalElements(list) + (if e in list then 0 else 1)
  {
  }
}
