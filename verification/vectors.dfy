/** Small vector helpers over exact reals, shared by the geometric modules. */
module Vectors {

  /** The squared Euclidean distance of two vectors of equal dimension. */
  function SquaredDistance(a: seq<real>, b: seq<real>): (r: real)
    requires |a| == |b|
    ensures r >= 0.0
  {
    if |a| == 0 then 0.0
    else SquaredDistance(a[..|a| - 1], b[..|b| - 1]) + (a[|a| - 1] - b[|b| - 1]) * (a[|a| - 1] - b[|b| - 1])
  }

  /** Every vector is at distance zero from itself. */
  lemma {:induction false} SquaredDistanceSelf(p: seq<real>)
    ensures SquaredDistance(p, p) == 0.0
  {
    if |p| > 0 {
      SquaredDistanceSelf(p[..|p| - 1]);
    }
  }

  /** The distance does not depend on the order of its arguments. */
  lemma {:induction false} SquaredDistanceSymmetric(a: seq<real>, b: seq<real>)
    requires |a| == |b|
    ensures SquaredDistance(a, b) == SquaredDistance(b, a)
  {
    if |a| > 0 {
      SquaredDistanceSymmetric(a[..|a| - 1], b[..|b| - 1]);
    }
  }

  /** The sum of the entries. */
  function Sum(s: seq<real>): real {
    if |s| == 0 then 0.0 else Sum(s[..|s| - 1]) + s[|s| - 1]
  }
}
