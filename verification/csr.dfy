/** Removal of near-zero entries from a compressed-sparse-row matrix
    (`SparseMatrixCSR<int>` and `SparseMatrixCSR<double>::RemoveZeroEntries`).

    The matrix is stored as two parallel arrays (values, column indices) and a
    row-pointer array of length rows + 1 whose entries are offset by the index
    base: 0 for zero-based and 1 for one-based (Fortran-style) indexing. */
module SparseCsr {

  datatype Csr<T> = Csr(values: seq<T>, columns: seq<int>, rowIndex: seq<int>, oneBased: bool)

  function Base(oneBased: bool): int {
    if oneBased then 1 else 0
  }

  /** Each element is at least the one before it. */
  predicate NonDecreasing(s: seq<int>) {
    |s| <= 1 || (NonDecreasing(s[..|s| - 1]) && s[|s| - 2] <= s[|s| - 1])
  }

  /** Row pointers start at the base, never decrease and end at base + number of entries. */
  predicate WellFormed<T>(m: Csr<T>) {
    && |m.rowIndex| >= 1
    && |m.values| == |m.columns|
    && m.rowIndex[0] == Base(m.oneBased)
    && NonDecreasing(m.rowIndex)
    && m.rowIndex[|m.rowIndex| - 1] - Base(m.oneBased) == |m.values|
  }

  lemma {:induction false} NonDecreasingPair(s: seq<int>, i: nat, j: nat)
    requires NonDecreasing(s)
    requires i <= j < |s|
    ensures s[i] <= s[j]
  {
    if j == |s| - 1 && i < j {
      var p := s[..|s| - 1];
      NonDecreasingPair(p, i, j - 1);
      assert p[i] == s[i] && p[j - 1] == s[j - 1];
    } else if i < j {
      var p := s[..|s| - 1];
      NonDecreasingPair(p, i, j);
      assert p[i] == s[i] && p[j] == s[j];
    }
  }

  /** Appending an element no smaller than the last keeps the order. */
  lemma {:induction false} NonDecreasingSnoc(s: seq<int>, x: int)
    requires NonDecreasing(s) && |s| > 0 && s[|s| - 1] <= x
    ensures NonDecreasing(s + [x])
  {
    assert (s + [x])[..|s|] == s;
  }

  /** The entries of row k lie between its pointers, inside the value array. */
  lemma {:induction false} RowBounds<T>(m: Csr<T>, k: nat)
    requires WellFormed(m)
    requires k + 1 < |m.rowIndex|
    ensures 0 <= m.rowIndex[k] - Base(m.oneBased) <= m.rowIndex[k + 1] - Base(m.oneBased) <= |m.values|
  {
    NonDecreasingPair(m.rowIndex, 0, k);
    NonDecreasingPair(m.rowIndex, k, k + 1);
    NonDecreasingPair(m.rowIndex, k + 1, |m.rowIndex| - 1);
  }

  /** Largest magnitude among the first n values, 0 when there are none
      (the scan starts from `maxValue = 0`). */
  function MaxMagnitude<T>(s: seq<T>, n: nat, mag: T -> real): (r: real)
    requires n <= |s|
    ensures r >= 0.0
  {
    if n == 0 then 0.0
    else
      var m := MaxMagnitude(s, n - 1, mag);
      if mag(s[n - 1]) > m then mag(s[n - 1]) else m
  }

  /** The effective tolerance: the absolute one, plus the relative one scaled by
      the largest magnitude when the relative tolerance is positive. */
  function Tolerance<T>(values: seq<T>, mag: T -> real, absTol: real, relTol: real): real {
    Scaled(absTol, relTol, MaxMagnitude(values, |values|, mag))
  }

  function Scaled(absTol: real, relTol: real, maxMagnitude: real): real {
    if relTol > 0.0 then absTol + relTol * maxMagnitude else absTol
  }

  /** Reference filter: the entries lo .. hi-1 whose magnitude exceeds `tol`, in order. */
  function Survivors<T>(s: seq<T>, lo: nat, hi: nat, mag: T -> real, tol: real): (r: seq<T>)
    requires lo <= hi <= |s|
    ensures |r| <= hi - lo
    decreases hi
  {
    if hi == lo then []
    else Survivors(s, lo, hi - 1, mag, tol) + (if mag(s[hi - 1]) > tol then [s[hi - 1]] else [])
  }

  /** The column indices that travel with the surviving values. */
  function SurvivorColumns<T>(s: seq<T>, cols: seq<int>, lo: nat, hi: nat, mag: T -> real, tol: real): (r: seq<int>)
    requires lo <= hi <= |s| == |cols|
    decreases hi
  {
    if hi == lo then []
    else SurvivorColumns(s, cols, lo, hi - 1, mag, tol) + (if mag(s[hi - 1]) > tol then [cols[hi - 1]] else [])
  }

  function Kept<T>(s: seq<T>, mag: T -> real, tol: real): seq<T> {
    Survivors(s, 0, |s|, mag, tol)
  }

  function KeptColumns<T>(s: seq<T>, cols: seq<int>, mag: T -> real, tol: real): seq<int>
    requires |s| == |cols|
  {
    SurvivorColumns(s, cols, 0, |s|, mag, tol)
  }

  /** Columns and values are filtered in lockstep. */
  lemma {:induction false} SurvivorColumnsLength<T>(s: seq<T>, cols: seq<int>, lo: nat, hi: nat, mag: T -> real, tol: real)
    requires lo <= hi <= |s| == |cols|
    ensures |SurvivorColumns(s, cols, lo, hi, mag, tol)| == |Survivors(s, lo, hi, mag, tol)|
    decreases hi
  {
    if hi > lo {
      SurvivorColumnsLength(s, cols, lo, hi - 1, mag, tol);
    }
  }

  /** Survivors of lo..hi are those of lo..mid followed by those of mid..hi. */
  lemma {:induction false} SurvivorsSplit<T>(s: seq<T>, lo: nat, mid: nat, hi: nat, mag: T -> real, tol: real)
    requires lo <= mid <= hi <= |s|
    ensures Survivors(s, lo, hi, mag, tol) == Survivors(s, lo, mid, mag, tol) + Survivors(s, mid, hi, mag, tol)
    decreases hi
  {
    if hi > mid {
      SurvivorsSplit(s, lo, mid, hi - 1, mag, tol);
    }
  }

  lemma {:induction false} SurvivorsMonotone<T>(s: seq<T>, i: nat, j: nat, mag: T -> real, tol: real)
    requires i <= j <= |s|
    ensures |Survivors(s, 0, i, mag, tol)| <= |Survivors(s, 0, j, mag, tol)|
  {
    SurvivorsSplit(s, 0, i, j, mag, tol);
  }

  /** Every survivor lies strictly above the tolerance. */
  lemma {:induction false} SurvivorsAbove<T>(s: seq<T>, lo: nat, hi: nat, mag: T -> real, tol: real)
    requires lo <= hi <= |s|
    ensures forall i :: 0 <= i < |Survivors(s, lo, hi, mag, tol)| ==> mag(Survivors(s, lo, hi, mag, tol)[i]) > tol
    decreases hi
  {
    if hi > lo {
      SurvivorsAbove(s, lo, hi - 1, mag, tol);
    }
  }

  /** Every entry survives when all magnitudes exceed the tolerance. */
  lemma {:induction false} SurvivorsAll<T>(s: seq<T>, hi: nat, mag: T -> real, tol: real)
    requires hi <= |s|
    requires forall i :: 0 <= i < |s| ==> mag(s[i]) > tol
    ensures Survivors(s, 0, hi, mag, tol) == s[..hi]
  {
    if hi > 0 {
      SurvivorsAll(s, hi - 1, mag, tol);
      assert s[..hi - 1] + [s[hi - 1]] == s[..hi];
    }
  }

  /** The state of the in-place compaction after the first `pos` entries: the
      survivors so far sit at the front, the unread entries are untouched. */
  ghost predicate Compacted<T>(values: seq<T>, columns: seq<int>, mag: T -> real, tol: real,
                               vals: seq<T>, cols: seq<int>, newPos: int, pos: nat) {
    && |values| == |columns| == |vals| == |cols|
    && 0 <= newPos <= pos <= |values|
    && newPos == |Survivors(values, 0, pos, mag, tol)|
    && vals[..newPos] == Survivors(values, 0, pos, mag, tol)
    && cols[..newPos] == SurvivorColumns(values, columns, 0, pos, mag, tol)
    && vals[pos..] == values[pos..]
    && cols[pos..] == columns[pos..]
  }

  /** Every rebuilt row pointer past the first is the base plus the number
      of survivors among the entries of the rows before it. */
  ghost predicate RebuiltPointers<T>(m: Csr<T>, mag: T -> real, tol: real, ri: seq<int>) {
    Pointers(m.values, m.rowIndex, Base(m.oneBased), mag, tol, ri)
  }

  /** Filter a well-formed matrix: exactly the entries with magnitude above the
      effective tolerance survive, in their original order and with their own
      column index; each row pointer becomes base + the number of survivors in
      the rows before it; the return value is the number of dropped entries. */
  method RemoveZeroEntries<T>(m: Csr<T>, mag: T -> real, absTol: real, relTol: real)
    returns (r: Csr<T>, numRemoved: int)
    requires WellFormed(m)
    ensures r.oneBased == m.oneBased
    ensures r.values == Kept(m.values, mag, Tolerance(m.values, mag, absTol, relTol))
    ensures r.columns == KeptColumns(m.values, m.columns, mag, Tolerance(m.values, mag, absTol, relTol))
    ensures numRemoved == |m.values| - |r.values| == |m.columns| - |r.columns|
    ensures |r.rowIndex| == |m.rowIndex| && r.rowIndex[0] == m.rowIndex[0]
    ensures RebuiltPointers(m, mag, Tolerance(m.values, mag, absTol, relTol), r.rowIndex)
    ensures WellFormed(r)
  {
    r, numRemoved := CompactRows(m, mag, Tolerance(m.values, mag, absTol, relTol));
  }

  /** The row loop of the compaction for a given tolerance, on the raw arrays:
      `rowIndex` holds the pointers with index base `b`. */
  method CompactRows<T>(m: Csr<T>, mag: T -> real, tol: real) returns (r: Csr<T>, numRemoved: int)
    requires WellFormed(m)
    ensures r.oneBased == m.oneBased
    ensures r.values == Kept(m.values, mag, tol)
    ensures r.columns == KeptColumns(m.values, m.columns, mag, tol)
    ensures numRemoved == |m.values| - |r.values| == |m.columns| - |r.columns|
    ensures |r.rowIndex| == |m.rowIndex| && r.rowIndex[0] == m.rowIndex[0]
    ensures RebuiltPointers(m, mag, tol, r.rowIndex)
    ensures WellFormed(r)
  {
    var vals, cols, ri, newPos;
    vals, cols, ri, newPos, numRemoved := CompactArrays(m.values, m.columns, m.rowIndex, Base(m.oneBased), mag, tol);
    r := Csr(vals[..newPos], cols[..newPos], ri, m.oneBased);
    CompactedMatrix(m, mag, tol, vals, cols, newPos, ri);
  }

  method CompactArrays<T>(values: seq<T>, columns: seq<int>, rowIndex: seq<int>, b: int, mag: T -> real, tol: real)
    returns (vals: seq<T>, cols: seq<int>, ri: seq<int>, newPos: int, numRemoved: int)
    requires |rowIndex| >= 1 && rowIndex[0] == b && NonDecreasing(rowIndex)
    requires |values| == |columns| == rowIndex[|rowIndex| - 1] - b
    ensures Compacted(values, columns, mag, tol, vals, cols, newPos, |values|)
    ensures numRemoved == |values| - newPos
    ensures |ri| == |rowIndex| && ri[0] == b && ri[|ri| - 1] == newPos + b && NonDecreasing(ri)
    ensures Pointers(values, rowIndex, b, mag, tol, ri)
  {
    vals := values;
    cols := columns;
    ri := [b];
    numRemoved := 0;
    newPos := 0;
    var start := 0;
    var row := 0;
    while row < |rowIndex| - 1
      invariant 0 <= row < |rowIndex|
      invariant |ri| == row + 1 && ri[0] == b
      invariant Pointers(values, rowIndex, b, mag, tol, ri)
      invariant NonDecreasing(ri) && ri[row] == newPos + b
      invariant start == rowIndex[row] - b
      invariant Compacted(values, columns, mag, tol, vals, cols, newPos, start)
      invariant numRemoved == start - newPos
    {
      var stop := rowIndex[row + 1] - b;
      PointerBounds(rowIndex, b, row + 1);
      var removed;
      vals, cols, newPos, removed := CompactRange(values, columns, mag, tol, vals, cols, newPos, start, stop);
      numRemoved := numRemoved + removed;
      start := stop;
      PointersStep(values, rowIndex, b, mag, tol, ri, newPos);
      ri := ri + [newPos + b];
      row := row + 1;
    }
  }

  /** Every pointer lies between the base and the end of the value array, above its predecessor. */
  lemma {:induction false} PointerBounds(rowIndex: seq<int>, b: int, k: nat)
    requires |rowIndex| >= 1 && rowIndex[0] == b && NonDecreasing(rowIndex)
    requires 0 < k < |rowIndex|
    ensures 0 <= rowIndex[k - 1] - b <= rowIndex[k] - b <= rowIndex[|rowIndex| - 1] - b
  {
    NonDecreasingPair(rowIndex, 0, k - 1);
    NonDecreasingPair(rowIndex, k - 1, k);
    NonDecreasingPair(rowIndex, k, |rowIndex| - 1);
  }

  /** Each rebuilt pointer past the first is the base plus the number of
      survivors in the entries before the old pointer. */
  ghost predicate Pointers<T>(values: seq<T>, rowIndex: seq<int>, b: int, mag: T -> real, tol: real, ri: seq<int>) {
    && |ri| <= |rowIndex|
    && forall k {:trigger ri[k]} :: 0 < k < |ri| ==>
         && 0 <= rowIndex[k] - b <= |values|
         && ri[k] == b + |Survivors(values, 0, rowIndex[k] - b, mag, tol)|
  }

  /** Closing a row appends its pointer and keeps the pointers rebuilt and ordered. */
  lemma {:induction false} PointersStep<T>(values: seq<T>, rowIndex: seq<int>, b: int, mag: T -> real, tol: real, ri: seq<int>, newPos: int)
    requires |ri| < |rowIndex|
    requires 0 <= rowIndex[|ri|] - b <= |values|
    requires newPos == |Survivors(values, 0, rowIndex[|ri|] - b, mag, tol)|
    requires Pointers(values, rowIndex, b, mag, tol, ri)
    requires NonDecreasing(ri) && |ri| > 0 && ri[|ri| - 1] <= newPos + b
    ensures Pointers(values, rowIndex, b, mag, tol, ri + [newPos + b])
    ensures NonDecreasing(ri + [newPos + b])
  {
    NonDecreasingSnoc(ri, newPos + b);
    var ri' := ri + [newPos + b];
    forall k | 0 < k < |ri'|
      ensures 0 <= rowIndex[k] - b <= |values|
      ensures ri'[k] == b + |Survivors(values, 0, rowIndex[k] - b, mag, tol)|
    {
      if k < |ri| {
        assert ri'[k] == ri[k];
      }
    }
  }

  /** One row of the compaction: moves the survivors among entries
      `start .. stop` down to the write position and counts the others. */
  method CompactRange<T>(values: seq<T>, columns: seq<int>, mag: T -> real, tol: real,
                         vals0: seq<T>, cols0: seq<int>, newPos0: int, start: nat, stop: nat)
    returns (vals: seq<T>, cols: seq<int>, newPos: int, removed: int)
    requires start <= stop <= |values|
    requires Compacted(values, columns, mag, tol, vals0, cols0, newPos0, start)
    ensures Compacted(values, columns, mag, tol, vals, cols, newPos, stop)
    ensures newPos0 <= newPos && removed == (stop - start) - (newPos - newPos0)
  {
    vals, cols, newPos, removed := vals0, cols0, newPos0, 0;
    var pos := start;
    while pos < stop
      invariant start <= pos <= stop
      invariant Compacted(values, columns, mag, tol, vals, cols, newPos, pos)
      invariant newPos0 <= newPos && removed == (pos - start) - (newPos - newPos0)
    {
      CompactStep(values, columns, mag, tol, vals, cols, newPos, pos);
      if mag(vals[pos]) > tol {
        vals := vals[newPos := vals[pos]];
        cols := cols[newPos := cols[pos]];
        newPos := newPos + 1;
      } else {
        removed := removed + 1;
      }
      pos := pos + 1;
    }
  }

  /** One iteration of the inner loop keeps the compaction state. */
  lemma {:induction false} CompactStep<T>(values: seq<T>, columns: seq<int>, mag: T -> real, tol: real,
                                          vals: seq<T>, cols: seq<int>, newPos: int, pos: nat)
    requires pos < |values|
    requires Compacted(values, columns, mag, tol, vals, cols, newPos, pos)
    ensures vals[pos] == values[pos] && cols[pos] == columns[pos]
    ensures mag(vals[pos]) > tol ==>
      Compacted(values, columns, mag, tol, vals[newPos := vals[pos]], cols[newPos := cols[pos]], newPos + 1, pos + 1)
    ensures mag(vals[pos]) <= tol ==> Compacted(values, columns, mag, tol, vals, cols, newPos, pos + 1)
  {
    assert vals[pos] == vals[pos..][0];
    assert cols[pos] == cols[pos..][0];
    if mag(vals[pos]) > tol {
      var v := vals[newPos := vals[pos]];
      var c := cols[newPos := cols[pos]];
      assert v[..newPos + 1] == vals[..newPos] + [vals[pos]];
      assert c[..newPos + 1] == cols[..newPos] + [cols[pos]];
      assert v[pos + 1..] == vals[pos + 1..];
      assert c[pos + 1..] == cols[pos + 1..];
    }
    assert vals[pos + 1..] == vals[pos..][1..];
    assert cols[pos + 1..] == cols[pos..][1..];
    assert values[pos + 1..] == values[pos..][1..];
    assert columns[pos + 1..] == columns[pos..][1..];
  }

  /** After the last row the front of the arrays and the rebuilt pointers
      form a well-formed matrix holding exactly the survivors. */
  lemma {:induction false} CompactedMatrix<T>(m: Csr<T>, mag: T -> real, tol: real, vals: seq<T>, cols: seq<int>, newPos: int, ri: seq<int>)
    requires WellFormed(m)
    requires Compacted(m.values, m.columns, mag, tol, vals, cols, newPos, |m.values|)
    requires |ri| == |m.rowIndex| && ri[0] == m.rowIndex[0] && ri[|ri| - 1] == Base(m.oneBased) + newPos
    requires NonDecreasing(ri)
    ensures vals[..newPos] == Kept(m.values, mag, tol)
    ensures cols[..newPos] == KeptColumns(m.values, m.columns, mag, tol)
    ensures WellFormed(Csr(vals[..newPos], cols[..newPos], ri, m.oneBased))
  {
  }

  /** A rebuilt pointer, the first included, counts the survivors before its row. */
  lemma {:induction false} PointerOfRow<T>(values: seq<T>, rowIndex: seq<int>, b: int, mag: T -> real, tol: real, ri: seq<int>, k: nat)
    requires |rowIndex| >= 1 && rowIndex[0] == b && NonDecreasing(rowIndex)
    requires rowIndex[|rowIndex| - 1] - b == |values|
    requires k < |rowIndex| == |ri| && ri[0] == b
    requires Pointers(values, rowIndex, b, mag, tol, ri)
    ensures 0 <= rowIndex[k] - b <= |values|
    ensures ri[k] - b == |Survivors(values, 0, rowIndex[k] - b, mag, tol)|
  {
    NonDecreasingPair(rowIndex, k, |rowIndex| - 1);
    NonDecreasingPair(rowIndex, 0, k);
  }

  /** No surviving entry changes row: the survivors stored between the new
      pointers of row k are exactly the survivors of the old row k. */
  lemma {:induction false} RowsKeepTheirEntries<T>(m: Csr<T>, r: Csr<T>, mag: T -> real, tol: real, k: nat)
    requires WellFormed(m)
    requires k + 1 < |m.rowIndex| == |r.rowIndex|
    requires r.values == Kept(m.values, mag, tol)
    requires r.rowIndex[0] == m.rowIndex[0]
    requires RebuiltPointers(m, mag, tol, r.rowIndex)
    ensures 0 <= m.rowIndex[k] - Base(m.oneBased) <= m.rowIndex[k + 1] - Base(m.oneBased) <= |m.values|
    ensures 0 <= r.rowIndex[k] - Base(m.oneBased) <= r.rowIndex[k + 1] - Base(m.oneBased) <= |r.values|
    ensures r.values[r.rowIndex[k] - Base(m.oneBased) .. r.rowIndex[k + 1] - Base(m.oneBased)]
         == Survivors(m.values, m.rowIndex[k] - Base(m.oneBased), m.rowIndex[k + 1] - Base(m.oneBased), mag, tol)
  {
    RowKeepsEntries(m.values, m.rowIndex, Base(m.oneBased), mag, tol, r.values, r.rowIndex, k);
  }

  lemma {:induction false} RowKeepsEntries<T>(values: seq<T>, rowIndex: seq<int>, b: int, mag: T -> real, tol: real,
                                              kept: seq<T>, ri: seq<int>, k: nat)
    requires |rowIndex| >= 1 && rowIndex[0] == b && NonDecreasing(rowIndex)
    requires rowIndex[|rowIndex| - 1] - b == |values|
    requires k + 1 < |rowIndex| == |ri| && ri[0] == b
    requires kept == Kept(values, mag, tol)
    requires Pointers(values, rowIndex, b, mag, tol, ri)
    ensures 0 <= rowIndex[k] - b <= rowIndex[k + 1] - b <= |values|
    ensures 0 <= ri[k] - b <= ri[k + 1] - b <= |kept|
    ensures kept[ri[k] - b .. ri[k + 1] - b] == Survivors(values, rowIndex[k] - b, rowIndex[k + 1] - b, mag, tol)
  {
    PointerBounds(rowIndex, b, k + 1);
    PointerOfRow(values, rowIndex, b, mag, tol, ri, k);
    PointerOfRow(values, rowIndex, b, mag, tol, ri, k + 1);
    RowSlice(values, kept, rowIndex[k] - b, rowIndex[k + 1] - b, mag, tol);
  }

  /** Within all survivors, those of entries lo .. hi-1 sit between the
      survivor counts of the first lo and the first hi entries. */
  lemma {:induction false} RowSlice<T>(s: seq<T>, kept: seq<T>, lo: nat, hi: nat, mag: T -> real, tol: real)
    requires lo <= hi <= |s|
    requires kept == Kept(s, mag, tol)
    ensures |Survivors(s, 0, lo, mag, tol)| <= |Survivors(s, 0, hi, mag, tol)| <= |kept|
    ensures kept[|Survivors(s, 0, lo, mag, tol)|..|Survivors(s, 0, hi, mag, tol)|] == Survivors(s, lo, hi, mag, tol)
  {
    var pre := Survivors(s, 0, lo, mag, tol);
    var row := Survivors(s, lo, hi, mag, tol);
    var post := Survivors(s, hi, |s|, mag, tol);
    SurvivorsSplit(s, 0, lo, hi, mag, tol);
    SurvivorsSplit(s, 0, hi, |s|, mag, tol);
    assert kept == pre + row + post;
    assert kept[|pre|..|pre| + |row|] == row;
  }

  /** A second compaction with the same tolerances removes nothing: the
      tolerance can only shrink and every survivor lies above the old one. */
  lemma {:induction false} CompactionIdempotent<T>(values: seq<T>, mag: T -> real, absTol: real, relTol: real)
    ensures var tol := Tolerance(values, mag, absTol, relTol);
            var kept := Kept(values, mag, tol);
            Kept(kept, mag, Tolerance(kept, mag, absTol, relTol)) == kept
  {
    var tol := Tolerance(values, mag, absTol, relTol);
    var kept := Kept(values, mag, tol);
    ToleranceOfKept(values, mag, absTol, relTol, tol);
    SurvivorsAbove(values, 0, |values|, mag, tol);
    SurvivorsAll(kept, |kept|, mag, Tolerance(kept, mag, absTol, relTol));
  }

  /** Dropping entries can only lower the effective tolerance. */
  lemma {:induction false} ToleranceOfKept<T>(values: seq<T>, mag: T -> real, absTol: real, relTol: real, tol: real)
    ensures Tolerance(Kept(values, mag, tol), mag, absTol, relTol) <= Tolerance(values, mag, absTol, relTol)
  {
    var kept := Kept(values, mag, tol);
    var top := MaxMagnitude(values, |values|, mag);
    MaxMagnitudeBound(values, |values|, mag);
    SurvivorsBelow(values, 0, |values|, mag, tol, top);
    MaxBelow(kept, |kept|, mag, top);
    ScaledMonotone(absTol, relTol, MaxMagnitude(kept, |kept|, mag), top);
  }

  lemma {:induction false} MaxMagnitudeBound<T>(s: seq<T>, n: nat, mag: T -> real)
    requires n <= |s|
    ensures forall i :: 0 <= i < n ==> mag(s[i]) <= MaxMagnitude(s, n, mag)
  {
    if n > 0 {
      MaxMagnitudeBound(s, n - 1, mag);
    }
  }

  lemma {:induction false} MaxBelow<T>(s: seq<T>, n: nat, mag: T -> real, bound: real)
    requires n <= |s|
    requires bound >= 0.0
    requires forall i :: 0 <= i < n ==> mag(s[i]) <= bound
    ensures MaxMagnitude(s, n, mag) <= bound
  {
    if n > 0 {
      MaxBelow(s, n - 1, mag, bound);
    }
  }

  lemma {:induction false} SurvivorsBelow<T>(s: seq<T>, lo: nat, hi: nat, mag: T -> real, tol: real, bound: real)
    requires lo <= hi <= |s|
    requires forall i :: lo <= i < hi ==> mag(s[i]) <= bound
    ensures forall i :: 0 <= i < |Survivors(s, lo, hi, mag, tol)| ==> mag(Survivors(s, lo, hi, mag, tol)[i]) <= bound
    decreases hi
  {
    if hi > lo {
      SurvivorsBelow(s, lo, hi - 1, mag, tol, bound);
    }
  }

  lemma {:induction false} ScaledMonotone(absTol: real, relTol: real, x: real, y: real)
    requires x <= y
    ensures Scaled(absTol, relTol, x) <= Scaled(absTol, relTol, y)
  {
    if relTol > 0.0 {
      assert relTol * x <= relTol * y;
    }
  }

  function AbsReal(x: real): real {
    if x < 0.0 then -x else x
  }

  function AbsInt(x: int): real {
    (if x < 0 then -x else x) as real
  }

  /** `SparseMatrixCSR<double>::RemoveZeroEntries`. */
  method RemoveZeroEntriesDouble(m: Csr<real>, absTol: real, relTol: real) returns (r: Csr<real>, numRemoved: int)
    requires WellFormed(m)
    ensures r.values == Kept(m.values, AbsReal, Tolerance(m.values, AbsReal, absTol, relTol))
    ensures numRemoved == |m.values| - |r.values|
    ensures forall i :: 0 <= i < |r.values| ==> AbsReal(r.values[i]) > Tolerance(m.values, AbsReal, absTol, relTol)
    ensures WellFormed(r)
  {
    r, numRemoved := RemoveZeroEntries(m, AbsReal, absTol, relTol);
    SurvivorsAbove(m.values, 0, |m.values|, AbsReal, Tolerance(m.values, AbsReal, absTol, relTol));
  }

  /** `SparseMatrixCSR<int>::RemoveZeroEntries`. */
  method RemoveZeroEntriesInt(m: Csr<int>, absTol: real, relTol: real) returns (r: Csr<int>, numRemoved: int)
    requires WellFormed(m)
    ensures r.values == Kept(m.values, AbsInt, Tolerance(m.values, AbsInt, absTol, relTol))
    ensures numRemoved == |m.values| - |r.values|
    ensures forall i :: 0 <= i < |r.values| ==> AbsInt(r.values[i]) > Tolerance(m.values, AbsInt, absTol, relTol)
    ensures WellFormed(r)
  {
    r, numRemoved := RemoveZeroEntries(m, AbsInt, absTol, relTol);
    SurvivorsAbove(m.values, 0, |m.values|, AbsInt, Tolerance(m.values, AbsInt, absTol, relTol));
  }

  function AsReals(s: seq<int>): (r: seq<real>) {
    seq(|s|, i requires 0 <= i < |s| => s[i] as real)
  }

  /** The integer specialisation behaves like the double one on the same
      numbers: the same largest magnitude, hence the same tolerance, and the
      same survivors in every range, hence the same row pointers. */
  lemma {:induction false} IntMatchesDouble(s: seq<int>, lo: nat, hi: nat, tol: real)
    requires lo <= hi <= |s|
    ensures AsReals(Survivors(s, lo, hi, AbsInt, tol)) == Survivors(AsReals(s), lo, hi, AbsReal, tol)
    ensures MaxMagnitude(AsReals(s), hi, AbsReal) == MaxMagnitude(s, hi, AbsInt)
    decreases hi
  {
    if hi > lo {
      IntMatchesDouble(s, lo, hi - 1, tol);
      assert AbsReal(AsReals(s)[hi - 1]) == AbsInt(s[hi - 1]);
      var tail := if AbsInt(s[hi - 1]) > tol then [s[hi - 1]] else [];
      AsRealsAppend(Survivors(s, lo, hi - 1, AbsInt, tol), tail);
    } else if hi > 0 {
      IntMatchesDouble(s, 0, hi - 1, tol);
      assert AbsReal(AsReals(s)[hi - 1]) == AbsInt(s[hi - 1]);
    }
  }

  lemma {:induction false} AsRealsAppend(a: seq<int>, b: seq<int>)
    ensures AsReals(a + b) == AsReals(a) + AsReals(b)
  {
    assert forall i :: 0 <= i < |a + b| ==> AsReals(a + b)[i] == (AsReals(a) + AsReals(b))[i];
  }
}
