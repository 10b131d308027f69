/**
 * The row initialisation of the Levenshtein programmes as the source
 * writes it, `char1Costs[j] = ++j`, and runs of the full and the banded
 * programme that start from it. Since C++17 the right operand of an
 * assignment is evaluated first, so each write lands one slot to the
 * right: the first cell keeps whatever the buffer held. In the full
 * programme cell len2 is written past the intended row; in the banded one
 * the cells below the bound are one too small. The Levenshtein module
 * initialises the rows as intended: 1, 2, ..., len2, and in the banded
 * programme the same capped at maxDistance + 1.
 */
module LevenshteinAsWritten {
  import opened LevenshteinSpec

  /** The loop `for (j = from; j < bound;) row[j] = ++j;` as written. */
  function InitLoopAsWritten(row: seq<int>, j: nat, bound: nat): (r: seq<int>)
    requires j <= bound < |row|
    ensures |r| == |row|
    ensures forall k :: 0 <= k <= j && k < |row| ==> r[k] == row[k]
    ensures forall k :: j < k <= bound ==> r[k] == k
    ensures forall k :: bound < k < |row| ==> r[k] == row[k]
    decreases bound - j
  {
    if j < bound then InitLoopAsWritten(row[j + 1 := j + 1], j + 1, bound) else row
  }

  /** Minimum as the inner loop takes it: the diagonal, lowered to the
    * cell above and then to the cell on the left. */
  function MinOf(diag: int, above: int, left: int): int
  {
    var m := if above < diag then above else diag;
    if left < m then left else m
  }

  /** The inner loop of the full programme from column j on: returns the
    * new row and the last cost computed. */
  function RowFrom(row: seq<int>, c: char, b: string, j: nat, left: int, above: int, cur: int): (r: (seq<int>, int))
    requires |b| <= |row| && j <= |b|
    ensures |r.0| == |row|
    decreases |b| - j
  {
    if j == |b| then (row, cur)
    else
      var left' := row[j];
      var cur' := if b[j] != c then MinOf(left, above, left') + 1 else left;
      RowFrom(row[j := cur'], c, b, j + 1, left', cur', cur')
  }

  /** The outer loop of the full programme from row i on. */
  function RowsFrom(row: seq<int>, a: string, b: string, i: nat, cur: int): int
    requires |b| <= |row| && i <= |a|
    decreases |a| - i
  {
    if i == |a| then cur
    else
      var next := RowFrom(row, a[i], b, 0, i, i, cur);
      RowsFrom(next.0, a, b, i + 1, next.1)
  }

  /** The full programme as written, on middle parts a and b, with the
    * buffer it finds (at least one slot longer than b, so that the stray
    * write stays inside it). */
  function FullDistanceAsWritten(a: string, b: string, buffer: seq<int>): int
    requires |b| < |buffer|
  {
    RowsFrom(InitLoopAsWritten(buffer, 0, |b|), a, b, 0, 0)
  }

  /** With a buffer of three zeros, as left by constructing the comparer
    * with expectedMaxstringLength 3, "a" against "bc" (nothing to trim)
    * comes out as 1, while the edit distance is 2. */
  lemma AsWrittenUndercounts()
    ensures FullDistanceAsWritten("a", "bc", [0, 0, 0]) == 1
    ensures LevDist("a", "bc") == 2
  {
    AsWrittenRun();
    DistanceOfExample();
  }

  lemma AsWrittenRun()
    ensures FullDistanceAsWritten("a", "bc", [0, 0, 0]) == 1
  {
    var init := InitLoopAsWritten([0, 0, 0], 0, 2);
    assert init == [0, 1, 2];
    assert "bc"[0] == 'b' && "bc"[1] == 'c' && "a"[0] == 'a';
    assert RowFrom([1, 1, 2], 'a', "bc", 2, 1, 1, 1) == ([1, 1, 2], 1);
    assert [1, 1, 2][1 := 1] == [1, 1, 2];
    assert RowFrom([1, 1, 2], 'a', "bc", 1, 0, 1, 1) == ([1, 1, 2], 1);
    assert init[0 := 1] == [1, 1, 2];
    assert RowFrom(init, 'a', "bc", 0, 0, 0, 0) == ([1, 1, 2], 1);
  }

  lemma DistanceOfExample()
    ensures LevDist("a", "bc") == 2
  {
    var a, b := "a", "bc";
    assert a[0] != b[0] && a[0] != b[1];
    assert Lev(a, b, 1, 1) == 1 by {
      LevUnfold(a, b, 1, 1);
    }
    LevUnfold(a, b, 1, 2);
  }

  /** The loop `for (; j < len2;) row[j++] = v;`. */
  function FillFrom(row: seq<int>, j: nat, len2: nat, v: int): (r: seq<int>)
    requires len2 <= |row|
    ensures |r| == |row|
    ensures forall k :: 0 <= k < |row| ==> r[k] == if j <= k < len2 then v else row[k]
    decreases len2 - j
  {
    if j < len2 then FillFrom(row[j := v], j + 1, len2, v) else row
  }

  /** The banded programme's initialisation as written: slot 0 keeps its
    * old value, slots 1 to maxDistance - 1 hold their own index (one less
    * than the first row of the table), and the rest up to len2 hold
    * maxDistance + 1. */
  function BandInitAsWritten(row: seq<int>, maxDistance: nat, len2: nat): (r: seq<int>)
    requires maxDistance < len2 <= |row|
    ensures |r| == |row|
    ensures maxDistance >= 1 ==> r[0] == row[0]
    ensures forall k :: 1 <= k < maxDistance ==> r[k] == k
    ensures forall k :: maxDistance <= k < len2 ==> r[k] == maxDistance + 1
  {
    FillFrom(InitLoopAsWritten(row, 0, maxDistance), maxDistance, len2, maxDistance + 1)
  }

  /** The banded inner loop of one row from column j up to jEnd: returns
    * the new row and the last cost computed. */
  function BandRowFrom(row: seq<int>, c: char, b: string, j: nat, jEnd: nat, left: int, above: int, cur: int)
    : (r: (seq<int>, int))
    requires jEnd <= |b| <= |row|
    ensures |r.0| == |row|
    decreases jEnd - j
  {
    if jEnd <= j then (row, cur)
    else
      var left' := row[j];
      var cur' := if b[j] != c then MinOf(left, above, left') + 1 else left;
      BandRowFrom(row[j := cur'], c, b, j + 1, jEnd, left', cur', cur')
  }

  /** The banded outer loop from row i on: the band moves, the row is
    * computed, and the run gives up with -1 once the cell on the diagonal
    * exceeds the bound; at the end the last cost, or -1 above the bound. */
  function BandRowsFrom(row: seq<int>, a: string, b: string, i: nat, maxDistance: int,
                        jStart: nat, jEnd: nat, cur: int): int
    requires |a| <= |b| <= |row| && i <= |a| && jEnd <= |b|
    decreases |a| - i
  {
    if i == |a| then (if cur <= maxDistance then cur else -1)
    else
      var lenDiff := |b| - |a|;
      var jStart' := jStart + if i > maxDistance - lenDiff then 1 else 0;
      var jEnd' := jEnd + if jEnd < |b| then 1 else 0;
      var next := BandRowFrom(row, a[i], b, jStart', jEnd', i, i, cur);
      if next.0[i + lenDiff] > maxDistance then -1
      else BandRowsFrom(next.0, a, b, i + 1, maxDistance, jStart', jEnd', next.1)
  }

  /** The banded programme as written, on middle parts a and b (a no
    * longer than b, the bound below the length of b), with the buffer it
    * finds. */
  function BandedDistanceAsWritten(a: string, b: string, maxDistance: nat, buffer: seq<int>): int
    requires |a| <= |b| <= |buffer| && maxDistance < |b|
  {
    BandRowsFrom(BandInitAsWritten(buffer, maxDistance, |b|), a, b, 0, maxDistance, 0, maxDistance, 0)
  }

  /** With a buffer of three zeros, "ab" against "cde" (nothing to trim)
    * within bound 2 comes out as 2, while the edit distance is 3; the same
    * loops started from the intended row 1, 2, 3 give -1. */
  lemma BandedAsWrittenOvercounts()
    ensures BandedDistanceAsWritten("ab", "cde", 2, [0, 0, 0]) == 2
    ensures LevDist("ab", "cde") == 3
    ensures BandRowsFrom([1, 2, 3], "ab", "cde", 0, 2, 0, 2, 0) == -1
  {
    BandedAsWrittenRun();
    BandedIntendedRun();
    DistanceOfBandExample();
  }

  lemma BandedAsWrittenRun()
    ensures BandedDistanceAsWritten("ab", "cde", 2, [0, 0, 0]) == 2
  {
    var a, b := "ab", "cde";
    assert a[0] == 'a' && a[1] == 'b' && b[0] == 'c' && b[1] == 'd' && b[2] == 'e';
    var init := BandInitAsWritten([0, 0, 0], 2, 3);
    assert init == [0, 1, 3];
    assert BandRowFrom([1, 1, 2], 'a', b, 3, 3, 3, 2, 2) == ([1, 1, 2], 2);
    assert [1, 1, 3][2 := 2] == [1, 1, 2];
    assert BandRowFrom([1, 1, 3], 'a', b, 2, 3, 1, 1, 1) == ([1, 1, 2], 2);
    assert [1, 1, 3][1 := 1] == [1, 1, 3];
    assert BandRowFrom([1, 1, 3], 'a', b, 1, 3, 0, 1, 1) == ([1, 1, 2], 2);
    assert init[0 := 1] == [1, 1, 3];
    assert BandRowFrom(init, 'a', b, 0, 3, 0, 0, 0) == ([1, 1, 2], 2);
    assert BandRowFrom([2, 2, 2], 'b', b, 3, 3, 2, 2, 2) == ([2, 2, 2], 2);
    assert [2, 2, 2][2 := 2] == [2, 2, 2];
    assert BandRowFrom([2, 2, 2], 'b', b, 2, 3, 1, 2, 2) == ([2, 2, 2], 2);
    assert [2, 1, 2][1 := 2] == [2, 2, 2];
    assert BandRowFrom([2, 1, 2], 'b', b, 1, 3, 1, 2, 2) == ([2, 2, 2], 2);
    assert [1, 1, 2][0 := 2] == [2, 1, 2];
    assert BandRowFrom([1, 1, 2], 'b', b, 0, 3, 1, 1, 2) == ([2, 2, 2], 2);
    assert BandRowsFrom([2, 2, 2], a, b, 2, 2, 0, 3, 2) == 2;
    assert BandRowsFrom([1, 1, 2], a, b, 1, 2, 0, 3, 2) == 2;
  }

  lemma BandedIntendedRun()
    ensures BandRowsFrom([1, 2, 3], "ab", "cde", 0, 2, 0, 2, 0) == -1
  {
    var a, b := "ab", "cde";
    assert a[0] == 'a' && a[1] == 'b' && b[0] == 'c' && b[1] == 'd' && b[2] == 'e';
    assert [1, 2, 3][2 := 3] == [1, 2, 3];
    assert BandRowFrom([1, 2, 3], 'a', b, 2, 3, 2, 2, 2) == ([1, 2, 3], 3);
    assert [1, 2, 3][1 := 2] == [1, 2, 3];
    assert BandRowFrom([1, 2, 3], 'a', b, 1, 3, 1, 1, 1) == ([1, 2, 3], 3);
    assert [1, 2, 3][0 := 1] == [1, 2, 3];
    assert BandRowFrom([1, 2, 3], 'a', b, 0, 3, 0, 0, 0) == ([1, 2, 3], 3);
    assert [2, 2, 3][2 := 3] == [2, 2, 3];
    assert BandRowFrom([2, 2, 3], 'b', b, 2, 3, 2, 2, 2) == ([2, 2, 3], 3);
    assert [2, 2, 3][1 := 2] == [2, 2, 3];
    assert BandRowFrom([2, 2, 3], 'b', b, 1, 3, 1, 2, 2) == ([2, 2, 3], 3);
    assert [1, 2, 3][0 := 2] == [2, 2, 3];
    assert BandRowFrom([1, 2, 3], 'b', b, 0, 3, 1, 1, 3) == ([2, 2, 3], 3);
    assert BandRowsFrom([1, 2, 3], a, b, 1, 2, 0, 3, 3) == -1;
  }

  lemma DistanceOfBandExample()
    ensures LevDist("ab", "cde") == 3
  {
    var a, b := "ab", "cde";
    assert a[0] == 'a' && a[1] == 'b' && b[0] == 'c' && b[1] == 'd' && b[2] == 'e';
    assert Lev(a, b, 1, 1) == 1 by { LevUnfold(a, b, 1, 1); }
    assert Lev(a, b, 1, 2) == 2 by { LevUnfold(a, b, 1, 2); }
    assert Lev(a, b, 1, 3) == 3 by { LevUnfold(a, b, 1, 3); }
    assert Lev(a, b, 2, 1) == 2 by { LevUnfold(a, b, 2, 1); }
    assert Lev(a, b, 2, 2) == 2 by { LevUnfold(a, b, 2, 2); }
    LevUnfold(a, b, 2, 3);
  }
}
