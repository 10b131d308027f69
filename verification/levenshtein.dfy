/**
 * The Levenshtein comparer: a reusable row buffer, the unbounded and the
 * bounded distance, and the two dynamic programmes (full and banded) that
 * fill the row buffer in place.
 */
module Levenshtein {
  import opened Wrappers
  import opened Helpers
  import opened LevenshteinSpec

  /** Strings that agree outside a middle part are as far apart as their
    * middle parts. */
  lemma LevDistFrame(s1: string, s2: string, p: string, m1: string, m2: string, q: string)
    requires s1 == p + (m1 + q) && s2 == p + (m2 + q)
    ensures LevDist(s1, s2) == LevDist(m1, m2)
  {
    LevDistDropPrefix(p, m1 + q, m2 + q);
    LevDistDropSuffix(m1, m2, q);
  }

  /** Dropping an agreeing prefix of length start and agreeing suffixes
    * after start + len1 and start + len2 leaves the distance unchanged. */
  lemma LevDistTrimAt(s1: string, s2: string, len1: nat, len2: nat, start: nat)
    requires start + len1 <= |s1| && start + len2 <= |s2|
    requires s1[..start] == s2[..start] && s1[start + len1..] == s2[start + len2..]
    ensures LevDist(s1, s2) == LevDist(s1[start..start + len1], s2[start..start + len2])
  {
    var p, q := s1[..start], s1[start + len1..];
    SplitThree(s1, start, start + len1);
    SplitThree(s2, start, start + len2);
    LevDistFrame(s1, s2, p, s1[start..start + len1], s2[start..start + len2], q);
  }

  /** Trimming the common prefix and suffix does not change the distance. */
  lemma LevDistTrim(s1: string, s2: string)
    requires |s1| <= |s2|
    ensures LevDist(s1, s2) == LevDist(Middle(s1, s2).0, Middle(s1, s2).1)
  {
    var t := Prep(s1, s2);
    PrepSound(s1, s2);
    LevDistTrimAt(s1, s2, t.0, t.1, t.2);
  }

  /** Full dynamic programme over the middle parts
    * s1[start..start+len1] and s2[start..start+len2], one row at a time in
    * char1Costs (the source keeps two copies of this loop, for start == 0
    * and start != 0, that differ only in the offset; one loop with the
    * offset covers both). The row is initialised to 1, 2, ..., len2. */
  method FullDistance(s1: string, s2: string, len1: nat, len2: nat, start: nat, char1Costs: array<int>)
    returns (r: int)
    requires 1 <= len1 && 1 <= len2
    requires start + len1 <= |s1| && start + len2 <= |s2|
    requires len2 <= char1Costs.Length
    modifies char1Costs
    ensures r == LevDist(s1[start..start + len1], s2[start..start + len2])
  {
    ghost var a, b := s1[start..start + len1], s2[start..start + len2];
    var j := 0;
    while j < len2
      invariant 0 <= j <= len2
      invariant forall k :: 0 <= k < j ==> char1Costs[k] == Lev(a, b, 0, k + 1)
    {
      char1Costs[j] := j + 1;
      j := j + 1;
    }
    var currentCharCost := 0;
    var i := 0;
    while i < len1
      invariant 0 <= i <= len1
      invariant forall k :: 0 <= k < len2 ==> char1Costs[k] == Lev(a, b, i, k + 1)
      invariant i > 0 ==> currentCharCost == Lev(a, b, i, len2)
    {
      currentCharCost := FullRow(s1[start + i], s2, len2, start, i, a, b, char1Costs);
      i := i + 1;
    }
    r := currentCharCost;
  }

  /** One row of the full programme: turns row i of the table (shifted by
    * one column) into row i + 1 and returns its last cell. */
  method FullRow(char1: char, s2: string, len2: nat, start: nat, i: nat,
                 ghost a: string, ghost b: string, char1Costs: array<int>)
    returns (currentCharCost: int)
    requires i < |a| && a[i] == char1
    requires 1 <= len2 == |b| && start + len2 <= |s2| && b == s2[start..start + len2]
    requires len2 <= char1Costs.Length
    requires forall k :: 0 <= k < len2 ==> char1Costs[k] == Lev(a, b, i, k + 1)
    modifies char1Costs
    ensures forall k :: 0 <= k < len2 ==> char1Costs[k] == Lev(a, b, i + 1, k + 1)
    ensures currentCharCost == Lev(a, b, i + 1, len2)
  {
    var leftCharCost, aboveCharCost := i, i;
    currentCharCost := 0;
    var j := 0;
    while j < len2
      invariant 0 <= j <= len2
      invariant forall k :: 0 <= k < j ==> char1Costs[k] == Lev(a, b, i + 1, k + 1)
      invariant forall k :: j <= k < len2 ==> char1Costs[k] == Lev(a, b, i, k + 1)
      invariant leftCharCost == Lev(a, b, i, j)
      invariant aboveCharCost == if j == 0 then i else Lev(a, b, i + 1, j)
      invariant j > 0 ==> currentCharCost == Lev(a, b, i + 1, j)
    {
      assert s2[start + j] == b[j];
      currentCharCost := leftCharCost;
      leftCharCost := char1Costs[j];
      LevCellFrom(a, b, i, j, currentCharCost, aboveCharCost, leftCharCost);
      if s2[start + j] != char1 {
        if aboveCharCost < currentCharCost {
          currentCharCost := aboveCharCost;
        }
        if leftCharCost < currentCharCost {
          currentCharCost := leftCharCost;
        }
        currentCharCost := currentCharCost + 1;
      }
      char1Costs[j] := currentCharCost;
      aboveCharCost := currentCharCost;
      j := j + 1;
    }
  }

  /** Cell (i + 1, j + 1) from the three the row loop holds: the diagonal
    * on a match, else one more than the cheapest neighbour (the cell above
    * of the first column is taken as i, which changes no minimum). */
  lemma LevCellFrom(a: string, b: string, i: nat, j: nat, diag: int, above: int, left: int)
    requires i < |a| && j < |b|
    requires diag == Lev(a, b, i, j) && left == Lev(a, b, i, j + 1)
    requires above == if j == 0 then i else Lev(a, b, i + 1, j)
    ensures Lev(a, b, i + 1, j + 1) == if a[i] == b[j] then diag else Min3(diag, above, left) + 1
  {
    if a[i] == b[j] {
      LevMatch(a, b, i + 1, j + 1);
    } else {
      LevUnfold(a, b, i + 1, j + 1);
    }
  }

  /** The banded programme's row before the first pass: the first row of
    * the table for the middle part b, capped at maxDistance + 1 (the cap
    * marks cells already beyond the bound). */
  method BandInit(char1Costs: array<int>, len2: nat, maxDistance: nat, ghost a: string, ghost b: string)
    requires maxDistance < len2 == |b| <= char1Costs.Length
    modifies char1Costs
    ensures forall k :: 0 <= k < len2 ==>
      char1Costs[k] == if Lev(a, b, 0, k + 1) <= maxDistance then Lev(a, b, 0, k + 1) else maxDistance + 1
    ensures forall k :: len2 <= k < char1Costs.Length ==> char1Costs[k] == old(char1Costs[k])
  {
    var j := 0;
    while j < maxDistance
      invariant 0 <= j <= maxDistance
      invariant forall k :: 0 <= k < j ==> char1Costs[k] == Lev(a, b, 0, k + 1)
      invariant forall k :: len2 <= k < char1Costs.Length ==> char1Costs[k] == old(char1Costs[k])
    {
      char1Costs[j] := j + 1;
      j := j + 1;
    }
    while j < len2
      invariant 0 <= j <= len2
      invariant forall k :: 0 <= k < j ==>
        char1Costs[k] == if Lev(a, b, 0, k + 1) <= maxDistance then Lev(a, b, 0, k + 1) else maxDistance + 1
      invariant forall k :: len2 <= k < char1Costs.Length ==> char1Costs[k] == old(char1Costs[k])
    {
      char1Costs[j] := maxDistance + 1;
      j := j + 1;
    }
  }

  /** Banded dynamic programme, used when the bound is below len2: only
    * the cells within maxDistance of the diagonal are computed, and the
    * run stops with -1 as soon as the diagonal cell of a row exceeds the
    * bound. The row starts as BandInit leaves it. */
  method BandedDistance(s1: string, s2: string, len1: nat, len2: nat, start: nat, maxDistance: int,
                        char1Costs: array<int>)
    returns (r: int)
    requires len1 <= len2 && 0 <= maxDistance < len2
    requires start + len1 <= |s1| && start + len2 <= |s2|
    requires len2 <= char1Costs.Length
    modifies char1Costs
    ensures r == -1 || 0 <= r <= maxDistance
  {
    BandInit(char1Costs, len2, maxDistance, s1[start..start + len1], s2[start..start + len2]);
    var j;
    var lenDiff := len2 - len1;
    var jStartOffset := maxDistance - lenDiff;
    var jStart := 0;
    var jEnd := maxDistance;
    var currentCost := 0;
    var i := 0;
    while i < len1
      invariant 0 <= i <= len1
      invariant 0 <= jStart <= i && jEnd <= len2
      invariant currentCost >= 0
      invariant forall k :: 0 <= k < len2 ==> char1Costs[k] >= 0
    {
      var char1 := s1[start + i];
      var prevChar1Cost, aboveCharCost := i, i;
      jStart := jStart + if i > jStartOffset then 1 else 0;
      jEnd := jEnd + if jEnd < len2 then 1 else 0;
      j := jStart;
      while j < jEnd
        invariant jStart <= j
        invariant currentCost >= 0 && prevChar1Cost >= 0 && aboveCharCost >= 0
        invariant forall k :: 0 <= k < len2 ==> char1Costs[k] >= 0
      {
        currentCost := prevChar1Cost;
        prevChar1Cost := char1Costs[j];
        if s2[start + j] != char1 {
          if aboveCharCost < currentCost {
            currentCost := aboveCharCost;
          }
          if prevChar1Cost < currentCost {
            currentCost := prevChar1Cost;
          }
          currentCost := currentCost + 1;
        }
        char1Costs[j] := currentCost;
        aboveCharCost := currentCost;
        j := j + 1;
      }
      if char1Costs[i + lenDiff] > maxDistance {
        return -1;
      }
      i := i + 1;
    }
    r := if currentCost <= maxDistance then currentCost else -1;
  }

  class Levenshtein {
    /** Row buffer reused across calls; grown when a longer string comes. */
    var baseChar1Costs: array<int>

    /** Default construction: an empty buffer, grown on first use. */
    constructor ()
      ensures baseChar1Costs.Length == 0 && fresh(baseChar1Costs)
    {
      baseChar1Costs := new int[0];
    }

    /** Construction with an expected maximum string length: refused
      * unless the length is positive; the buffer starts as that many
      * zeros. */
    static method Create(expectedMaxStringLength: int) returns (r: Result<Levenshtein>)
      ensures r.Failure? <==> expectedMaxStringLength <= 0
      ensures r.Success? ==> fresh(r.value) && fresh(r.value.baseChar1Costs)
      ensures r.Success? ==> r.value.baseChar1Costs[..] == seq(expectedMaxStringLength, _ => 0)
    {
      if expectedMaxStringLength <= 0 {
        return Failure("expectedMaxstringLength must be larger than 0");
      }
      var l := new Levenshtein();
      l.baseChar1Costs := new int[expectedMaxStringLength](_ => 0);
      r := Success(l);
    }

    /** The buffer is replaced by len2 zeros only when it is too short. */
    method GrowBuffer(len2: nat)
      modifies this
      ensures old(baseChar1Costs.Length) >= len2 ==> baseChar1Costs == old(baseChar1Costs)
      ensures old(baseChar1Costs.Length) < len2 ==>
        fresh(baseChar1Costs) && baseChar1Costs[..] == seq(len2, _ => 0)
      ensures len2 <= baseChar1Costs.Length
    {
      if baseChar1Costs.Length < len2 {
        baseChar1Costs := new int[len2](_ => 0);
      }
    }

    /** Unbounded distance: the edit distance of the two strings. */
    method Distance(string1: string, string2: string) returns (r: int)
      modifies this, baseChar1Costs
      ensures baseChar1Costs == old(baseChar1Costs) || fresh(baseChar1Costs)
      ensures r == LevDist(string1, string2)
    {
      if string1 == [] {
        LevUpper([], string2, 0, |string2|);
        LevLower([], string2, 0, |string2|);
        return |string2|;
      }
      if string2 == [] {
        LevUpper(string1, [], |string1|, 0);
        LevLower(string1, [], |string1|, 0);
        return |string1|;
      }
      var s1, s2 := string1, string2;
      if |s1| > |s2| {
        s1, s2 := string2, string1;
        LevDistSymmetric(string1, string2);
      }
      var len1, len2, start := PrefixSuffixPrep(s1, s2);
      LevDistTrim(s1, s2);
      if len1 == 0 {
        LevLower(Middle(s1, s2).0, Middle(s1, s2).1, 0, len2);
        LevUpper(Middle(s1, s2).0, Middle(s1, s2).1, 0, len2);
        return len2;
      }
      GrowBuffer(len2);
      r := FullDistance(s1, s2, len1, len2, start, baseChar1Costs);
    }

    /** Bounded distance: the edit distance when it is within maxDistance,
      * -1 when it is not. With a bound of at most 0 only equality is
      * checked; a length difference above the bound is refused at once.
      * The full programme runs when the bound covers the trimmed longer
      * part, the banded one otherwise. */
    method BoundedDistance(string1: string, string2: string, maxDistance: int) returns (r: int)
      modifies this, baseChar1Costs
      ensures baseChar1Costs == old(baseChar1Costs) || fresh(baseChar1Costs)
      ensures r == -1 || (0 <= r && (r == 0 || r <= maxDistance))
      ensures r >= 0 && string1 != [] && string2 != [] && maxDistance > 0 ==> r <= ClampBound(maxDistance)
      ensures string1 == [] || string2 == [] ==>
        r == (if LevDist(string1, string2) == 0 then 0 else Bounded(LevDist(string1, string2), maxDistance))
      ensures string1 != [] && string2 != [] && maxDistance <= 0 ==>
        (r == 0 <==> string1 == string2) && (r != 0 ==> r == -1)
      ensures string1 != [] && string2 != [] && maxDistance > 0 && Unbanded(string1, string2, ClampBound(maxDistance)) ==>
        r == Bounded(LevDist(string1, string2), ClampBound(maxDistance))
    {
      if string1 == [] || string2 == [] {
        LevUpper(string1, string2, |string1|, |string2|);
        LevLower(string1, string2, |string1|, |string2|);
        return NullDistanceResults(string1, string2, maxDistance);
      }
      if maxDistance <= 0 {
        LevDistZero(string1, string2);
        return if string1 == string2 then 0 else -1;
      }
      var iMaxDistance := ClampBound(maxDistance);
      if |string1| > |string2| {
        LevDistSymmetric(string1, string2);
        r := BoundedOrdered(string2, string1, iMaxDistance);
      } else {
        r := BoundedOrdered(string1, string2, iMaxDistance);
      }
    }

    /** The bounded comparison once the shorter operand comes first. */
    method BoundedOrdered(s1: string, s2: string, iMaxDistance: int) returns (r: int)
      requires 1 <= |s1| <= |s2| && 1 <= iMaxDistance
      modifies this, baseChar1Costs
      ensures baseChar1Costs == old(baseChar1Costs) || fresh(baseChar1Costs)
      ensures r == -1 || 0 <= r <= iMaxDistance
      ensures Unbanded(s1, s2, iMaxDistance) ==> r == Bounded(LevDist(s1, s2), iMaxDistance)
    {
      if |s2| - |s1| > iMaxDistance {
        LevLower(s1, s2, |s1|, |s2|);
        return -1;
      }
      var len1, len2, start := PrefixSuffixPrep(s1, s2);
      LevDistTrim(s1, s2);
      LevUpper(Middle(s1, s2).0, Middle(s1, s2).1, len1, len2);
      if len1 == 0 {
        LevLower(Middle(s1, s2).0, Middle(s1, s2).1, 0, len2);
        return if len2 <= iMaxDistance then len2 else -1;
      }
      GrowBuffer(len2);
      if iMaxDistance < len2 {
        r := BandedDistance(s1, s2, len1, len2, start, iMaxDistance, baseChar1Costs);
        return;
      }
      r := FullDistance(s1, s2, len1, len2, start, baseChar1Costs);
    }
  }
}
