/**
 * The Damerau-OSA comparer: two row buffers kept between calls, the
 * unbounded and the bounded distance, and the two dynamic programmes
 * (full and banded). The programmes receive the buffers by value: they
 * work on copies, so the kept buffers stay all zeros and are only ever
 * replaced by longer zero buffers.
 */
module DamerauOsa {
  import opened Wrappers
  import opened Helpers
  import opened DamerauOsaSpec

  /** Strings that agree outside a middle part are as far apart as their
    * middle parts. */
  lemma OsaDistFrame(s1: string, s2: string, p: string, m1: string, m2: string, q: string)
    requires s1 == p + (m1 + q) && s2 == p + (m2 + q)
    ensures OsaDist(s1, s2) == OsaDist(m1, m2)
  {
    OsaDistDropPrefix(p, m1 + q, m2 + q);
    OsaDistDropSuffix(m1, m2, q);
  }

  lemma OsaDistTrimAt(s1: string, s2: string, len1: nat, len2: nat, start: nat)
    requires start + len1 <= |s1| && start + len2 <= |s2|
    requires s1[..start] == s2[..start] && s1[start + len1..] == s2[start + len2..]
    ensures OsaDist(s1, s2) == OsaDist(s1[start..start + len1], s2[start..start + len2])
  {
    SplitThree(s1, start, start + len1);
    SplitThree(s2, start, start + len2);
    OsaDistFrame(s1, s2, s1[..start], s1[start..start + len1], s2[start..start + len2], s1[start + len1..]);
  }

  /** Trimming the common prefix and suffix does not change the distance. */
  lemma OsaDistTrim(s1: string, s2: string)
    requires |s1| <= |s2|
    ensures OsaDist(s1, s2) == OsaDist(Middle(s1, s2).0, Middle(s1, s2).1)
  {
    var t := Prep(s1, s2);
    PrepSound(s1, s2);
    OsaDistTrimAt(s1, s2, t.0, t.1, t.2);
  }

  predicate Zeros(s: seq<int>)
  {
    forall k :: 0 <= k < |s| ==> s[k] == 0
  }

  /** Row i of the table: Osa(a, b, i, k) for k in 0..|b|. */
  ghost function OsaRow(a: string, b: string, i: nat): (r: seq<nat>)
    requires i <= |a|
    ensures |r| == |b| + 1
  {
    seq(|b| + 1, k requires 0 <= k <= |b| => Osa(a, b, i, k))
  }

  /** How row i + 1 (cur) follows from rows i (up) and i - 1 (twoUp):
    * the recurrence cell by cell, and the diagonal copy when the
    * characters agree. */
  ghost predicate NextRow(a: string, b: string, i: nat, twoUp: seq<nat>, up: seq<nat>, cur: seq<nat>)
    requires i < |a|
  {
    |twoUp| == |up| == |cur| == |b| + 1 && up[0] == i && cur[0] == i + 1 &&
    (forall k :: 1 <= k <= |b| ==>
      cur[k] == Cell(up[k], cur[k - 1], up[k - 1], a[i] == b[k - 1],
                     i > 0 && k > 1 && a[i] == b[k - 2] && a[i - 1] == b[k - 1],
                     if i > 0 && k > 1 then twoUp[k - 2] else 0)) &&
    (forall k :: 1 <= k <= |b| && a[i] == b[k - 1] ==> cur[k] == up[k - 1])
  }

  lemma NextRowHolds(a: string, b: string, i: nat)
    requires i < |a|
    ensures NextRow(a, b, i, OsaRow(a, b, if i > 0 then i - 1 else 0), OsaRow(a, b, i), OsaRow(a, b, i + 1))
  {
    var twoUp, up, cur := OsaRow(a, b, if i > 0 then i - 1 else 0), OsaRow(a, b, i), OsaRow(a, b, i + 1);
    forall k | 1 <= k <= |b| && a[i] == b[k - 1]
      ensures cur[k] == up[k - 1]
    {
      OsaMatch(a, b, i + 1, k);
    }
  }

  /** Full dynamic programme with transpositions over the middle parts
    * s1[start..start+len1] and s2[start..start+len2]. char1Costs and
    * prevChar1Costs are the caller's buffers, taken by value. */
  method FullDistance(s1: string, s2: string, len1: nat, len2: nat, start: nat,
                      char1Costs: seq<int>, prevChar1Costs: seq<int>)
    returns (r: int)
    requires 1 <= len1 && 1 <= len2
    requires start + len1 <= |s1| && start + len2 <= |s2|
    requires len2 <= |char1Costs| && len2 <= |prevChar1Costs|
    ensures r == OsaDist(s1[start..start + len1], s2[start..start + len2])
  {
    ghost var a, b := s1[start..start + len1], s2[start..start + len2];
    var row := FirstRow(char1Costs, len2, a, b);
    var prev := prevChar1Costs;
    var char1 := ' ';
    var currentCost := 0;
    var i := 0;
    while i < len1
      invariant 0 <= i <= len1
      invariant |row| == |char1Costs| && |prev| == |prevChar1Costs|
      invariant forall k :: 0 <= k < len2 ==> row[k] == OsaRow(a, b, i)[k + 1]
      invariant i > 0 ==> forall k :: 0 <= k < len2 ==> prev[k] == OsaRow(a, b, i - 1)[k]
      invariant i > 0 ==> char1 == a[i - 1] && currentCost == OsaRow(a, b, i)[len2]
    {
      var prevChar1 := char1;
      char1 := s1[start + i];
      assert char1 == a[i];
      NextRowHolds(a, b, i);
      row, prev, currentCost := FullRow(char1, prevChar1, s2, len2, start, i, a, b,
                                        OsaRow(a, b, if i > 0 then i - 1 else 0), OsaRow(a, b, i), OsaRow(a, b, i + 1),
                                        row, prev);
      i := i + 1;
    }
    r := currentCost;
  }

  /** The initialisation loop of the full programme: slot k of the buffer
    * gets k + 1, the cost of inserting b[..k + 1] into the empty string. */
  method FirstRow(char1Costs: seq<int>, len2: nat, ghost a: string, ghost b: string) returns (row: seq<int>)
    requires len2 == |b| <= |char1Costs|
    ensures |row| == |char1Costs|
    ensures forall k :: 0 <= k < len2 ==> row[k] == OsaRow(a, b, 0)[k + 1]
  {
    row := char1Costs;
    var j := 0;
    while j < len2
      invariant 0 <= j <= len2 && |row| == |char1Costs|
      invariant forall k :: 0 <= k < j ==> row[k] == OsaRow(a, b, 0)[k + 1]
    {
      row := row[j := j + 1];
      j := j + 1;
    }
  }

  /** The body of the inner loop for one cell: the cheapest of the
    * diagonal, the cell above and the cell to the left, plus one, unless
    * the characters agree; then a transposition when the last two
    * characters are swapped and that is cheaper. */
  method CellCost(char1: char, prevChar1: char, char2: char, prevChar2: char, i: nat, j: nat,
                  diag: int, above: int, left: int, thisTransCost: int,
                  ghost a: string, ghost b: string, ghost twoUp: seq<nat>, ghost up: seq<nat>, ghost cur: seq<nat>)
    returns (currentCost: int)
    requires i < |a| && j < |b| && char1 == a[i] && char2 == b[j]
    requires i > 0 ==> prevChar1 == a[i - 1]
    requires j > 0 ==> prevChar2 == b[j - 1]
    requires NextRow(a, b, i, twoUp, up, cur)
    requires diag == up[j] && left == up[j + 1]
    requires above == if j == 0 then i else cur[j]
    requires i > 0 && j > 0 ==> thisTransCost == twoUp[j - 1]
    ensures currentCost == cur[j + 1]
  {
    currentCost := diag;
    if char1 != char2 {
      if above < currentCost {
        currentCost := above;
      }
      if left < currentCost {
        currentCost := left;
      }
      currentCost := currentCost + 1;
      if i != 0 && j != 0 && char1 == prevChar2 && prevChar1 == char2 && thisTransCost + 1 < currentCost {
        currentCost := thisTransCost + 1;
      }
    }
  }

  /** One row of the full programme: turns row i of the table (shifted by
    * one column) into row i + 1, leaves row i itself in prev (where the
    * next row finds its transposition costs), and returns the last cell. */
  method FullRow(char1: char, prevChar1: char, s2: string, len2: nat, start: nat, i: nat,
                 ghost a: string, ghost b: string, ghost twoUp: seq<nat>, ghost up: seq<nat>, ghost cur: seq<nat>,
                 row: seq<int>, prev: seq<int>)
    returns (row': seq<int>, prev': seq<int>, currentCost: int)
    requires i < |a| && a[i] == char1 && (i > 0 ==> a[i - 1] == prevChar1)
    requires 1 <= len2 == |b| && start + len2 <= |s2|
    requires forall k :: 0 <= k < len2 ==> s2[start + k] == b[k]
    requires NextRow(a, b, i, twoUp, up, cur)
    requires len2 <= |row| && len2 <= |prev|
    requires forall k :: 0 <= k < len2 ==> row[k] == up[k + 1]
    requires i > 0 ==> forall k :: 0 <= k < len2 ==> prev[k] == twoUp[k]
    ensures |row'| == |row| && |prev'| == |prev|
    ensures forall k :: 0 <= k < len2 ==> row'[k] == cur[k + 1]
    ensures forall k :: 0 <= k < len2 ==> prev'[k] == up[k]
    ensures currentCost == cur[len2]
  {
    row', prev' := row, prev;
    var char2 := ' ';
    var leftCharCost, aboveCharCost := i, i;
    var nextTransCost := 0;
    currentCost := 0;
    var j := 0;
    while j < len2
      invariant 0 <= j <= len2 && |row'| == |row| && |prev'| == |prev|
      invariant forall k :: 0 <= k < j ==> row'[k] == cur[k + 1]
      invariant forall k :: j <= k < len2 ==> row'[k] == up[k + 1]
      invariant forall k :: 0 <= k < j ==> prev'[k] == up[k]
      invariant i > 0 ==> forall k :: j <= k < len2 ==> prev'[k] == twoUp[k]
      invariant leftCharCost == up[j]
      invariant aboveCharCost == if j == 0 then i else cur[j]
      invariant j > 0 ==> currentCost == cur[j] && char2 == b[j - 1]
      invariant i > 0 && j > 0 ==> nextTransCost == twoUp[j - 1]
    {
      var thisTransCost := nextTransCost;
      nextTransCost := prev'[j];
      prev' := prev'[j := leftCharCost];
      var prevChar2 := char2;
      char2 := s2[start + j];
      currentCost := CellCost(char1, prevChar1, char2, prevChar2, i, j, leftCharCost, aboveCharCost, row'[j],
                              thisTransCost, a, b, twoUp, up, cur);
      leftCharCost := row'[j];
      row' := row'[j := currentCost];
      aboveCharCost := currentCost;
      j := j + 1;
    }
  }

  /** Banded programme for a bound below the trimmed longer length: only
    * the cells within maxDistance of the diagonal are computed, and the
    * run stops with -1 once the cell on the last column's diagonal
    * exceeds the bound. */
  method BandedDistance(s1: string, s2: string, len1: nat, len2: nat, start: nat, maxDistance: int,
                        char1Costs: seq<int>, prevChar1Costs: seq<int>)
    returns (r: int)
    requires len1 <= len2 && 0 <= maxDistance < len2
    requires start + len1 <= |s1| && start + len2 <= |s2|
    requires len2 <= |char1Costs| && len2 <= |prevChar1Costs|
    requires forall k :: 0 <= k < |prevChar1Costs| ==> prevChar1Costs[k] >= 0
    ensures r == -1 || 0 <= r <= maxDistance
  {
    var row, prev := char1Costs, prevChar1Costs;
    var j := 0;
    while j < maxDistance
      invariant 0 <= j <= maxDistance && |row| == |char1Costs|
      invariant forall k :: 0 <= k < j ==> row[k] >= 0
    {
      row := row[j := j + 1];
      j := j + 1;
    }
    while j < len2
      invariant 0 <= j <= len2 && |row| == |char1Costs|
      invariant forall k :: 0 <= k < j ==> row[k] >= 0
    {
      row := row[j := maxDistance + 1];
      j := j + 1;
    }
    var lenDiff := len2 - len1;
    var jStartOffset := maxDistance - lenDiff;
    var jStart := 0;
    var jEnd := maxDistance;
    var char1 := ' ';
    var currentCost := 0;
    var i := 0;
    while i < len1
      invariant 0 <= i <= len1
      invariant 0 <= jStart <= i && jEnd <= len2
      invariant |row| == |char1Costs| && |prev| == |prevChar1Costs|
      invariant currentCost >= 0
      invariant forall k :: 0 <= k < len2 ==> row[k] >= 0 && prev[k] >= 0
    {
      var prevChar1 := char1;
      char1 := s1[start + i];
      var char2 := ' ';
      var leftCharCost, aboveCharCost := i, i;
      var nextTransCost := 0;
      jStart := jStart + if i > jStartOffset then 1 else 0;
      jEnd := jEnd + if jEnd < len2 then 1 else 0;
      j := jStart;
      while j < jEnd
        invariant jStart <= j
        invariant |row| == |char1Costs| && |prev| == |prevChar1Costs|
        invariant currentCost >= 0 && leftCharCost >= 0 && aboveCharCost >= 0 && nextTransCost >= 0
        invariant forall k :: 0 <= k < len2 ==> row[k] >= 0 && prev[k] >= 0
      {
        var thisTransCost := nextTransCost;
        nextTransCost := prev[j];
        currentCost := leftCharCost;
        prev := prev[j := leftCharCost];
        leftCharCost := row[j];
        var prevChar2 := char2;
        char2 := s2[start + j];
        if char1 != char2 {
          if aboveCharCost < currentCost {
            currentCost := aboveCharCost;
          }
          if leftCharCost < currentCost {
            currentCost := leftCharCost;
          }
          currentCost := currentCost + 1;
          if i != 0 && j != 0 && char1 == prevChar2 && prevChar1 == char2 && thisTransCost + 1 < currentCost {
            currentCost := thisTransCost + 1;
          }
        }
        row := row[j := currentCost];
        aboveCharCost := currentCost;
        j := j + 1;
      }
      if row[i + lenDiff] > maxDistance {
        return -1;
      }
      i := i + 1;
    }
    r := if currentCost <= maxDistance then currentCost else -1;
  }

  class DamerauOSA {
    /** Row buffers kept between calls; the programmes work on copies. */
    var baseChar1Costs: seq<int>
    var basePrevChar1Costs: seq<int>

    /** The buffers are equally long and hold only zeros. */
    predicate Valid()
      reads this
    {
      |baseChar1Costs| == |basePrevChar1Costs| && Zeros(baseChar1Costs) && Zeros(basePrevChar1Costs)
    }

    /** Default construction: empty buffers, grown on first use. */
    constructor ()
      ensures Valid() && baseChar1Costs == [] && basePrevChar1Costs == []
    {
      baseChar1Costs, basePrevChar1Costs := [], [];
    }

    /** Construction with an expected maximum string length: refused
      * unless the length is positive; both buffers start as that many
      * zeros. */
    static method Create(expectedMaxStringLength: int) returns (r: Result<DamerauOSA>)
      ensures r.Failure? <==> expectedMaxStringLength <= 0
      ensures r.Success? ==> fresh(r.value) && r.value.Valid()
      ensures r.Success? ==> |r.value.baseChar1Costs| == expectedMaxStringLength
    {
      if expectedMaxStringLength <= 0 {
        return Failure("expectedMaxstringLength must be larger than 0");
      }
      var d := new DamerauOSA();
      d.baseChar1Costs := seq(expectedMaxStringLength, _ => 0);
      d.basePrevChar1Costs := seq(expectedMaxStringLength, _ => 0);
      r := Success(d);
    }

    /** Both buffers are replaced by len2 zeros only when they are too
      * short. */
    method GrowBuffers(len2: nat)
      requires Valid()
      modifies this
      ensures Valid() && len2 <= |baseChar1Costs|
      ensures old(|baseChar1Costs|) >= len2 ==>
        baseChar1Costs == old(baseChar1Costs) && basePrevChar1Costs == old(basePrevChar1Costs)
      ensures old(|baseChar1Costs|) < len2 ==> |baseChar1Costs| == len2
    {
      if len2 > |baseChar1Costs| {
        baseChar1Costs := seq(len2, _ => 0);
        basePrevChar1Costs := seq(len2, _ => 0);
      }
    }

    /** Unbounded distance: the optimal-string-alignment distance. */
    method Distance(string1: string, string2: string) returns (r: int)
      requires Valid()
      modifies this
      ensures Valid()
      ensures r == OsaDist(string1, string2)
    {
      if string1 == [] {
        OsaUpper([], string2, 0, |string2|);
        OsaLower([], string2, 0, |string2|);
        return |string2|;
      }
      if string2 == [] {
        OsaUpper(string1, [], |string1|, 0);
        OsaLower(string1, [], |string1|, 0);
        return |string1|;
      }
      var s1, s2 := string1, string2;
      if |s1| > |s2| {
        s1, s2 := string2, string1;
        OsaDistSymmetric(string1, string2);
      }
      var len1, len2, start := PrefixSuffixPrep(s1, s2);
      OsaDistTrim(s1, s2);
      if len1 == 0 {
        OsaLower(Middle(s1, s2).0, Middle(s1, s2).1, 0, len2);
        OsaUpper(Middle(s1, s2).0, Middle(s1, s2).1, 0, len2);
        return len2;
      }
      GrowBuffers(len2);
      r := FullDistance(s1, s2, len1, len2, start, baseChar1Costs, basePrevChar1Costs);
    }

    /** Bounded distance: the distance when it is within maxDistance, -1
      * when it is not; the same dispatch as the Levenshtein comparer. */
    method BoundedDistance(string1: string, string2: string, maxDistance: int) returns (r: int)
      requires Valid()
      modifies this
      ensures Valid()
      ensures r == -1 || (0 <= r && (r == 0 || r <= maxDistance))
      ensures r >= 0 && string1 != [] && string2 != [] && maxDistance > 0 ==> r <= ClampBound(maxDistance)
      ensures string1 == [] || string2 == [] ==>
        r == (if OsaDist(string1, string2) == 0 then 0 else Bounded(OsaDist(string1, string2), maxDistance))
      ensures string1 != [] && string2 != [] && maxDistance <= 0 ==>
        (r == 0 <==> string1 == string2) && (r != 0 ==> r == -1)
      ensures string1 != [] && string2 != [] && maxDistance > 0 && Unbanded(string1, string2, ClampBound(maxDistance)) ==>
        r == Bounded(OsaDist(string1, string2), ClampBound(maxDistance))
    {
      if string1 == [] || string2 == [] {
        OsaUpper(string1, string2, |string1|, |string2|);
        OsaLower(string1, string2, |string1|, |string2|);
        return NullDistanceResults(string1, string2, maxDistance);
      }
      if maxDistance <= 0 {
        OsaDistZero(string1, string2);
        return if string1 == string2 then 0 else -1;
      }
      var iMaxDistance := ClampBound(maxDistance);
      if |string1| > |string2| {
        OsaDistSymmetric(string1, string2);
        r := BoundedOrdered(string2, string1, iMaxDistance);
      } else {
        r := BoundedOrdered(string1, string2, iMaxDistance);
      }
    }

    /** The bounded comparison once the shorter operand comes first. */
    method BoundedOrdered(s1: string, s2: string, iMaxDistance: int) returns (r: int)
      requires 1 <= |s1| <= |s2| && 1 <= iMaxDistance
      requires Valid()
      modifies this
      ensures Valid()
      ensures r == -1 || 0 <= r <= iMaxDistance
      ensures Unbanded(s1, s2, iMaxDistance) ==> r == Bounded(OsaDist(s1, s2), iMaxDistance)
    {
      if |s2| - |s1| > iMaxDistance {
        OsaLower(s1, s2, |s1|, |s2|);
        return -1;
      }
      var len1, len2, start := PrefixSuffixPrep(s1, s2);
      OsaDistTrim(s1, s2);
      OsaUpper(Middle(s1, s2).0, Middle(s1, s2).1, len1, len2);
      if len1 == 0 {
        OsaLower(Middle(s1, s2).0, Middle(s1, s2).1, 0, len2);
        return if len2 <= iMaxDistance then len2 else -1;
      }
      GrowBuffers(len2);
      if iMaxDistance < len2 {
        r := BandedDistance(s1, s2, len1, len2, start, iMaxDistance, baseChar1Costs, basePrevChar1Costs);
        return;
      }
      r := FullDistance(s1, s2, len1, len2, start, baseChar1Costs, basePrevChar1Costs);
    }
  }
}
