/**
 * The edit-distance strategy switch: an algorithm code selects one of two
 * comparers owned by the switch, and every comparison is forwarded to the
 * selected comparer's bounded distance.
 */
module EditDistance {
  import opened Wrappers
  import opened Helpers
  import opened LevenshteinSpec
  import opened DamerauOsaSpec
  import opened Levenshtein
  import opened DamerauOsa

  datatype DistanceAlgorithm = LevenshteinDistance | DamerauOSADistance

  /** The enumeration's values are 0 and 1, in declaration order; any other
    * code is unknown. */
  function AlgorithmOf(code: int): (r: Option<DistanceAlgorithm>)
    ensures r.None? <==> code != 0 && code != 1
    ensures r == Some(LevenshteinDistance) <==> code == 0
    ensures r == Some(DamerauOSADistance) <==> code == 1
  {
    if code == 0 then Some(LevenshteinDistance)
    else if code == 1 then Some(DamerauOSADistance)
    else None
  }

  /** The distance the selected algorithm measures. */
  ghost function Dist(algorithm: DistanceAlgorithm, s1: string, s2: string): nat
  {
    match algorithm
    case LevenshteinDistance => LevDist(s1, s2)
    case DamerauOSADistance => OsaDist(s1, s2)
  }

  /** What a bounded comparison returns: -1, or a value within the bound
    * (or 0); with an empty operand, 0 for a distance of 0 and the bounded
    * distance otherwise; with a bound of at most 0, 0 exactly for equal
    * operands and -1 otherwise; and the bounded distance whenever no
    * banded run is needed. */
  ghost predicate BoundedResult(algorithm: DistanceAlgorithm, string1: string, string2: string, maxDistance: int, r: int)
  {
    (r == -1 || (0 <= r && (r == 0 || r <= maxDistance))) &&
    (string1 == [] || string2 == [] ==>
      r == (if Dist(algorithm, string1, string2) == 0 then 0
            else Bounded(Dist(algorithm, string1, string2), maxDistance))) &&
    (string1 != [] && string2 != [] && maxDistance <= 0 ==>
      (r == 0 <==> string1 == string2) && (r != 0 ==> r == -1)) &&
    (string1 != [] && string2 != [] && maxDistance > 0 && Unbanded(string1, string2, ClampBound(maxDistance)) ==>
      r == Bounded(Dist(algorithm, string1, string2), ClampBound(maxDistance)))
  }

  class EditDistance {
    /** The comparer the distanceComparer pointer designates. */
    var algorithm: DistanceAlgorithm
    var damerauOSADistance: DamerauOSA
    var levenshteinDistance: Levenshtein

    predicate Valid()
      reads this, damerauOSADistance
    {
      damerauOSADistance.Valid()
    }

    /** The objects a comparison may write: both comparers and the
      * Levenshtein row buffer. */
    function Repr(): set<object>
      reads this, levenshteinDistance
    {
      {damerauOSADistance, levenshteinDistance, levenshteinDistance.baseChar1Costs}
    }

    /** Both comparers are default-constructed; the code selects which one
      * comparisons go to, and an unknown code is refused. */
    static method Create(code: int) returns (r: Result<EditDistance>)
      ensures r.Failure? <==> AlgorithmOf(code).None?
      ensures r.Success? ==> fresh(r.value) && r.value.Valid() && Some(r.value.algorithm) == AlgorithmOf(code)
    {
      var selected := AlgorithmOf(code);
      if selected.None? {
        return Failure("Unknown distance algorithm.");
      }
      var e := new EditDistance(selected.value);
      r := Success(e);
    }

    constructor (algorithm: DistanceAlgorithm)
      ensures Valid() && this.algorithm == algorithm
      ensures fresh(Repr())
    {
      this.algorithm := algorithm;
      damerauOSADistance := new DamerauOSA();
      levenshteinDistance := new Levenshtein();
    }

    /** The selected comparer's bounded distance. */
    method Compare(string1: string, string2: string, maxDistance: int) returns (r: int)
      requires Valid()
      modifies Repr()
      ensures Valid() && fresh(Repr() - old(Repr()))
      ensures BoundedResult(algorithm, string1, string2, maxDistance, r)
    {
      if algorithm == DamerauOSADistance {
        r := damerauOSADistance.BoundedDistance(string1, string2, maxDistance);
      } else {
        r := levenshteinDistance.BoundedDistance(string1, string2, maxDistance);
      }
    }
  }
}
