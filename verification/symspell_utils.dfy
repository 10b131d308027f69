/**
 * Small utilities of the engine's header: whitespace trimming, the
 * segmentation record Info, the verbosity levels and the default
 * construction parameters.
 */
module SymSpellUtils {

  /** Defaults of the engine's construction parameters. */
  const DefaultMaxEditDistance := 2
  const DefaultPrefixLength := 7
  const DefaultCountThreshold := 1
  const DefaultInitialCapacity := 82765
  const DefaultCompactLevel := 5

  /** The saturation cap of word counts: the largest signed 64-bit value. */
  const MaxInt := 0x7FFF_FFFF_FFFF_FFFF

  /** Whitespace in the C locale: space, tab, newline, vertical tab, form
    * feed and carriage return. */
  predicate IsSpace(c: char)
  {
    c == ' ' || c == '\t' || c == '\n' || c == '\U{0B}' || c == '\U{0C}' || c == '\r'
  }

  /** The string with every whitespace character removed. */
  function StripSpaces(s: string): (r: string)
    ensures |r| <= |s|
    ensures forall k :: 0 <= k < |r| ==> !IsSpace(r[k])
  {
    if s == [] then []
    else if IsSpace(s[0]) then StripSpaces(s[1..])
    else [s[0]] + StripSpaces(s[1..])
  }

  lemma {:induction false} StripSpacesConcat(a: string, b: string)
    ensures StripSpaces(a + b) == StripSpaces(a) + StripSpaces(b)
    decreases |a|
  {
    if a != [] {
      assert (a + b)[1..] == a[1..] + b;
      StripSpacesConcat(a[1..], b);
    } else {
      assert a + b == b;
    }
  }

  /** Removes the leading whitespace of s. */
  method LTrim(s: string) returns (t: string)
    ensures |t| <= |s| && t == s[|s| - |t|..]
    ensures forall k :: 0 <= k < |s| - |t| ==> IsSpace(s[k])
    ensures t == [] || !IsSpace(t[0])
  {
    var i := 0;
    while i < |s| && IsSpace(s[i])
      invariant 0 <= i <= |s|
      invariant forall k :: 0 <= k < i ==> IsSpace(s[k])
    {
      i := i + 1;
    }
    t := s[i..];
  }

  /** Removes the trailing whitespace of s. */
  method RTrim(s: string) returns (t: string)
    ensures |t| <= |s| && t == s[..|t|]
    ensures forall k :: |t| <= k < |s| ==> IsSpace(s[k])
    ensures t == [] || !IsSpace(t[|t| - 1])
  {
    var i := |s|;
    while i > 0 && IsSpace(s[i - 1])
      invariant 0 <= i <= |s|
      invariant forall k :: i <= k < |s| ==> IsSpace(s[k])
    {
      i := i - 1;
    }
    t := s[..i];
  }

  /** Removes both the leading and the trailing whitespace of s. */
  method Trim(s: string) returns (t: string)
    ensures exists i, j :: 0 <= i <= j <= |s| && t == s[i..j] && TrimmedAt(s, i, j)
    ensures t == [] || (!IsSpace(t[0]) && !IsSpace(t[|t| - 1]))
  {
    var l := LTrim(s);
    t := RTrim(l);
    var i := |s| - |l|;
    assert t == s[i..i + |t|];
    assert TrimmedAt(s, i, i + |t|) by {
      forall k | i + |t| <= k < |s|
        ensures IsSpace(s[k])
      {
        assert s[k] == l[k - i];
      }
    }
  }

  /** Only whitespace lies outside s[i..j]. */
  predicate TrimmedAt(s: string, i: nat, j: nat)
    requires i <= j <= |s|
  {
    (forall k :: 0 <= k < i ==> IsSpace(s[k])) && (forall k :: j <= k < |s| ==> IsSpace(s[k]))
  }

  /** How many suggestions a lookup returns: the best one, all of the
    * smallest distance found, or all within the bound. */
  datatype Verbosity = Top | Closest | All

  /** The segment being weighed: the part without its leading space and
    * without whitespace, whether a space has to be inserted before it, its
    * top correction, and the edit distance and log-probability charged. */
  datatype PartCorrection = PartCorrection(part: string, separatorLength: int, topResult: string,
                                           topEd: int, topProbabilityLog: real)

  /** One part of a composition: input[start..end] and its correction. */
  datatype Piece = Piece(start: nat, end: nat, pc: PartCorrection)

  /** A segmentation result: the segmented input, its corrected form, the
    * sum of edit distances and the sum of log-probabilities of the words. */
  class Info {
    var segmentedstring: string
    var correctedstring: string
    var distanceSum: int
    var probabilityLogSum: real
    /** Proof state only: the parts the four values were built from. */
    ghost var parts: seq<Piece>

    constructor ()
      ensures segmentedstring == [] && correctedstring == [] && distanceSum == 0 && probabilityLogSum == 0.0
      ensures parts == []
    {
      segmentedstring, correctedstring, distanceSum, probabilityLogSum := [], [], 0, 0.0;
      parts := [];
    }

    /** Overwrites all four values (and the record of their parts); the
      * getters then return them. */
    method Set(seg: string, cor: string, d: int, prob: real, ghost ps: seq<Piece>)
      modifies this
      ensures GetSegmented() == seg && GetCorrected() == cor
      ensures GetDistance() == d && GetProbability() == prob && parts == ps
    {
      segmentedstring, correctedstring, distanceSum, probabilityLogSum := seg, cor, d, prob;
      parts := ps;
    }

    function GetSegmented(): string
      reads this
    {
      segmentedstring
    }

    function GetCorrected(): string
      reads this
    {
      correctedstring
    }

    function GetDistance(): int
      reads this
    {
      distanceSum
    }

    function GetProbability(): real
      reads this
    {
      probabilityLogSum
    }
  }
}
