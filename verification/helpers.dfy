/**
 * Shared helpers of the edit-distance comparers: the answer for an empty
 * operand and the trimming of the common prefix and suffix of two strings.
 */
module Helpers {

  /** The least of three distances. */
  function Min3(x: nat, y: nat, z: nat): (m: nat)
    ensures m <= x && m <= y && m <= z
    ensures m == x || m == y || m == z
  {
    if x <= y && x <= z then x else if y <= z then y else z
  }

  /** Result of a bounded comparison when at least one operand is empty:
    * the distance is then the length of the other operand, reported only
    * when it is within maxDistance (two empty strings are always at 0). */
  function NullDistanceResults(s1: string, s2: string, maxDistance: int): (r: int)
    requires s1 == [] || s2 == []
    ensures |s1| + |s2| == 0 ==> r == 0
    ensures |s1| + |s2| > 0 ==> (r >= 0 <==> |s1| + |s2| <= maxDistance)
    ensures r >= 0 ==> r == |s1| + |s2|
    ensures r == -1 || r >= 0
  {
    if s1 == [] then
      (if s2 == [] then 0 else if |s2| <= maxDistance then |s2| else -1)
    else
      (if |s1| <= maxDistance then |s1| else -1)
  }

  /** The suffix loop: drop trailing characters that agree, as long as
    * the first string is not used up. Returns the shortened lengths. */
  function SuffixTrim(s1: string, s2: string, len1: nat, len2: nat): (r: (nat, nat))
    requires len1 <= |s1| && len2 <= |s2| && len1 <= len2
    ensures r.0 <= len1 && r.1 <= len2 && len1 - r.0 == len2 - r.1
    decreases len1
  {
    if len1 != 0 && s1[len1 - 1] == s2[len2 - 1] then
      SuffixTrim(s1, s2, len1 - 1, len2 - 1)
    else
      (len1, len2)
  }

  /** What the suffix loop drops is equal in both strings, and the last
    * characters it keeps differ (or the first string is used up). */
  lemma {:induction false} SuffixTrimSound(s1: string, s2: string, len1: nat, len2: nat)
    requires len1 <= |s1| && len2 <= |s2| && len1 <= len2
    ensures var r := SuffixTrim(s1, s2, len1, len2);
      s1[r.0..len1] == s2[r.1..len2] && (r.0 == 0 || s1[r.0 - 1] != s2[r.1 - 1])
    decreases len1
  {
    if len1 != 0 && s1[len1 - 1] == s2[len2 - 1] {
      SuffixTrimSound(s1, s2, len1 - 1, len2 - 1);
      var r := SuffixTrim(s1, s2, len1 - 1, len2 - 1);
      assert r == SuffixTrim(s1, s2, len1, len2);
      var kept := s1[r.0..len1 - 1];
      assert kept == s2[r.1..len2 - 1];
      assert s1[r.0..len1] == kept + [s1[len1 - 1]];
      assert s2[r.1..len2] == kept + [s2[len2 - 1]];
    } else {
      assert s1[len1..len1] == s2[len2..len2];
    }
  }

  /** The prefix loop: advance over leading characters that agree, never
    * past len1. */
  function PrefixTrim(s1: string, s2: string, start: nat, len1: nat): (r: nat)
    requires start <= len1 <= |s1| && len1 <= |s2|
    ensures start <= r <= len1
    decreases len1 - start
  {
    if start != len1 && s1[start] == s2[start] then
      PrefixTrim(s1, s2, start + 1, len1)
    else
      start
  }

  /** Everything the prefix loop skips agrees, and it stops either at len1
    * or at a position where the strings differ. */
  lemma {:induction false} PrefixTrimSound(s1: string, s2: string, start: nat, len1: nat)
    requires start <= len1 <= |s1| && len1 <= |s2|
    requires s1[..start] == s2[..start]
    ensures var r := PrefixTrim(s1, s2, start, len1);
      s1[..r] == s2[..r] && (r == len1 || s1[r] != s2[r])
    decreases len1 - start
  {
    if start != len1 && s1[start] == s2[start] {
      assert s1[..start + 1] == s1[..start] + [s1[start]];
      assert s2[..start + 1] == s2[..start] + [s2[start]];
      PrefixTrimSound(s1, s2, start + 1, len1);
    }
  }

  /** (len1, len2, start) as left by PrefixSuffixPrep. */
  function Prep(s1: string, s2: string): (r: (nat, nat, nat))
    requires |s1| <= |s2|
    ensures r.2 + r.0 <= |s1| && r.2 + r.1 <= |s2| && r.0 <= r.1
    ensures |s2| - r.1 == |s1| - r.0
  {
    var (l1, l2) := SuffixTrim(s1, s2, |s1|, |s2|);
    var st := PrefixTrim(s1, s2, 0, l1);
    (l1 - st, l2 - st, st)
  }

  /** The trimmed prefix and suffix are common to both strings, and they
    * are maximal: the middle parts left differ at both ends. */
  lemma PrepSound(s1: string, s2: string)
    requires |s1| <= |s2|
    ensures var (len1, len2, start) := Prep(s1, s2);
      s1[..start] == s2[..start] &&
      s1[start + len1..] == s2[start + len2..] &&
      (len1 > 0 ==> s1[start] != s2[start] && s1[start + len1 - 1] != s2[start + len2 - 1])
  {
    var (l1, l2) := SuffixTrim(s1, s2, |s1|, |s2|);
    SuffixTrimSound(s1, s2, |s1|, |s2|);
    assert s1[l1..] == s1[l1..|s1|] && s2[l2..] == s2[l2..|s2|];
    PrefixTrimSound(s1, s2, 0, l1);
  }

  /** Trims the common suffix, then the common prefix, of string1 and
    * string2 (the shorter one first); returns the lengths of what is left
    * of each and where it starts. */
  method PrefixSuffixPrep(s1: string, s2: string) returns (len1: nat, len2: nat, start: nat)
    requires |s1| <= |s2|
    ensures (len1, len2, start) == Prep(s1, s2)
  {
    len2 := |s2|;
    len1 := |s1|;
    while len1 != 0 && s1[len1 - 1] == s2[len2 - 1]
      invariant len1 <= len2 <= |s2| && len1 <= |s1|
      invariant SuffixTrim(s1, s2, len1, len2) == SuffixTrim(s1, s2, |s1|, |s2|)
    {
      len1 := len1 - 1;
      len2 := len2 - 1;
    }
    start := 0;
    while start != len1 && s1[start] == s2[start]
      invariant start <= len1
      invariant PrefixTrim(s1, s2, start, len1) == PrefixTrim(s1, s2, 0, len1)
    {
      start := start + 1;
    }
    if start != 0 {
      len2 := len2 - start;
      len1 := len1 - start;
    }
  }

  /** INT_MAX: the bound is clamped to it before the comparison. */
  const IntMax: int := 2147483647

  function ClampBound(maxDistance: int): (m: int)
    ensures m <= maxDistance && m <= IntMax
    ensures m == maxDistance || m == IntMax
  {
    if maxDistance <= IntMax then maxDistance else IntMax
  }

  /** The value a bounded comparison reports for a distance d: d itself
    * when it is within the bound, -1 otherwise. */
  function Bounded(d: nat, bound: int): int
  {
    if d <= bound then d else -1
  }

  /** The middle parts left by PrefixSuffixPrep, for the shorter string
    * first. */
  function Middle(s1: string, s2: string): (m: (string, string))
    requires |s1| <= |s2|
    ensures |m.0| == Prep(s1, s2).0 && |m.1| == Prep(s1, s2).1
  {
    var (len1, len2, start) := Prep(s1, s2);
    (s1[start..start + len1], s2[start..start + len2])
  }

  lemma SplitThree(s: string, i: nat, j: nat)
    requires i <= j <= |s|
    ensures s == s[..i] + (s[i..j] + s[j..])
  {
  }

  /** The lengths (shorter, longer) of the middle parts, for operands in
    * either order. */
  function TrimmedLengths(s1: string, s2: string): (nat, nat)
  {
    if |s1| > |s2| then (Prep(s2, s1).0, Prep(s2, s1).1) else (Prep(s1, s2).0, Prep(s1, s2).1)
  }

  /** The cases in which a bounded comparison runs no banded programme: a
    * length difference above the bound, a middle part that is empty, or a
    * bound that covers the longer middle part. */
  predicate Unbanded(s1: string, s2: string, bound: int)
  {
    var diff := if |s1| <= |s2| then |s2| - |s1| else |s1| - |s2|;
    diff > bound || TrimmedLengths(s1, s2).0 == 0 || TrimmedLengths(s1, s2).1 <= bound
  }
}
