/**
 * The spelling-correction engine: a dictionary of words with counts, an
 * index from the hash of every delete variant of every word's prefix to
 * the words it came from, lookups that probe the index with the delete
 * variants of the input, and word segmentation built on lookups.
 */
module SymSpellEngine {
  import opened Wrappers
  import opened SymSpellUtils
  import opened DeleteHash
  import opened Deletes
  import opened IndexSpec
  import opened Suggestions
  import opened EditDistance
  import opened LookupSpec
  import opened SegmentationSpec

  /** The first construction parameter the engine refuses, by name, or
    * None when all are acceptable. */
  function ParameterError(initialCapacity: int, maxDictionaryEditDistance: int, prefixLength: int,
                          countThreshold: int, compactLevel: int): (r: Option<string>)
    ensures r.None? <==>
      initialCapacity >= 0 && maxDictionaryEditDistance >= 0 && prefixLength >= 1 &&
      prefixLength > maxDictionaryEditDistance && countThreshold >= 0 && compactLevel <= 16
    ensures r == Some("initialCapacity") <==> initialCapacity < 0
    ensures r == Some("prefixLength") <==>
      initialCapacity >= 0 && maxDictionaryEditDistance >= 0 &&
      (prefixLength < 1 || prefixLength <= maxDictionaryEditDistance)
  {
    if initialCapacity < 0 then Some("initialCapacity")
    else if maxDictionaryEditDistance < 0 then Some("maxDictionaryEditDistance")
    else if prefixLength < 1 || prefixLength <= maxDictionaryEditDistance then Some("prefixLength")
    else if countThreshold < 0 then Some("countThreshold")
    else if compactLevel > 16 then Some("compactLevel")
    else None
  }

  /** The defaults in the order the header declares them, bound by
    * position to the parameters in the order library.cpp defines them:
    * initial capacity 2, edit distance 7, prefix length 1, so the prefix
    * length is refused; the same happens to the Python test's
    * SymSpell(1, 3). */
  lemma DefaultsRefusedAsWritten()
    ensures ParameterError(DefaultMaxEditDistance, DefaultPrefixLength, DefaultCountThreshold,
                           DefaultInitialCapacity, DefaultCompactLevel) == Some("prefixLength")
    ensures ParameterError(1, 3, DefaultCountThreshold, DefaultInitialCapacity, DefaultCompactLevel) == Some("prefixLength")
  {
  }

  /** A non-positive count is raised to zero. */
  function EffectiveCount(count: int): (r: int)
    ensures r >= 0 && (count > 0 ==> r == count)
  {
    if count <= 0 then 0 else count
  }

  function Min(a: int, b: int): int
  {
    if a < b then a else b
  }

  function Abs(a: int): int
  {
    if a < 0 then -a else a
  }

  /** The single deletions of s. */
  ghost function Deletions(s: string): set<string>
  {
    set i | 0 <= i < |s| :: Delete(s, i)
  }

  /** The length and collision tests a word filed under candidate's hash
    * must pass before it is measured (library.cpp:402-408): it is not the
    * input, its length is within the current bound of the input's, it is
    * at least as long as the candidate and equal to it when as long, and
    * its prefix is not too far from the candidate's. */
  predicate PassesFilters(input: string, candidate: string, suggestion: string, maxEditDistance2: int,
                          inputPrefixLen: int, prefixLength: int)
  {
    suggestion != input && Abs(|suggestion| - |input|) <= maxEditDistance2 && |suggestion| >= |candidate| &&
    (|suggestion| == |candidate| ==> suggestion == candidate) &&
    !(Min(|suggestion|, prefixLength) > inputPrefixLen && Min(|suggestion|, prefixLength) - |candidate| > maxEditDistance2)
  }

  /** The suffix heuristic of library.cpp:438-443, with the source's
    * operator precedence: minLen is only computed when the candidate used
    * up every allowed edit, and stays 0 otherwise. */
  function SuffixRulesOut(input: string, suggestion: string, candidateLen: int, prefixLength: int,
                          maxEditDistance: int): bool
    requires prefixLength >= 1
  {
    var minLen := if prefixLength - maxEditDistance == candidateLen
                  then Min(|input|, |suggestion|) - prefixLength else 0;
    (prefixLength - maxEditDistance == candidateLen && minLen > 1 &&
     input[|input| + 1 - minLen..] != suggestion[|suggestion| + 1 - minLen..]) ||
    (minLen > 0 && input[|input| - minLen] != suggestion[|suggestion| - minLen] &&
     (input[|input| - minLen - 1] != suggestion[|suggestion| - minLen] ||
      input[|input| - minLen] != suggestion[|suggestion| - minLen - 1]))
  }

  /** Whether a word that passed the filters goes to the comparer: it is
    * neither an empty-candidate nor a one-character shortcut, was not
    * considered before, survives the suffix heuristic and, below
    * verbosity All, the order check. */
  predicate Compared(input: string, verbosity: Verbosity, maxEditDistance: int, candidate: string, suggestion: string,
                     considered: set<string>, prefixLength: int)
    requires prefixLength >= 1
  {
    |candidate| > 0 && |suggestion| != 1 && suggestion !in considered &&
    !SuffixRulesOut(input, suggestion, |candidate|, prefixLength, maxEditDistance) &&
    (verbosity == All || InPrefixOrder(candidate, suggestion[..Min(|suggestion|, prefixLength)]))
  }

  /** What measuring a word that passed the filters gives (library.cpp:
    * 420-456). The two shortcuts compute the distance directly and always
    * mark the word considered; it is kept when new and within the bound.
    * Otherwise the word is marked considered exactly when it goes to the
    * comparer, the distance is the comparer's result, and the word is
    * kept exactly when that result is not -1. */
  ghost predicate Weighed(input: string, verbosity: Verbosity, maxEditDistance: int, candidate: string,
                          suggestion: string, maxEditDistance2: int, considered: set<string>, considered': set<string>,
                          algorithm: DistanceAlgorithm, prefixLength: int, distance: int, keep: bool)
    requires prefixLength >= 1
  {
    if |candidate| == 0 || |suggestion| == 1 then
      distance == (if |candidate| == 0 then Max(|input|, |suggestion|)
                   else if suggestion[0] in input then |input| - 1 else |input|) &&
      considered' == considered + {suggestion} &&
      (keep <==> suggestion !in considered && distance <= maxEditDistance2)
    else
      var compared := Compared(input, verbosity, maxEditDistance, candidate, suggestion, considered, prefixLength);
      considered' == (if compared then considered + {suggestion} else considered) &&
      (compared ==> BoundedResult(algorithm, input, suggestion, maxEditDistance2, distance)) &&
      (keep <==> compared && distance >= 0)
  }

  /** A word of a bucket the search set aside without considering it:
    * filtered out at the bound, or ruled out by the suffix heuristic or
    * the order check. */
  predicate Dismissed(input: string, verbosity: Verbosity, maxEditDistance: int, candidate: string, suggestion: string,
                      maxEditDistance2: int, inputPrefixLen: int, prefixLength: int)
    requires prefixLength >= 1
  {
    !PassesFilters(input, candidate, suggestion, maxEditDistance2, inputPrefixLen, prefixLength) ||
    (|candidate| > 0 && |suggestion| != 1 &&
     (SuffixRulesOut(input, suggestion, |candidate|, prefixLength, maxEditDistance) ||
      (verbosity != All && !InPrefixOrder(candidate, suggestion[..Min(|suggestion|, prefixLength)]))))
  }

  /** A word set aside at some bound is set aside at any lower bound: the
    * filters only get stricter as the bound shrinks. */
  lemma DismissedAtLowerBound(input: string, verbosity: Verbosity, maxEditDistance: int, candidate: string,
                              suggestion: string, bound: int, lower: int, inputPrefixLen: int, prefixLength: int)
    requires prefixLength >= 1 && lower <= bound
    requires Dismissed(input, verbosity, maxEditDistance, candidate, suggestion, bound, inputPrefixLen, prefixLength)
    ensures Dismissed(input, verbosity, maxEditDistance, candidate, suggestion, lower, inputPrefixLen, prefixLength)
  {
  }

  class SymSpell {
    const initialCapacity: int
    const maxDictionaryEditDistance: nat
    const prefixLength: nat
    const countThreshold: int
    const compactMask: nat
    const distanceAlgorithm: DistanceAlgorithm
    var maxDictionaryWordLength: int
    /** Delete hash -> the words filed under it. */
    var deletes: map<int, seq<string>>
    /** Dictionary words and their counts. */
    var words: map<string, int>
    /** Words seen fewer times than the threshold, with their counts. */
    var belowThresholdWords: map<string, int>

    ghost predicate Valid()
      reads this
    {
      0 <= initialCapacity && 0 <= maxDictionaryEditDistance < prefixLength &&
      0 <= countThreshold < 0x8000_0000 && ValidMask(compactMask) &&
      distanceAlgorithm == DamerauOSADistance && 0 <= maxDictionaryWordLength &&
      (forall w :: w in words ==> 0 <= words[w] <= MaxInt) &&
      (forall w :: w in belowThresholdWords ==> 1 <= belowThresholdWords[w] < countThreshold)
    }

    /** The largest edit distance lookups may ask for: below the prefix
      * length. */
    function MaxDictionaryEditDistance(): (r: int)
      reads this
      ensures Valid() ==> 0 <= r < prefixLength
    {
      maxDictionaryEditDistance
    }

    /** The length of the prefixes that are indexed: at least one, and
      * above the largest edit distance. */
    function PrefixLength(): (r: int)
      reads this
      ensures Valid() ==> 1 <= r && maxDictionaryEditDistance < r
    {
      prefixLength
    }

    /** The length of the longest word added, zero before any. */
    function MaxLength(): (r: int)
      reads this
      ensures Valid() ==> r >= 0
    {
      maxDictionaryWordLength
    }

    /** The count a word needs to be in the dictionary: a non-negative
      * 32-bit value. */
    function CountThreshold(): (r: int)
      reads this
      ensures Valid() ==> 0 <= r < 0x8000_0000
    {
      countThreshold
    }

    /** The number of dictionary words: zero exactly when there are none. */
    function WordCount(): (r: nat)
      reads this
      ensures r == 0 <==> words == map[]
    {
      |words|
    }

    /** The number of delete hashes in the index: zero exactly when it is
      * empty. */
    function EntryCount(): (r: nat)
      reads this
      ensures r == 0 <==> deletes == map[]
    {
      |deletes|
    }

    /** An empty engine with accepted parameters. */
    constructor (initialCapacity: int, maxDictionaryEditDistance: int, prefixLength: int,
                 countThreshold: int, compactLevel: int)
      requires 0 <= compactLevel < 256 && countThreshold < 0x8000_0000
      requires ParameterError(initialCapacity, maxDictionaryEditDistance, prefixLength, countThreshold, compactLevel).None?
      ensures Valid()
      ensures this.initialCapacity == initialCapacity && this.maxDictionaryEditDistance == maxDictionaryEditDistance
      ensures this.prefixLength == prefixLength && this.countThreshold == countThreshold
      ensures compactMask == CompactMask(compactLevel)
      ensures maxDictionaryWordLength == 0 && words == map[] && belowThresholdWords == map[] && deletes == map[]
    {
      this.initialCapacity := initialCapacity;
      this.maxDictionaryEditDistance := maxDictionaryEditDistance;
      this.prefixLength := prefixLength;
      this.countThreshold := countThreshold;
      var level := compactLevel;
      if level > 16 {
        level := 16;
      }
      CompactMaskValid(level);
      this.compactMask := CompactMask(level);
      this.distanceAlgorithm := DamerauOSADistance;
      maxDictionaryWordLength := 0;
      words := map[];
      belowThresholdWords := map[];
      deletes := map[];
    }

    /** Construction as library.cpp orders the parameters: each refused
      * parameter is reported by name, in the order the checks run. */
    static method Create(initialCapacity: int, maxDictionaryEditDistance: int, prefixLength: int,
                         countThreshold: int, compactLevel: int) returns (r: Result<SymSpell>)
      requires 0 <= compactLevel < 256 && countThreshold < 0x8000_0000
      ensures r.Failure? <==>
        ParameterError(initialCapacity, maxDictionaryEditDistance, prefixLength, countThreshold, compactLevel).Some?
      ensures r.Failure? ==>
        Some(r.error) == ParameterError(initialCapacity, maxDictionaryEditDistance, prefixLength, countThreshold, compactLevel)
      ensures r.Success? ==> fresh(r.value) && r.value.Valid()
      ensures r.Success? ==>
        r.value.MaxDictionaryEditDistance() == maxDictionaryEditDistance && r.value.PrefixLength() == prefixLength &&
        r.value.CountThreshold() == countThreshold && r.value.MaxLength() == 0 &&
        r.value.WordCount() == 0 && r.value.EntryCount() == 0 && r.value.compactMask == CompactMask(compactLevel)
    {
      var error := ParameterError(initialCapacity, maxDictionaryEditDistance, prefixLength, countThreshold, compactLevel);
      if error.Some? {
        return Failure(error.value);
      }
      var engine := new SymSpell(initialCapacity, maxDictionaryEditDistance, prefixLength, countThreshold, compactLevel);
      r := Success(engine);
    }

    /** Construction as the header evidently intends it: the arguments,
      * given in the order the header declares them, each reach the
      * parameter of the same name. As written they are bound by position
      * to the definition's own order instead (DefaultsRefusedAsWritten). */
    static method CreateInDeclaredOrder(maxDictionaryEditDistance: int, prefixLength: int, countThreshold: int,
                                        initialCapacity: int, compactLevel: int) returns (r: Result<SymSpell>)
      requires 0 <= compactLevel < 256 && countThreshold < 0x8000_0000
      ensures r.Failure? <==>
        ParameterError(initialCapacity, maxDictionaryEditDistance, prefixLength, countThreshold, compactLevel).Some?
      ensures r.Success? ==> fresh(r.value) && r.value.Valid()
      ensures r.Success? ==>
        r.value.MaxDictionaryEditDistance() == maxDictionaryEditDistance && r.value.PrefixLength() == prefixLength &&
        r.value.CountThreshold() == countThreshold && r.value.WordCount() == 0 && r.value.EntryCount() == 0
    {
      r := Create(initialCapacity, maxDictionaryEditDistance, prefixLength, countThreshold, compactLevel);
    }

    /** Construction with every default: accepted, with edit distance 2,
      * prefix length 7 and count threshold 1. */
    static method CreateDefault() returns (r: Result<SymSpell>)
      ensures r.Success? && fresh(r.value) && r.value.Valid()
      ensures r.value.MaxDictionaryEditDistance() == DefaultMaxEditDistance
      ensures r.value.PrefixLength() == DefaultPrefixLength && r.value.CountThreshold() == DefaultCountThreshold
      ensures r.value.WordCount() == 0 && r.value.EntryCount() == 0
    {
      r := CreateInDeclaredOrder(DefaultMaxEditDistance, DefaultPrefixLength, DefaultCountThreshold,
                                 DefaultInitialCapacity, DefaultCompactLevel);
    }

    /** Files the empty string under the hash of every edit: the source
      * appends a slot to the stored list and writes key only into its
      * local copy of that list, so the index receives "" each time. */
    static method FileDirect(deletes: map<int, seq<string>>, compactMask: nat, edits: set<string>, key: string)
      returns (r: map<int, seq<string>>)
      ensures r == AppendPerEdit(deletes, edits, [], HashUnder(compactMask))
    {
      r := deletes;
      var remaining := edits;
      ghost var done: set<string> := {};
      AppendNothing(r, [], HashUnder(compactMask));
      while remaining != {}
        invariant remaining !! done && remaining + done == edits
        invariant r == AppendPerEdit(deletes, done, [], HashUnder(compactMask))
        decreases remaining
      {
        var e :| e in remaining;
        var deleteHash := GetstringHash(e, compactMask);
        FileOne(deletes, done, e, [], compactMask, deleteHash, r);
        r := AppendBlank(r, deleteHash, key);
        remaining := remaining - {e};
        done := done + {e};
      }
    }

    /** One filing step of the direct path: a new slot is appended to the
      * list under hash, and key is written into the local copy of that
      * list only, so the stored list gains "". */
    static method AppendBlank(d: map<int, seq<string>>, hash: int, key: string) returns (r: map<int, seq<string>>)
      ensures r == d[hash := Bucket(d, hash) + [[]]]
    {
      var suggestions: seq<string>;
      r := d;
      if hash in r {
        suggestions := r[hash];
        var newSuggestions := suggestions + [[]];
        suggestions := newSuggestions;
        r := r[hash := suggestions];
      } else {
        suggestions := [[]];
        r := r[hash := suggestions];
        assert Bucket(d, hash) + [[]] == suggestions;
      }
      suggestions := suggestions[|suggestions| - 1 := key];
    }

    /** Stages key under the hash of every edit. */
    method FileStaged(staging: SuggestionStage, edits: set<string>, key: string)
      modifies staging
      ensures staging.deletes == AppendPerEdit(old(staging.deletes), edits, key, HashUnder(compactMask))
    {
      var remaining := edits;
      ghost var done: set<string> := {};
      AppendNothing(staging.deletes, key, HashUnder(compactMask));
      while remaining != {}
        invariant remaining !! done && remaining + done == edits
        invariant staging.deletes == AppendPerEdit(old(staging.deletes), done, key, HashUnder(compactMask))
        decreases remaining
      {
        var e :| e in remaining;
        var deleteHash := GetstringHash(e, compactMask);
        FileOne(old(staging.deletes), done, e, key, compactMask, deleteHash, staging.deletes);
        staging.Add(deleteHash, key);
        remaining := remaining - {e};
        done := done + {e};
      }
    }

    /** What filing key's delete variants does: through the stage when
      * there is one, into the index otherwise. */
    twostate predicate Filed(staging: SuggestionStage?, key: string)
      reads this, staging
    {
      var edits := PrefixVariants(key, maxDictionaryEditDistance, prefixLength);
      if staging != null then
        staging.deletes == AppendPerEdit(old(staging.deletes), edits, key, HashUnder(compactMask)) &&
        deletes == old(deletes)
      else
        deletes == AppendPerEdit(old(deletes), edits, [], HashUnder(compactMask))
    }

    /**
     * Adds count occurrences of key. A word below the count threshold is
     * parked in belowThresholdWords until its accumulated count reaches
     * the threshold; a word that reaches it enters words, and its delete
     * variants are filed. The result is true exactly when that happens.
     * Insertion never overwrites: a count for a key already present is
     * computed but not stored.
     */
    method CreateDictionaryEntry(key: string, count: int, staging: SuggestionStage?) returns (added: bool)
      requires Valid() && -MaxInt - 1 <= count <= MaxInt
      modifies this, staging
      ensures Valid()
      ensures !added ==>
        words == old(words) && deletes == old(deletes) &&
        maxDictionaryWordLength == old(maxDictionaryWordLength) && (staging != null ==> unchanged(staging))
      ensures !added ==> belowThresholdWords == Parked(old(belowThresholdWords), old(words), key, count)
      ensures added <==> Admitted(old(belowThresholdWords), old(words), key, count)
      // An added word enters the dictionary with its accumulated count,
      // raises the maximum length, and has its variants filed.
      ensures added ==>
        words == InsertIfAbsent(old(words), key, AccumulatedCount(old(belowThresholdWords), key, count)) &&
        belowThresholdWords == old(belowThresholdWords) - {key} &&
        MaxLength() == (if |key| > old(MaxLength()) then |key| else old(MaxLength())) &&
        Filed(staging, key)
    {
      var total;
      added, total := Tally(key, count);
      if added {
        AddWord(key, total, staging);
      }
    }

    /** The count a word reaches with count more occurrences: a parked
      * word's count plus count, saturating at MAXINT; a new word's count. */
    function AccumulatedCount(belowThresholdWords: map<string, int>, key: string, count: int): int
    {
      if countThreshold > 1 && key in belowThresholdWords
      then Saturate(belowThresholdWords[key], EffectiveCount(count))
      else EffectiveCount(count)
    }

    /** Whether count more occurrences of key bring it into the dictionary:
      * a parked word when its accumulated count reaches the threshold, any
      * other word when it is new and its count reaches the threshold. */
    predicate Admitted(belowThresholdWords: map<string, int>, words: map<string, int>, key: string, count: int)
    {
      (count > 0 || countThreshold == 0) &&
      if countThreshold > 1 && key in belowThresholdWords
      then AccumulatedCount(belowThresholdWords, key, count) >= countThreshold
      else key !in words && EffectiveCount(count) >= countThreshold
    }

    /** The parked words after count more occurrences of key that do not
      * bring it into the dictionary: a new word below the threshold is
      * parked, and a parked word keeps its first count. */
    function Parked(belowThresholdWords: map<string, int>, words: map<string, int>, key: string, count: int): map<string, int>
    {
      if (count > 0 || countThreshold == 0) && key !in words && !(countThreshold > 1 && key in belowThresholdWords)
      then InsertIfAbsent(belowThresholdWords, key, EffectiveCount(count))
      else belowThresholdWords
    }

    /** The counting half of CreateDictionaryEntry: decides whether key
      * enters the dictionary and with which count, and parks it if not. */
    method Tally(key: string, count: int) returns (admit: bool, total: int)
      requires Valid() && -MaxInt - 1 <= count <= MaxInt
      modifies this
      ensures Valid()
      ensures words == old(words) && deletes == old(deletes) && maxDictionaryWordLength == old(maxDictionaryWordLength)
      ensures admit <==> Admitted(old(belowThresholdWords), old(words), key, count)
      ensures admit ==>
        total == AccumulatedCount(old(belowThresholdWords), key, count) && 0 <= total <= MaxInt &&
        belowThresholdWords == old(belowThresholdWords) - {key}
      ensures !admit ==> belowThresholdWords == Parked(old(belowThresholdWords), old(words), key, count)
    {
      total := count;
      if total <= 0 {
        if countThreshold > 0 {
          return false, total;
        }
        total := 0;
      }
      var countPrevious := -1;
      if countThreshold > 1 && key in belowThresholdWords {
        countPrevious := Int32Of(belowThresholdWords[key]);
        Int32OfFits(belowThresholdWords[key]);
        total := Saturate(countPrevious, total);
        if total >= countThreshold {
          belowThresholdWords := belowThresholdWords - {key};
        } else {
          belowThresholdWords := InsertIfAbsent(belowThresholdWords, key, total);
          return false, total;
        }
      } else if key in words {
        countPrevious := Int32Of(words[key]);
        total := Saturate(countPrevious, total);
        words := InsertIfAbsent(words, key, total);
        return false, total;
      } else if total < CountThreshold() {
        belowThresholdWords := InsertIfAbsent(belowThresholdWords, key, total);
        return false, total;
      }
      admit := true;
    }

    /** The filing half of CreateDictionaryEntry: enters key with count
      * total, raises the maximum length, and files its delete variants. */
    method AddWord(key: string, total: int, staging: SuggestionStage?)
      requires Valid() && 0 <= total <= MaxInt
      modifies this, staging
      ensures Valid()
      ensures words == InsertIfAbsent(old(words), key, total) && belowThresholdWords == old(belowThresholdWords)
      ensures MaxLength() == (if |key| > old(MaxLength()) then |key| else old(MaxLength()))
      ensures Filed(staging, key)
    {
      Enter(key, total);
      FileVariants(key, staging);
    }

    /** Enters key with count total and raises the maximum length. */
    method Enter(key: string, total: int)
      requires Valid() && 0 <= total <= MaxInt
      modifies this
      ensures Valid()
      ensures words == InsertIfAbsent(old(words), key, total)
      ensures belowThresholdWords == old(belowThresholdWords) && deletes == old(deletes)
      ensures maxDictionaryWordLength == (if |key| > old(maxDictionaryWordLength) then |key| else old(maxDictionaryWordLength))
    {
      words := InsertIfAbsent(words, key, total);
      if |key| > maxDictionaryWordLength {
        maxDictionaryWordLength := |key|;
      }
    }

    /** Files the delete variants of key, and changes nothing else. */
    method FileVariants(key: string, staging: SuggestionStage?)
      requires Valid()
      modifies this, staging
      ensures Valid()
      ensures words == old(words) && belowThresholdWords == old(belowThresholdWords)
      ensures maxDictionaryWordLength == old(maxDictionaryWordLength)
      ensures Filed(staging, key)
    {
      var edits := EditsPrefix(key, maxDictionaryEditDistance, prefixLength);
      if staging != null {
        FileStaged(staging, edits, key);
      } else {
        deletes := FileDirect(deletes, compactMask, edits, key);
      }
    }

    /** Appends everything staged to the index. */
    method CommitStaged(staging: SuggestionStage)
      modifies this
      ensures deletes == staging.CommitTo(old(deletes))
      ensures words == old(words) && belowThresholdWords == old(belowThresholdWords)
      ensures maxDictionaryWordLength == old(maxDictionaryWordLength)
    {
      deletes := staging.CommitTo(deletes);
    }

    /** Forgets the words parked below the threshold. */
    method PurgeBelowThresholdWords()
      modifies this
      ensures belowThresholdWords == map[]
      ensures words == old(words) && deletes == old(deletes)
      ensures maxDictionaryWordLength == old(maxDictionaryWordLength)
    {
      belowThresholdWords := map[];
    }

    /**
     * Checks that the characters of deleteSugg[..deleteLen] occur in the
     * prefix of suggestion in order, to tell a genuine delete variant from
     * a hash collision. The scan position is not advanced past a match, so
     * a repeated character may reuse its predecessor's position.
     */
    method DeleteInSuggestionPrefix(deleteSugg: string, deleteLen: int, suggestion: string, suggestionLen: int)
      returns (r: bool)
      requires 0 <= deleteLen <= |deleteSugg| && 0 <= suggestionLen <= |suggestion|
      ensures r == InPrefixOrder(deleteSugg[..deleteLen], suggestion[..Min(suggestionLen, prefixLength)])
    {
      if deleteLen == 0 {
        return true;
      }
      var suggestionLen := suggestionLen;
      if prefixLength < suggestionLen {
        suggestionLen := prefixLength;
      }
      ghost var d := deleteSugg[..deleteLen];
      ghost var p := suggestion[..suggestionLen];
      var j := 0;
      for i := 0 to deleteLen
        invariant 0 <= j <= suggestionLen
        invariant InPrefixOrder(d, p) == InPrefixOrder(d[i..], p[j..])
      {
        var delChar := deleteSugg[i];
        while j < suggestionLen && delChar != suggestion[j]
          invariant 0 <= j <= suggestionLen
          invariant InPrefixOrder(d, p) == InPrefixOrder(d[i..], p[j..])
        {
          assert p[j..][1..] == p[j + 1..];
          j := j + 1;
        }
        if j == suggestionLen {
          return false;
        }
        assert d[i..][1..] == d[i + 1..];
      }
      return true;
    }

    /**
     * Weighs one word filed under a candidate's hash (the body of the
     * innermost loop of Lookup): words ruled out by length or by a hash
     * collision are skipped; otherwise the distance is measured, and a
     * word within the current bound is added as the verbosity directs.
     */
    method ConsiderSuggestion(input: string, verbosity: Verbosity, maxEditDistance: int, inputPrefixLen: int,
                              candidate: string, suggestion: string, f: Found, ghost measured: set<SuggestItem>,
                              comparer: EditDistance, ghost words0: map<string, int>, ghost index: map<int, seq<string>>)
      returns (g: Found, ghost measured': set<SuggestItem>, ghost distance: int, ghost keep: bool)
      requires 1 <= prefixLength && |candidate| <= |input| && Indexed(index, suggestion)
      requires FoundInv(f, input, verbosity, maxEditDistance, words0, index)
      requires MeasuredInv(f, measured, input, verbosity, maxEditDistance, index)
      requires comparer.Valid()
      modifies comparer.Repr()
      ensures comparer.Valid() && fresh(comparer.Repr() - old(comparer.Repr()))
      ensures FoundInv(g, input, verbosity, maxEditDistance, words0, index)
      ensures MeasuredInv(g, measured', input, verbosity, maxEditDistance, index)
      ensures f.considered <= g.considered && g.maxEditDistance2 <= f.maxEditDistance2
      ensures verbosity == All ==> forall x :: x in f.suggestions ==> x in g.suggestions
      // A filtered word changes nothing; any other is measured, and offered
      // to the list exactly when it is kept within the bound.
      ensures !PassesFilters(input, candidate, suggestion, f.maxEditDistance2, inputPrefixLen, prefixLength) ==>
        g == f && measured' == measured
      ensures PassesFilters(input, candidate, suggestion, f.maxEditDistance2, inputPrefixLen, prefixLength) ==>
        Weighed(input, verbosity, maxEditDistance, candidate, suggestion, f.maxEditDistance2, f.considered,
                g.considered, comparer.algorithm, prefixLength, distance, keep)
      ensures PassesFilters(input, candidate, suggestion, f.maxEditDistance2, inputPrefixLen, prefixLength) &&
              keep && distance <= f.maxEditDistance2 ==>
        suggestion in g.words && measured' == measured + {SuggestItem(suggestion, distance, g.words[suggestion])}
      ensures !(PassesFilters(input, candidate, suggestion, f.maxEditDistance2, inputPrefixLen, prefixLength) &&
                keep && distance <= f.maxEditDistance2) ==>
        g.suggestions == f.suggestions && measured' == measured
      ensures suggestion in g.considered ||
        Dismissed(input, verbosity, maxEditDistance, candidate, suggestion, g.maxEditDistance2, inputPrefixLen,
                  prefixLength)
    {
      g, measured', distance, keep := f, measured, 0, false;
      if !PassesFilters(input, candidate, suggestion, f.maxEditDistance2, inputPrefixLen, prefixLength) {
        return;
      }
      var d, considered, kept :=
        Measure(input, verbosity, maxEditDistance, candidate, suggestion, f.maxEditDistance2, f.considered, comparer);
      distance, keep := d, kept;
      g := f.(considered := considered);
      if kept && d <= f.maxEditDistance2 {
        g, measured' := AddSuggestion(input, verbosity, maxEditDistance, suggestion, d, g, measured, words0, index);
      }
    }

    /**
     * The distance of a word that passed the length tests, and whether it
     * is worth keeping: an empty candidate gives the longer length, a
     * one-character word a count of the input's other characters, and
     * otherwise, unless the prefix heuristic or (below verbosity All) the
     * order check rules the word out, the comparer's bounded distance. A
     * word is kept only the first time it is considered.
     */
    method Measure(input: string, verbosity: Verbosity, maxEditDistance: int, candidate: string, suggestion: string,
                   maxEditDistance2: int, considered: set<string>, comparer: EditDistance)
      returns (distance: int, considered': set<string>, keep: bool)
      requires 1 <= prefixLength && |candidate| <= |input| && |candidate| <= |suggestion|
      requires comparer.Valid()
      modifies comparer.Repr()
      ensures comparer.Valid() && fresh(comparer.Repr() - old(comparer.Repr()))
      ensures considered <= considered' <= considered + {suggestion}
      ensures keep ==> suggestion !in considered && suggestion in considered' && distance >= 0
      ensures keep && |candidate| == 0 ==> distance == Max(|input|, |suggestion|)
      ensures keep && |candidate| > 0 && |suggestion| == 1 ==>
        distance == if suggestion[0] in input then |input| - 1 else |input|
      ensures Weighed(input, verbosity, maxEditDistance, candidate, suggestion, maxEditDistance2, considered,
                      considered', comparer.algorithm, prefixLength, distance, keep)
    {
      var inputLen := |input|;
      var suggestionLen := |suggestion|;
      var candidateLen := |candidate|;
      distance, considered', keep := 0, considered, false;
      if candidateLen == 0 {
        distance := Max(inputLen, suggestionLen);
        var added := suggestion !in considered';
        considered' := considered' + {suggestion};
        keep := distance <= maxEditDistance2 && added;
      } else if suggestionLen == 1 {
        if suggestion[0] !in input {
          distance := inputLen;
        } else {
          distance := inputLen - 1;
        }
        var added := suggestion !in considered';
        considered' := considered' + {suggestion};
        keep := distance <= maxEditDistance2 && added;
      } else {
        if SuffixRulesOut(input, suggestion, candidateLen, prefixLength, maxEditDistance) {
          return;
        }
        if verbosity != All {
          var inOrder := DeleteInSuggestionPrefix(candidate, candidateLen, suggestion, suggestionLen);
          assert candidate[..candidateLen] == candidate;
          if !inOrder {
            return;
          }
        }
        if suggestion in considered' {
          return;
        }
        considered' := considered' + {suggestion};
        distance := comparer.Compare(input, suggestion, maxEditDistance2);
        keep := distance >= 0;
      }
    }

    /** Adds a newly considered word at a distance within the current
      * bound: Closest drops farther suggestions, Top keeps one, replacing
      * it by a nearer word or, at the same distance, by a more frequent
      * one. The word joins the items measured. */
    static method AddSuggestion(input: string, verbosity: Verbosity, maxEditDistance: int, suggestion: string,
                                distance: int, f: Found, ghost measured: set<SuggestItem>,
                                ghost words0: map<string, int>, ghost index: map<int, seq<string>>)
      returns (g: Found, ghost measured': set<SuggestItem>)
      requires FoundInv(f, input, verbosity, maxEditDistance, words0, index)
      requires MeasuredInv(f, measured, input, verbosity, maxEditDistance, index)
      requires suggestion != input && suggestion in f.considered && Indexed(index, suggestion)
      requires forall x :: x in f.suggestions ==> x.term != suggestion
      requires 0 <= distance <= f.maxEditDistance2
      requires |input| - f.maxEditDistance2 <= |suggestion| <= |input| + f.maxEditDistance2
      ensures FoundInv(g, input, verbosity, maxEditDistance, words0, index)
      ensures MeasuredInv(g, measured', input, verbosity, maxEditDistance, index)
      ensures g.considered == f.considered && g.maxEditDistance2 <= f.maxEditDistance2
      ensures suggestion in g.words && measured' == measured + {SuggestItem(suggestion, distance, g.words[suggestion])}
      ensures verbosity == All ==> g.suggestions == f.suggestions + [SuggestItem(suggestion, distance, g.words[suggestion])]
    {
      // Reading the count inserts a zero count for a word not in the
      // dictionary.
      var words := InsertIfAbsent(f.words, suggestion, 0);
      var suggestionCount := words[suggestion];
      var si := SuggestItem(suggestion, distance, suggestionCount);
      measured' := measured + {si};
      GrownTransitive(words0, f.words, words);
      forall x | x in f.suggestions || x in measured'
        ensures Reportable(x, input, maxEditDistance, words, index)
      {
        if x != si {
          ReportableGrown(x, input, maxEditDistance, f.words, words, index);
        }
      }
      var suggestions := f.suggestions;
      var maxEditDistance2 := f.maxEditDistance2;
      if |suggestions| > 0 {
        if verbosity == Closest {
          if distance < maxEditDistance2 {
            suggestions := [];
          }
        } else if verbosity == Top {
          if distance < maxEditDistance2 || suggestionCount > suggestions[0].count {
            maxEditDistance2 := distance;
            suggestions := [si];
          }
          return Found(suggestions, maxEditDistance2, f.considered, words), measured';
        }
      }
      if verbosity != All {
        maxEditDistance2 := distance;
      }
      suggestions := suggestions + [si];
      g := Found(suggestions, maxEditDistance2, f.considered, words);
    }

    /** Weighs every word filed under a candidate's hash, in order. */
    method ProcessBucket(input: string, verbosity: Verbosity, maxEditDistance: int, inputPrefixLen: int,
                         candidate: string, dictSuggestions: seq<string>, f0: Found, ghost measured0: set<SuggestItem>,
                         comparer: EditDistance, ghost words0: map<string, int>, ghost index: map<int, seq<string>>,
                         ghost h: int)
      returns (f: Found, ghost measured: set<SuggestItem>)
      requires 1 <= prefixLength && |candidate| <= |input| && h in index && dictSuggestions == index[h]
      requires FoundInv(f0, input, verbosity, maxEditDistance, words0, index)
      requires MeasuredInv(f0, measured0, input, verbosity, maxEditDistance, index)
      requires comparer.Valid()
      modifies comparer.Repr()
      ensures comparer.Valid() && fresh(comparer.Repr() - old(comparer.Repr()))
      ensures FoundInv(f, input, verbosity, maxEditDistance, words0, index)
      ensures MeasuredInv(f, measured, input, verbosity, maxEditDistance, index) && measured0 <= measured
      ensures f0.considered <= f.considered && f.maxEditDistance2 <= f0.maxEditDistance2
      ensures verbosity == All ==> forall x :: x in f0.suggestions ==> x in f.suggestions
      // Every word under the hash was weighed: it is considered by now, or
      // it was set aside without being considered.
      ensures forall w :: w in dictSuggestions ==>
        w in f.considered ||
        Dismissed(input, verbosity, maxEditDistance, candidate, w, f.maxEditDistance2, inputPrefixLen, prefixLength)
    {
      f, measured := f0, measured0;
      for i := 0 to |dictSuggestions|
        invariant comparer.Valid() && fresh(comparer.Repr() - old(comparer.Repr()))
        invariant FoundInv(f, input, verbosity, maxEditDistance, words0, index)
        invariant MeasuredInv(f, measured, input, verbosity, maxEditDistance, index) && measured0 <= measured
        invariant f0.considered <= f.considered && f.maxEditDistance2 <= f0.maxEditDistance2
        invariant verbosity == All ==> forall x :: x in f0.suggestions ==> x in f.suggestions
        invariant forall k :: 0 <= k < i ==>
          dictSuggestions[k] in f.considered ||
          Dismissed(input, verbosity, maxEditDistance, candidate, dictSuggestions[k], f.maxEditDistance2,
                    inputPrefixLen, prefixLength)
      {
        var suggestion := dictSuggestions[i];
        assert Indexed(index, suggestion);
        ghost var before := f;
        ghost var distance, keep;
        f, measured, distance, keep := ConsiderSuggestion(input, verbosity, maxEditDistance, inputPrefixLen, candidate,
                                                          suggestion, f, measured, comparer, words0, index);
        forall k | 0 <= k <= i
          ensures dictSuggestions[k] in f.considered ||
            Dismissed(input, verbosity, maxEditDistance, candidate, dictSuggestions[k], f.maxEditDistance2,
                      inputPrefixLen, prefixLength)
        {
          var w := dictSuggestions[k];
          if w !in f.considered && k < i {
            DismissedAtLowerBound(input, verbosity, maxEditDistance, candidate, w, before.maxEditDistance2,
                                  f.maxEditDistance2, inputPrefixLen, prefixLength);
          }
        }
      }
    }

    /** Queues every single deletion of candidate not queued before. */
    static method AddDeletes(candidate: string, candidates: seq<string>, hashset1: set<string>, ghost c0: string)
      returns (candidates': seq<string>, hashset1': set<string>)
      requires candidate in Subseqs(c0) && hashset1 <= Subseqs(c0)
      ensures hashset1 <= hashset1' <= Subseqs(c0)
      ensures forall k :: 0 <= k < |candidate| ==> Delete(candidate, k) in hashset1'
      ensures forall c :: c in hashset1' - hashset1 ==> c in Deletions(candidate)
      ensures |candidates| <= |candidates'| && candidates'[..|candidates|] == candidates
      ensures |candidates'| - |candidates| == |hashset1'| - |hashset1|
      ensures forall c :: c in candidates'[|candidates|..] ==> c in Subseqs(c0)
    {
      candidates' := candidates;
      hashset1' := hashset1;
      for i := 0 to |candidate|
        invariant hashset1 <= hashset1' <= Subseqs(c0)
        invariant forall k :: 0 <= k < i ==> Delete(candidate, k) in hashset1'
        invariant forall c :: c in hashset1' - hashset1 ==> c in Deletions(candidate)
        invariant |candidates| <= |candidates'| && candidates'[..|candidates|] == candidates
        invariant |candidates'| - |candidates| == |hashset1'| - |hashset1|
        invariant forall c :: c in candidates'[|candidates|..] ==> c in Subseqs(c0)
      {
        var del := Delete(candidate, i);
        DeleteInSubseqs(c0, candidate, i);
        if del !in hashset1' {
          assert candidates'[|candidates|..] + [del] == (candidates' + [del])[|candidates|..];
          hashset1' := hashset1' + {del};
          candidates' := candidates' + [del];
        }
      }
    }

    /**
     * The search of Lookup: probes the index with the input's prefix and
     * its delete variants, nearest first, until they run out or, below
     * verbosity All, until no closer suggestion can be found.
     */
    method Search(input: string, verbosity: Verbosity, maxEditDistance: int, f0: Found, ghost measured0: set<SuggestItem>,
                  ghost words0: map<string, int>)
      returns (f: Found, ghost measured: set<SuggestItem>)
      requires 1 <= prefixLength && FoundInv(f0, input, verbosity, maxEditDistance, words0, deletes)
      requires MeasuredInv(f0, measured0, input, verbosity, maxEditDistance, deletes)
      ensures FoundInv(f, input, verbosity, maxEditDistance, words0, deletes)
      ensures MeasuredInv(f, measured, input, verbosity, maxEditDistance, deletes) && measured0 <= measured
      ensures verbosity == All ==> forall x :: x in f0.suggestions ==> x in f.suggestions
    {
      var inputLen := |input|;
      var inputPrefixLen := inputLen;
      var candidates: seq<string>;
      if inputPrefixLen > prefixLength {
        inputPrefixLen := prefixLength;
        candidates := [input[..inputPrefixLen]];
      } else {
        candidates := [input];
      }
      SubseqsSelf(candidates[0]);
      var comparer := new EditDistance(distanceAlgorithm);
      f, measured := ProbeCandidates(input, verbosity, maxEditDistance, inputPrefixLen, candidates, f0, measured0,
                                     comparer, words0);
      forall x | verbosity == All && x in f0.suggestions
        ensures x in f.suggestions
      {
        assert x in measured0;
      }
    }

    /** The loop of the search: candidates are taken in order, each one's
      * deletions queued behind them, until the queue runs out or a round
      * says to stop. */
    method ProbeCandidates(input: string, verbosity: Verbosity, maxEditDistance: int, inputPrefixLen: int,
                           candidates0: seq<string>, f0: Found, ghost measured0: set<SuggestItem>, comparer: EditDistance,
                           ghost words0: map<string, int>)
      returns (f: Found, ghost measured: set<SuggestItem>)
      requires 1 <= prefixLength && FoundInv(f0, input, verbosity, maxEditDistance, words0, deletes)
      requires MeasuredInv(f0, measured0, input, verbosity, maxEditDistance, deletes)
      requires |candidates0| == 1 && |candidates0[0]| <= inputPrefixLen <= |input|
      requires candidates0[0] in Subseqs(candidates0[0])
      requires comparer.Valid()
      modifies comparer.Repr()
      ensures FoundInv(f, input, verbosity, maxEditDistance, words0, deletes)
      ensures MeasuredInv(f, measured, input, verbosity, maxEditDistance, deletes) && measured0 <= measured
    {
      f, measured := f0, measured0;
      var candidates := candidates0;
      var hashset1: set<string> := {};
      ghost var c0 := candidates[0];
      ghost var all := Subseqs(c0);
      var candidatePointer := 0;
      var stop := false;
      while candidatePointer < |candidates| && !stop
        invariant 0 <= candidatePointer <= |candidates| == |hashset1| + 1
        invariant hashset1 <= all && forall c :: c in candidates ==> c in all
        invariant FoundInv(f, input, verbosity, maxEditDistance, words0, deletes)
        invariant MeasuredInv(f, measured, input, verbosity, maxEditDistance, deletes) && measured0 <= measured
        invariant comparer.Valid() && fresh(comparer.Repr() - old(comparer.Repr()))
        decreases |all| + 1 - candidatePointer
      {
        SubsetCard(hashset1, all);
        var candidate := candidates[candidatePointer];
        candidatePointer := candidatePointer + 1;
        f, measured, candidates, hashset1, stop := ProcessCandidate(input, verbosity, maxEditDistance, inputPrefixLen,
                                                                    candidate, f, measured, comparer, candidates,
                                                                    hashset1, c0, words0);
      }
    }

    /** One round of the search: the candidate's bucket is weighed and its
      * deletions are queued, unless its length difference already exceeds
      * the bound; stop says that no later candidate can do better. */
    method ProcessCandidate(input: string, verbosity: Verbosity, maxEditDistance: int, inputPrefixLen: int,
                            candidate: string, f0: Found, ghost measured0: set<SuggestItem>, comparer: EditDistance,
                            candidates: seq<string>, hashset1: set<string>, ghost c0: string, ghost words0: map<string, int>)
      returns (f: Found, ghost measured: set<SuggestItem>, candidates': seq<string>, hashset1': set<string>, stop: bool)
      requires 1 <= prefixLength && FoundInv(f0, input, verbosity, maxEditDistance, words0, deletes)
      requires MeasuredInv(f0, measured0, input, verbosity, maxEditDistance, deletes)
      requires |c0| <= inputPrefixLen <= |input| && candidate in Subseqs(c0)
      requires |candidates| == |hashset1| + 1 && hashset1 <= Subseqs(c0)
      requires forall c :: c in candidates ==> c in Subseqs(c0)
      requires comparer.Valid()
      modifies comparer.Repr()
      ensures comparer.Valid() && fresh(comparer.Repr() - old(comparer.Repr()))
      ensures FoundInv(f, input, verbosity, maxEditDistance, words0, deletes)
      ensures MeasuredInv(f, measured, input, verbosity, maxEditDistance, deletes) && measured0 <= measured
      ensures verbosity == All ==> forall x :: x in f0.suggestions ==> x in f.suggestions
      ensures |candidates| <= |candidates'| == |hashset1'| + 1 && hashset1' <= Subseqs(c0)
      ensures forall c :: c in candidates' ==> c in Subseqs(c0)
      ensures stop ==> verbosity != All
    {
      f, measured, candidates', hashset1', stop := f0, measured0, candidates, hashset1, false;
      var candidateLen := |candidate|;
      var lengthDiff := inputPrefixLen - candidateLen;
      SubseqsLength(c0, candidate);
      if lengthDiff > f.maxEditDistance2 {
        stop := verbosity != All;
        return;
      }
      var candidateHash := GetstringHash(candidate, compactMask);
      if candidateHash in deletes {
        var dictSuggestions := deletes[candidateHash];
        f, measured := ProcessBucket(input, verbosity, maxEditDistance, inputPrefixLen, candidate, dictSuggestions, f,
                                     measured, comparer, words0, deletes, candidateHash);
      }
      if lengthDiff < maxEditDistance && candidateLen <= prefixLength {
        if verbosity != All && lengthDiff >= f.maxEditDistance2 {
          return;
        }
        candidates', hashset1' := AddDeletes(candidate, candidates, hashset1, c0);
        forall c | c in candidates'
          ensures c in Subseqs(c0)
        {
          var k :| 0 <= k < |candidates'| && candidates'[k] == c;
          if k >= |candidates| {
            assert c in candidates'[|candidates|..];
          } else {
            assert c in candidates'[..|candidates|];
          }
        }
      }
    }

    /**
     * Suggests dictionary words close to input, sorted by distance and
     * then by descending count. Top keeps the best suggestion, Closest
     * all suggestions at the smallest distance found, All every
     * suggestion within maxEditDistance. A maxEditDistance above the
     * dictionary's is refused. With includeUnknown, an empty result is
     * replaced by input itself at distance maxEditDistance + 1 and count 0.
     */
    method Lookup(input: string, verbosity: Verbosity, maxEditDistance: int, includeUnknown: bool)
      returns (r: Result<seq<SuggestItem>>, ghost found: set<SuggestItem>)
      requires Valid()
      modifies this
      ensures Valid()
      ensures Grown(old(words), words) && deletes == old(deletes)
      ensures belowThresholdWords == old(belowThresholdWords) && maxDictionaryWordLength == old(maxDictionaryWordLength)
      ensures r.Failure? <==> maxEditDistance > maxDictionaryEditDistance
      ensures r.Success? ==> Ranked(r.value, verbosity)
      // The result is what the verbosity level asks for among the
      // dictionary words the search found, unless nothing was found and
      // the unknown input stands in.
      ensures r.Success? ==>
        BestOf(r.value, found, verbosity) ||
        (includeUnknown && found == {} && r.value == [SuggestItem(input, maxEditDistance + 1, 0)])
      ensures forall y :: y in found ==> Reportable(y, input, maxEditDistance, words, deletes)
      // Every suggestion is a reportable dictionary word, unless the
      // result is the unknown input alone.
      ensures r.Success? ==>
        (forall x :: x in r.value ==> Reportable(x, input, maxEditDistance, words, deletes)) ||
        (includeUnknown && r.value == [SuggestItem(input, maxEditDistance + 1, 0)])
      ensures r.Success? && includeUnknown ==> r.value != []
      // An input that is a dictionary word is found at distance 0, and
      // alone unless every suggestion is wanted.
      ensures r.Success? && input in old(words) && |input| - maxEditDistance <= old(maxDictionaryWordLength) ==>
        SuggestItem(input, 0, old(words)[input]) in r.value &&
        (verbosity != All ==> r.value == [SuggestItem(input, 0, old(words)[input])])
      // Without edits only the input itself can be found.
      ensures r.Success? && maxEditDistance == 0 && !(includeUnknown && r.value == [SuggestItem(input, 1, 0)]) ==>
        forall x :: x in r.value ==> x.term == input
      // An input longer than every word by more than maxEditDistance
      // finds nothing.
      ensures r.Success? && |input| - maxEditDistance > old(maxDictionaryWordLength) ==>
        r.value == [] || (includeUnknown && r.value == [SuggestItem(input, maxEditDistance + 1, 0)])
    {
      if maxEditDistance > maxDictionaryEditDistance {
        return Failure("maxEditDistance"), {};
      }
      var suggestions;
      suggestions, found := Suggest(input, verbosity, maxEditDistance);
      if includeUnknown && |suggestions| == 0 {
        suggestions := suggestions + [SuggestItem(input, maxEditDistance + 1, 0)];
      }
      return Success(suggestions), found;
    }

    /** Lookup without the parameter check and the unknown item. */
    method Suggest(input: string, verbosity: Verbosity, maxEditDistance: int)
      returns (suggestions: seq<SuggestItem>, ghost found: set<SuggestItem>)
      requires Valid()
      modifies this
      ensures Valid()
      ensures Grown(old(words), words) && deletes == old(deletes)
      ensures belowThresholdWords == old(belowThresholdWords) && maxDictionaryWordLength == old(maxDictionaryWordLength)
      ensures Ranked(suggestions, verbosity) && BestOf(suggestions, found, verbosity)
      ensures forall x :: x in suggestions ==> Reportable(x, input, maxEditDistance, words, deletes)
      ensures forall y :: y in found ==> Reportable(y, input, maxEditDistance, words, deletes)
      ensures input in old(words) && |input| - maxEditDistance <= old(maxDictionaryWordLength) ==>
        SuggestItem(input, 0, old(words)[input]) in suggestions &&
        (verbosity != All ==> suggestions == [SuggestItem(input, 0, old(words)[input])])
      ensures maxEditDistance == 0 ==> forall x :: x in suggestions ==> x.term == input
      ensures |input| - maxEditDistance > old(maxDictionaryWordLength) ==> suggestions == []
    {
      var skip;
      suggestions, skip := DirectMatch(input, verbosity, maxEditDistance);
      found := set x | x in suggestions;
      if !skip {
        var f0 := Found(suggestions, maxEditDistance, {input}, words);
        suggestions, words, found := SearchAndRank(input, verbosity, maxEditDistance, f0, found);
      }
    }

    /** The checks of Lookup before its search: an input longer than any
      * word by more than maxEditDistance gives nothing; a dictionary word
      * is its own suggestion at distance 0, and the only one unless the
      * verbosity is All; without edits there is nothing to search for. */
    method DirectMatch(input: string, verbosity: Verbosity, maxEditDistance: int)
      returns (suggestions: seq<SuggestItem>, skip: bool)
      ensures skip <==>
        |input| - maxEditDistance > maxDictionaryWordLength || maxEditDistance == 0 || (input in words && verbosity != All)
      ensures suggestions ==
        if |input| - maxEditDistance <= maxDictionaryWordLength && input in words
        then [SuggestItem(input, 0, words[input])] else []
    {
      skip := false;
      suggestions := [];
      var inputLen := |input|;
      if inputLen - maxEditDistance > maxDictionaryWordLength {
        skip := true;
      }
      var suggestionCount := 0;
      if input in words && !skip {
        suggestionCount := words[input];
        suggestions := suggestions + [SuggestItem(input, 0, suggestionCount)];
        if verbosity != All {
          skip := true;
        }
      }
      if maxEditDistance == 0 {
        skip := true;
      }
    }

    /** The search of Lookup followed by its final sort. */
    method SearchAndRank(input: string, verbosity: Verbosity, maxEditDistance: int, f0: Found,
                         ghost measured0: set<SuggestItem>)
      returns (suggestions: seq<SuggestItem>, words': map<string, int>, ghost found: set<SuggestItem>)
      requires 1 <= prefixLength && FoundInv(f0, input, verbosity, maxEditDistance, f0.words, deletes)
      requires MeasuredInv(f0, measured0, input, verbosity, maxEditDistance, deletes)
      ensures Grown(f0.words, words') && Ranked(suggestions, verbosity)
      ensures BestOf(suggestions, found, verbosity) && measured0 <= found
      ensures forall x :: x in suggestions ==> Reportable(x, input, maxEditDistance, words', deletes)
      ensures forall y :: y in found ==> Reportable(y, input, maxEditDistance, words', deletes)
      ensures verbosity == All ==> forall x :: x in f0.suggestions ==> x in suggestions
    {
      var f;
      f, found := Search(input, verbosity, maxEditDistance, f0, measured0, f0.words);
      words' := f.words;
      suggestions := Rank(f.suggestions);
      RankFound(f, suggestions, input, verbosity, maxEditDistance, f0.words, deletes);
      RankBest(f, found, suggestions, input, verbosity, maxEditDistance, f0.words, deletes);
    }

    /** The final sort of Lookup, skipped for fewer than two suggestions. */
    static method Rank(s: seq<SuggestItem>) returns (t: seq<SuggestItem>)
      requires DistinctTerms(s)
      ensures Sorted(t) && DistinctTerms(t) && multiset(t) == multiset(s)
    {
      t := s;
      if |s| > 1 {
        t := SortSuggestions(s);
        PermutationKeepsDistinct(s, t);
      }
    }
  
    /**
     * Word segmentation with the dictionary's edit distance and longest
     * word as limits.
     */
    method WordSegmentationDefault(input: string, logProbability: int -> real, unknownLogProbability: int -> real)
      returns (r: Result<Info>)
      requires Valid() && |input| >= 1 && maxDictionaryWordLength >= 1
      modifies this
      ensures Valid() && Grown(old(words), words) && deletes == old(deletes)
      ensures r.Success? && fresh(r.value)
      ensures StripSpaces(r.value.segmentedstring) == StripSpaces(input) && r.value.distanceSum >= 0
      ensures maxDictionaryEditDistance == 0 ==> r.value.correctedstring == r.value.segmentedstring
      ensures SlotOk(r.value, input, |input|, Scoring(maxDictionaryEditDistance, words, logProbability, unknownLogProbability))
    {
      r := WordSegmentation(input, maxDictionaryEditDistance, maxDictionaryWordLength, logProbability, unknownLogProbability);
    }

    /**
     * Word segmentation with the dictionary's longest word as the longest
     * part.
     */
    method WordSegmentationWithDistance(input: string, maxEditDistance: int,
                                        logProbability: int -> real, unknownLogProbability: int -> real)
      returns (r: Result<Info>)
      requires Valid() && |input| >= 1 && maxDictionaryWordLength >= 1
      modifies this
      ensures Valid() && Grown(old(words), words) && deletes == old(deletes)
      ensures r.Failure? <==> maxEditDistance > maxDictionaryEditDistance
      ensures r.Success? ==>
        fresh(r.value) && StripSpaces(r.value.segmentedstring) == StripSpaces(input) && r.value.distanceSum >= 0
      ensures r.Success? && maxEditDistance == 0 ==> r.value.correctedstring == r.value.segmentedstring
      ensures r.Success? ==>
        SlotOk(r.value, input, |input|, Scoring(maxEditDistance, words, logProbability, unknownLogProbability))
    {
      r := WordSegmentation(input, maxEditDistance, maxDictionaryWordLength, logProbability, unknownLogProbability);
    }

    /**
     * Splits input into words by inserting spaces (and correcting each
     * part by a Top lookup within maxEditDistance), choosing for every
     * prefix the composition of least edit distance, ties going to the
     * larger sum of log-probabilities. Parts are at most
     * maxSegmentationWordLength long. The best compositions of the last
     * arraySize prefixes live in a circular buffer. logProbability(c)
     * stands for log10(c / N) of a word with count c, and
     * unknownLogProbability(n) for log10(10 / (N * 10^n)) of an unknown
     * part of length n. The result is the segmented string, the corrected
     * string, the edit distance sum and the log-probability sum.
     */
    method WordSegmentation(input: string, maxEditDistance: int, maxSegmentationWordLength: int,
                            logProbability: int -> real, unknownLogProbability: int -> real)
      returns (r: Result<Info>)
      requires Valid() && |input| >= 1 && maxSegmentationWordLength >= 1
      modifies this
      ensures Valid() && Grown(old(words), words) && deletes == old(deletes)
      ensures r.Failure? <==> maxEditDistance > maxDictionaryEditDistance
      // The segmented string is the input with spaces moved.
      ensures r.Success? ==>
        fresh(r.value) && StripSpaces(r.value.segmentedstring) == StripSpaces(input) && r.value.distanceSum >= 0
      // Without edits, segmentation only inserts spaces.
      ensures r.Success? && maxEditDistance == 0 ==> r.value.correctedstring == r.value.segmentedstring
      // The four values are those of a cut of the input into corrected parts.
      ensures r.Success? ==>
        SlotOk(r.value, input, |input|, Scoring(maxEditDistance, words, logProbability, unknownLogProbability))
    {
      var arraySize := Min(maxSegmentationWordLength, |input|);
      var infos := NewInfos(arraySize);
      var compositions := new Info[arraySize](k requires 0 <= k < arraySize => infos[k]);
      ghost var slots := set k | 0 <= k < arraySize :: compositions[k];
      var ok, circularIndex := SegmentColumns(input, maxEditDistance, maxSegmentationWordLength, compositions, slots,
                                              logProbability, unknownLogProbability);
      if !ok {
        return Failure("maxEditDistance");
      }
      var best := compositions[circularIndex];
      assert input[..|input|] == input;
      ComposesSegmented(best.parts, input, |input|, Scoring(maxEditDistance, words, logProbability, unknownLogProbability));
      var info := new Info();
      info.Set(best.GetSegmented(), best.GetCorrected(), best.GetDistance(), best.GetProbability(), best.parts);
      return Success(info);
    }

    /** n new, distinct, empty compositions. */
    static method NewInfos(n: int) returns (infos: seq<Info>)
      ensures |infos| == if n < 0 then 0 else n
      ensures forall a, b :: 0 <= a < |infos| && 0 <= b < |infos| && a != b ==> infos[a] != infos[b]
      ensures forall a :: 0 <= a < |infos| ==> fresh(infos[a])
    {
      infos := [];
      while |infos| < n
        invariant |infos| <= if n < 0 then 0 else n
        invariant forall a, b :: 0 <= a < |infos| && 0 <= b < |infos| && a != b ==> infos[a] != infos[b]
        invariant forall a :: 0 <= a < |infos| ==> fresh(infos[a])
      {
        var info := new Info();
        infos := infos + [info];
      }
    }

    /** The columns of the segmentation, one per start position; then
      * circularIndex is the slot of the composition of the whole input. */
    method SegmentColumns(input: string, maxEditDistance: int, maxSegmentationWordLength: int,
                          compositions: array<Info>, ghost slots: set<Info>,
                          logProbability: int -> real, unknownLogProbability: int -> real)
      returns (ok: bool, circularIndex: int)
      requires Valid() && |input| >= 1 && 1 <= maxSegmentationWordLength
      requires compositions.Length == Min(maxSegmentationWordLength, |input|)
      requires DistinctSlots(compositions) && InSlots(compositions, slots)
      modifies this, slots
      ensures Valid() && Grown(old(words), words) && deletes == old(deletes)
      ensures ok <==> maxEditDistance <= maxDictionaryEditDistance
      ensures ok ==> 0 <= circularIndex < compositions.Length
      ensures ok ==> SlotOk(compositions[circularIndex], input, |input|, Scoring(maxEditDistance, words, logProbability, unknownLogProbability))
    {
      var arraySize := compositions.Length;
      circularIndex := -1;
      FirstColumnRows(compositions, input, Scoring(maxEditDistance, words, logProbability, unknownLogProbability));
      for j := 0 to |input|
        invariant Valid() && Grown(old(words), words) && deletes == old(deletes)
        invariant (j == 0 && circularIndex == -1) || (j >= 1 && 0 <= circularIndex < arraySize)
        invariant DistinctSlots(compositions)
        invariant ColumnRows(compositions, circularIndex, j, 1, input, Scoring(maxEditDistance, words, logProbability, unknownLogProbability))
        invariant j >= 1 ==> maxEditDistance <= maxDictionaryEditDistance
      {
        ghost var before := words;
        ok, circularIndex := SegmentColumn(input, maxEditDistance, maxSegmentationWordLength, compositions, slots,
                                           circularIndex, j, logProbability, unknownLogProbability);
        GrownTransitive(old(words), before, words);
        if !ok {
          return;
        }
      }
      LastColumnRows(compositions, circularIndex, input, Scoring(maxEditDistance, words, logProbability, unknownLogProbability));
      ok := true;
    }

    /**
     * One column of the segmentation: every part starting at j, each
     * composition of input[..j + i] extended or kept. On entry the buffer
     * holds compositions of the prefixes of length j to j + arraySize - 1,
     * the one of length L at Wrap(circularIndex + L - j); on exit those of
     * length j + 1 to j + arraySize, at the same places.
     */
    method SegmentColumn(input: string, maxEditDistance: int, maxSegmentationWordLength: int,
                         compositions: array<Info>, ghost slots: set<Info>, circularIndex: int, j: int,
                         logProbability: int -> real, unknownLogProbability: int -> real)
      returns (ok: bool, nextIndex: int)
      requires Valid() && 1 <= maxSegmentationWordLength && 0 <= j < |input|
      requires compositions.Length == Min(maxSegmentationWordLength, |input|)
      requires DistinctSlots(compositions) && InSlots(compositions, slots)
      requires (j == 0 && circularIndex == -1) || (j >= 1 && 0 <= circularIndex < compositions.Length)
      requires ColumnRows(compositions, circularIndex, j, 1, input, Scoring(maxEditDistance, words, logProbability, unknownLogProbability))
      modifies this, slots
      ensures Valid() && Grown(old(words), words) && deletes == old(deletes)
      ensures ok <==> maxEditDistance <= maxDictionaryEditDistance
      ensures ok ==> 0 <= nextIndex < compositions.Length
      ensures ok ==> ColumnRows(compositions, nextIndex, j + 1, 1, input, Scoring(maxEditDistance, words, logProbability, unknownLogProbability))
    {
      var imax := Min(|input| - j, maxSegmentationWordLength);
      for i := 1 to imax + 1
        invariant Valid() && Grown(old(words), words) && deletes == old(deletes)
        invariant i > 1 ==> maxEditDistance <= maxDictionaryEditDistance
        invariant DistinctSlots(compositions)
        invariant ColumnRows(compositions, circularIndex, j, i, input, Scoring(maxEditDistance, words, logProbability, unknownLogProbability))
      {
        ghost var before := words;
        ok := CorrectAndPlace(input, j, i, maxEditDistance, maxSegmentationWordLength, compositions, slots, circularIndex,
                              logProbability, unknownLogProbability);
        GrownTransitive(old(words), before, words);
        if !ok {
          return false, circularIndex;
        }
      }
      RowsComplete(compositions, circularIndex, j, imax, maxSegmentationWordLength, input, Scoring(maxEditDistance, words, logProbability, unknownLogProbability));
      NextColumn(compositions, circularIndex, j, input, Scoring(maxEditDistance, words, logProbability, unknownLogProbability));
      nextIndex := circularIndex + 1;
      if nextIndex == compositions.Length {
        nextIndex := 0;
      }
      ok := true;
    }

    /** Row i of column j: the part input[j..j + i] corrected, then placed. */
    method CorrectAndPlace(input: string, j: int, i: int, maxEditDistance: int, maxSegmentationWordLength: int,
                           compositions: array<Info>, ghost slots: set<Info>, circularIndex: int,
                           logProbability: int -> real, unknownLogProbability: int -> real)
      returns (ok: bool)
      requires Valid() && 0 <= j && 1 <= i <= Min(|input| - j, maxSegmentationWordLength)
      requires compositions.Length == Min(maxSegmentationWordLength, |input|)
      requires DistinctSlots(compositions) && InSlots(compositions, slots)
      requires (j == 0 && circularIndex == -1) || (j >= 1 && 0 <= circularIndex < compositions.Length)
      requires ColumnRows(compositions, circularIndex, j, i, input, Scoring(maxEditDistance, words, logProbability, unknownLogProbability))
      modifies this, slots
      ensures Valid() && Grown(old(words), words) && deletes == old(deletes)
      ensures ok <==> maxEditDistance <= maxDictionaryEditDistance
      ensures ok ==> ColumnRows(compositions, circularIndex, j, i + 1, input, Scoring(maxEditDistance, words, logProbability, unknownLogProbability))
    {
      ghost var sc0 := Scoring(maxEditDistance, words, logProbability, unknownLogProbability);
      var corrected := CorrectPart(input[j..j + i], maxEditDistance, logProbability, unknownLogProbability);
      if corrected.Failure? {
        return false;
      }
      ColumnRowsGrown(compositions, circularIndex, j, i, input, sc0, words);
      SegmentRow(input, j, i, maxSegmentationWordLength, corrected.value, compositions, slots, circularIndex,
                 sc0.(words := words));
      ok := true;
    }

    /** Row i of column j: the part's composition goes to the slot i rows
      * ahead of circularIndex. */
    static method SegmentRow(input: string, j: int, i: int, maxSegmentationWordLength: int,
                             pc: PartCorrection, compositions: array<Info>, ghost slots: set<Info>, circularIndex: int,
                             ghost sc: Scoring)
      requires 0 <= j && 1 <= i <= Min(|input| - j, maxSegmentationWordLength)
      requires compositions.Length == Min(maxSegmentationWordLength, |input|)
      requires DistinctSlots(compositions) && InSlots(compositions, slots)
      requires (j == 0 && circularIndex == -1) || (j >= 1 && 0 <= circularIndex < compositions.Length)
      requires PartCorrected(pc, input[j..j + i], sc.maxEditDistance, sc.words, sc.logProbability, sc.unknownLogProbability)
      requires ColumnRows(compositions, circularIndex, j, i, input, sc)
      modifies slots
      ensures ColumnRows(compositions, circularIndex, j, i + 1, input, sc)
    {
      var arraySize := compositions.Length;
      DestinationLap(i, circularIndex, arraySize);
      var destinationIndex := (i + circularIndex) % arraySize;
      var destination := compositions[destinationIndex];
      var source := if j == 0 then destination else compositions[circularIndex];
      if j >= 1 {
        assert Lap(circularIndex, circularIndex, arraySize) == arraySize;
        assert RowHeld(source, arraySize, arraySize, j, i, input, sc);
      }
      assert RowHeld(destination, i, arraySize, j, i, input, sc);
      Place(input, j, i, maxSegmentationWordLength, pc, source, destination, sc);
      forall k | 0 <= k < arraySize && k != destinationIndex
        ensures RowHeld(compositions[k], Lap(k, circularIndex, arraySize), arraySize, j, i, input, sc)
      {
        assert compositions[k] != destination;
      }
      RowPlaced(compositions, circularIndex, j, i, input, sc, destinationIndex);
    }

    /**
     * Row i of column j: the first column sets the composition of
     * input[..i] to the part alone; later ones replace the composition of
     * input[..j + i] (in destination) by the one of input[..j] (in source)
     * extended by a space and the part when Replaces says so, and keep it
     * otherwise.
     */
    static method Place(input: string, j: int, i: int, maxSegmentationWordLength: int,
                        pc: PartCorrection, source: Info, destination: Info, ghost sc: Scoring)
      requires 0 <= j && 1 <= i && j + i <= |input|
      requires PartCorrected(pc, input[j..j + i], sc.maxEditDistance, sc.words, sc.logProbability, sc.unknownLogProbability)
      requires j >= 1 ==> SlotOk(source, input, j, sc)
      requires j >= 1 && destination != source ==> SlotOk(destination, input, j + i, sc)
      requires j >= 1 && destination == source ==> i == maxSegmentationWordLength
      modifies destination
      ensures SlotOk(destination, input, j + i, sc)
      ensures j == 0 ==>
        destination.segmentedstring == pc.part && destination.correctedstring == pc.topResult &&
        destination.distanceSum == pc.topEd && destination.probabilityLogSum == pc.topProbabilityLog
      ensures j >= 1 && Replaces(i, maxSegmentationWordLength, pc, old(source.distanceSum), old(source.probabilityLogSum),
                                 old(destination.distanceSum), old(destination.probabilityLogSum)) ==>
        destination.segmentedstring == old(source.segmentedstring) + " " + pc.part &&
        destination.correctedstring == old(source.correctedstring) + " " + pc.topResult &&
        destination.distanceSum == old(source.distanceSum) + pc.separatorLength + pc.topEd &&
        destination.probabilityLogSum == old(source.probabilityLogSum) + pc.topProbabilityLog
      ensures j >= 1 && !Replaces(i, maxSegmentationWordLength, pc, old(source.distanceSum), old(source.probabilityLogSum),
                                  old(destination.distanceSum), old(destination.probabilityLogSum)) ==>
        unchanged(destination)
    {
      if j == 0 {
        assert input[j..j + i] == input[0..i];
        ComposeFirst(pc, input, i, sc);
        destination.Set(pc.part, pc.topResult, pc.topEd, pc.topProbabilityLog, [Piece(0, i, pc)]);
      } else if Replaces(i, maxSegmentationWordLength, pc, source.GetDistance(), source.GetProbability(),
                         destination.GetDistance(), destination.GetProbability()) {
        ghost var ps := source.parts + [Piece(j, j + i, pc)];
        ComposeExtend(source.parts, source.GetSegmented(), source.GetCorrected(), source.GetDistance(),
                      source.GetProbability(), pc, input, j, i, sc);
        var seg := source.GetSegmented() + " " + pc.part;
        var correct := source.GetCorrected() + " " + pc.topResult;
        var d := source.GetDistance() + pc.separatorLength + pc.topEd;
        var prob := source.GetProbability() + pc.topProbabilityLog;
        destination.Set(seg, correct, d, prob, ps);
      }
    }

    /**
     * The top correction of one part of a segmentation: the part without
     * its leading whitespace and without whitespace at all, looked up with
     * Top verbosity.
     */
    method CorrectPart(part0: string, maxEditDistance: int, logProbability: int -> real, unknownLogProbability: int -> real)
      returns (r: Result<PartCorrection>)
      requires Valid() && |part0| >= 1
      modifies this
      ensures Valid() && Grown(old(words), words) && deletes == old(deletes)
      ensures r.Failure? <==> maxEditDistance > maxDictionaryEditDistance
      ensures r.Success? ==> PartCorrected(r.value, part0, maxEditDistance, words, logProbability, unknownLogProbability)
      // A part that is a dictionary word, short enough to be looked up,
      // is kept with no edit beyond the whitespace removed.
      ensures r.Success? && r.value.part in old(words) && |r.value.part| - maxEditDistance <= maxDictionaryWordLength ==>
        r.value.topResult == r.value.part && r.value.topProbabilityLog == logProbability(old(words)[r.value.part])
    {
      var separatorLength := 0;
      var part := part0;
      if IsSpace(part[0]) {
        part := part[1..];
      } else {
        separatorLength := 1;
      }
      var topEd := |part|;
      StripSpacesIdempotent(part);
      part := StripSpaces(part);
      topEd := topEd - |part|;
      var results;
      ghost var found;
      results, found := Lookup(part, Top, maxEditDistance, false);
      if results.Failure? {
        return Failure(results.error);
      }
      var topResult: string;
      var topProbabilityLog: real;
      if |results.value| > 0 {
        assert results.value[0] in results.value;
        topResult := results.value[0].term;
        topEd := topEd + results.value[0].distance;
        topProbabilityLog := logProbability(results.value[0].count);
      } else {
        topResult := part;
        topEd := topEd + |part|;
        topProbabilityLog := unknownLogProbability(|part|);
      }
      r := Success(PartCorrection(part, separatorLength, topResult, topEd, topProbabilityLog));
    }
  }
}
