# SymSpell engine and its edit-distance comparers, in Dafny

This project models the core of SymSpellCppPy, a C++ port of the SymSpell
spelling corrector, and proves properties of that model.

**The dictionary.**
- The engine keeps three things:
  - a dictionary of words with frequency counts;
  - a table of words seen fewer times than a count threshold;
  - an index from a 32-bit hash to the words filed under it.
- When a word enters the dictionary, every *delete variant* of its prefix is hashed, and the word is filed under each hash. A delete variant is the prefix with up to `maxDictionaryEditDistance` characters removed.
- The variants go either directly into the index or into a staging area, which a bulk load commits in one step.

**Lookup.** Lookup generates the delete variants of the input and probes the index with them. It discards hash collisions with cheap checks. It then gives each surviving word a distance: the bounded comparer's result, or a shortcut for an empty candidate and for a one-character word. The result depends on the verbosity:
- Top: the most frequent of the suggestions at the smallest distance found;
- Closest: all suggestions at the smallest distance found;
- All: all suggestions found within the bound.

The result is sorted by distance, then by descending count.

**Word segmentation.** Word segmentation inserts spaces into a text by dynamic programming. The best composition of each of the last few prefixes is kept in a circular buffer. Each part is corrected by a Top lookup.

**Edit distance.** The two comparers are Levenshtein and Damerau optimal string alignment (OSA). Each trims the common prefix and suffix of its operands, then runs a row-buffer dynamic programme. The banded one runs when the bound is below the length of the longer middle part; the full one runs otherwise.

**Module layout.** Each imperative piece of the source is a method proved against a reference definition:
- `Helpers`: the empty-operand shortcut and prefix/suffix trimming.
- `LevenshteinSpec` and `DamerauOsaSpec`: the distances, as recurrences, with their algebra. That covers symmetry, dropping a common prefix or suffix, bounds, zero distance and the adjacent swap.
- `Levenshtein`, `DamerauOsa` and `EditDistance`: the comparers, as classes with their row buffers. The full programmes are proved to compute the reference distance.
- `LevenshteinAsWritten`: the Levenshtein programmes, full and banded, with their row initialisations exactly as the source writes them.
- `Deletes`: delete-variant generation as a recursive method over a set, proved equal to a closed-form set of subsequences.
- `DeleteHash`: FNV-1a (section 2 of draft-eastlake-fnv) over signed bytes. The hash is masked, tagged with the length class, and read as a signed 32-bit value. Bitwise operations are defined bit by bit.
- `IndexSpec`: what the index holds after a word's variants are filed, saturating addition, 32-bit truncation, and the non-overwriting insert of `std::unordered_map`.
- `Suggestions`: `SuggestItem`, its order, sorting, and the `SuggestionStage` accumulator.
- `LookupSpec`: the collision filter's acceptance relation, and the invariant of a lookup's search state.
- `SymSpellUtils`: the trims, `Info`, `Verbosity`, the corrected parts a segmentation is built from, and the constants of `library.h`.
- `SegmentationSpec`: what a segmentation result is, and the circular-buffer bookkeeping of word segmentation. A result is a cut of the input into consecutive corrected parts. Its segmented and corrected strings are the parts and their corrections joined by spaces. Its distance and log-probability are the sums over the parts.
- `SymSpellEngine`: the engine class. Its maps are fields that its methods reassign. Its `Valid()` invariant keeps counts in `[0, MAXINT]` and parked counts below the threshold.

**Behaviours of the code worth noting:**
- `std::unordered_map::insert` never overwrites (library.cpp:76, 84). So a second occurrence of a dictionary word does not add to its count, and a parked word keeps its first count until it is admitted.
- The direct write path (library.cpp:109-130) stores a copy of the list that ends in an empty string. `key` is written only into the local copy. The index therefore receives `""`, not the word.
- `Edits` always generates one level of deletes, even with `maxDictionaryEditDistance == 0`.
- The only characters word segmentation strips from a part are whitespace (library.cpp:876-877).
- The final sort orders by distance ascending, then count descending (library.cpp:296-297). The comparison never reads the term, so items that tie on both may come in any order.

## Model

| member | source | states |
|---|---|---|
| Helpers.NullDistanceResults | include/Helpers.h:11-15 | two empty operands are at distance 0; with one empty operand the result is the other's length when that is within maxDistance, and -1 otherwise |
| Helpers.SuffixTrimSound | include/Helpers.h:25-28 | the suffix the loop drops is equal in both strings, and the last characters it keeps differ unless the shorter string is used up |
| Helpers.PrefixTrimSound | include/Helpers.h:30-31 | the prefix the loop skips is equal in both strings, and it stops at len1 or at the first difference |
| Helpers.Prep | include/Helpers.h:21-36 | the trimmed lengths and start stay within both strings, and the length difference is preserved: len2 - len1 == \|s2\| - \|s1\| |
| Helpers.PrepSound | include/Helpers.h:21-36 | the trimmed prefix and suffix are common to both strings and maximal: non-empty middle parts differ at both ends |
| Helpers.PrefixSuffixPrep | include/Helpers.h:21-36 | the two loops leave (len1, len2, start) equal to the trimming Prep defines |
| Helpers.ClampBound | include/Levenshtein.h:51-52 | the bound is clamped to INT_MAX and is otherwise kept |
| LevenshteinSpec.LevMatch | include/Levenshtein.h:140 | equal characters make a cell equal to its diagonal, so skipping the minimum on a match is sound |
| LevenshteinSpec.LevDistSymmetric | include/Levenshtein.h:33-37 | the distance is symmetric, so swapping the operands to put the shorter first changes nothing |
| LevenshteinSpec.LevDistDropSuffix | include/Helpers.h:25-28 | a common suffix does not change the Levenshtein distance |
| LevenshteinSpec.LevDistDropPrefix | include/Helpers.h:30-31 | a common prefix does not change the Levenshtein distance |
| LevenshteinSpec.LevUpper | include/Levenshtein.h:41 | the distance is at most the longer length, so an empty middle part gives len2 |
| LevenshteinSpec.LevLower | include/Levenshtein.h:59 | the distance is at least the length difference, so a difference above the bound rightly gives -1 |
| LevenshteinSpec.LevDistZero | include/Levenshtein.h:50 | the distance is 0 exactly when the strings are equal (both directions) |
| Levenshtein.LevDistTrim | include/Levenshtein.h:39-43 | trimming the common prefix and suffix leaves the distance unchanged |
| Levenshtein.FullDistance | include/Levenshtein.h:128-166 | the full programme, with its row initialised to 1..len2, returns the edit distance of the middle parts |
| Levenshtein.FullRow | include/Levenshtein.h:149-163 | one pass of the inner loop turns row i of the table into row i + 1 in place, and returns its last cell |
| Levenshtein.LevCellFrom | include/Levenshtein.h:154-161 | the cell the inner loop computes from the diagonal, above and left costs is the table's cell |
| Levenshtein.BandedDistance | include/Levenshtein.h:168-218 | the banded programme, starting from the row BandInit leaves, returns -1 or a value in [0, maxDistance] |
| Levenshtein.BandInit | include/Levenshtein.h:171-172 | the two initialisation loops leave slot k holding the table's row 0 at column k + 1 when that is within maxDistance, and maxDistance + 1 otherwise; slots past len2 are untouched |
| Levenshtein.Levenshtein.constructor | include/Levenshtein.h:22 | the default comparer starts with an empty buffer |
| Levenshtein.Levenshtein.Create | include/Levenshtein.h:24-27 | a length of at most 0 is refused; otherwise the buffer holds that many zeros |
| Levenshtein.Levenshtein.GrowBuffer | include/Levenshtein.h:44 | the buffer is replaced by len2 zeros only when it is shorter than len2, and kept otherwise |
| Levenshtein.Levenshtein.Distance | include/Levenshtein.h:29-46 | the unbounded distance is the Levenshtein distance of the operands, in either order and with empty operands |
| Levenshtein.Levenshtein.BoundedDistance | include/Levenshtein.h:48-73 | results: an empty operand gives the NullDistanceResults value of the true distance; a bound of at most 0 gives 0 iff the operands are equal, else -1; otherwise the result is -1 or within the clamped bound, and equals the bounded true distance whenever no banded run is needed |
| Levenshtein.Levenshtein.BoundedOrdered | include/Levenshtein.h:54-73 | with the shorter operand first: -1 or within the bound, and the bounded true distance whenever no banded run is needed |
| LevenshteinAsWritten.InitLoopAsWritten | include/Levenshtein.h:130 | `row[j] = ++j` as written leaves slot 0 untouched and writes k into slots 1..bound, one past the intended row |
| LevenshteinAsWritten.FullDistanceAsWritten | include/Levenshtein.h:128-166 | the full programme as written, starting from the row InitLoopAsWritten leaves; its contract is the example below |
| LevenshteinAsWritten.FillFrom | include/Levenshtein.h:172 | the second banded loop writes v into slots j..len2 - 1 and leaves the others |
| LevenshteinAsWritten.BandInitAsWritten | include/Levenshtein.h:171-172 | `row[j] = ++j` as written, then the fill: slot 0 keeps its old value, slot k holds k for 1 <= k < maxDistance (one less than intended), and slots maxDistance..len2 - 1 hold maxDistance + 1 |
| LevenshteinAsWritten.BandedAsWrittenRun | include/Levenshtein.h:168-218 | the banded programme as written, with a buffer of three zeros, gives 2 for "ab" against "cde" with bound 2 |
| LevenshteinAsWritten.BandedIntendedRun | include/Levenshtein.h:173-217 | the same band loops started from the intended row 1, 2, 3 give -1 on that input |
| LevenshteinAsWritten.BandedAsWrittenOvercounts | include/Levenshtein.h:171 | on that input the as-written result (2) is below the edit distance (3), which exceeds the bound, so -1 was due |
| LevenshteinAsWritten.AsWrittenRun | include/Levenshtein.h:128-166 | the full programme as written, with a buffer of three zeros, gives 1 for "a" against "bc" |
| LevenshteinAsWritten.AsWrittenUndercounts | include/Levenshtein.h:130 | on that input the as-written result (1) differs from the edit distance (2) |
| DamerauOsaSpec.Cell | include/DamerauOSA.h:152-161 | a cell is at most each option (deletion, insertion, substitution or match, and a transposition when the last two characters are swapped) |
| DamerauOsaSpec.CellChoice | include/DamerauOSA.h:152-161 | a cell takes the value of one of its options |
| DamerauOsaSpec.OsaMatch | include/DamerauOSA.h:152 | equal characters make an OSA cell equal to its diagonal |
| DamerauOsaSpec.OsaDistSymmetric | include/DamerauOSA.h:56-60 | the OSA distance is symmetric, so the operand swap is harmless |
| DamerauOsaSpec.OsaDistDropSuffix | include/Helpers.h:25-28 | a common suffix does not change the OSA distance |
| DamerauOsaSpec.OsaDistDropPrefix | include/Helpers.h:30-31 | a common prefix does not change the OSA distance |
| DamerauOsaSpec.OsaUpper | include/DamerauOSA.h:41 | the OSA distance is at most the longer length |
| DamerauOsaSpec.OsaLower | include/DamerauOSA.h:61 | the OSA distance is at least the length difference |
| DamerauOsaSpec.OsaDistZero | include/DamerauOSA.h:52 | the OSA distance is 0 exactly when the strings are equal |
| DamerauOsaSpec.OsaSwapAdjacent | include/DamerauOSA.h:156-161 | swapping two adjacent distinct characters costs exactly 1, e.g. "ab" against "ba" |
| DamerauOsa.OsaDistTrim | include/DamerauOSA.h:39-41 | trimming the common prefix and suffix leaves the OSA distance unchanged |
| DamerauOsa.NextRowHolds | include/DamerauOSA.h:145-163 | three consecutive rows of the OSA table are related as the row loop computes them |
| DamerauOsa.FullDistance | include/DamerauOSA.h:131-167 | the full programme returns the OSA distance of the middle parts |
| DamerauOsa.FirstRow | include/DamerauOSA.h:134-135 | the initialisation loop leaves slot k holding row 0 of the table at column k + 1, the cost of inserting k + 1 characters |
| DamerauOsa.CellCost | include/DamerauOSA.h:146-163 | one iteration of the inner loop, transposition included, computes the table's cell |
| DamerauOsa.FullRow | include/DamerauOSA.h:138-165 | one pass of the inner loop yields row i + 1 in char1Costs and row i in prevChar1Costs |
| DamerauOsa.BandedDistance | include/DamerauOSA.h:169-213 | the banded programme returns -1 or a value in [0, maxDistance] |
| DamerauOsa.DamerauOSA.constructor | include/DamerauOSA.h:21 | the default comparer starts with empty buffers |
| DamerauOsa.DamerauOSA.Create | include/DamerauOSA.h:23-27 | a length of at most 0 is refused; otherwise both buffers have that length |
| DamerauOsa.DamerauOSA.GrowBuffers | include/DamerauOSA.h:43-46 | both buffers are replaced by len2 zeros only when too short; the programmes work on copies and never write them |
| DamerauOsa.DamerauOSA.Distance | include/DamerauOSA.h:29-48 | the unbounded distance is the OSA distance of the operands |
| DamerauOsa.DamerauOSA.BoundedDistance | include/DamerauOSA.h:50-75 | as the Levenshtein bounded distance, for the OSA distance |
| DamerauOsa.DamerauOSA.BoundedOrdered | include/DamerauOSA.h:56-75 | with the shorter operand first: -1 or within the bound, and the bounded OSA distance whenever no banded run is needed |
| EditDistance.AlgorithmOf | include/EditDistance.h:14-17 | code 0 is Levenshtein, code 1 is Damerau-OSA, and any other code is unknown |
| EditDistance.EditDistance.Create | include/EditDistance.h:26-37 | an unknown algorithm is refused; otherwise the comparer of the chosen algorithm is selected |
| EditDistance.EditDistance.constructor | include/EditDistance.h:26-33 | the selected comparer is the one of the given algorithm |
| EditDistance.EditDistance.Compare | include/EditDistance.h:39-41 | the result is the selected comparer's bounded distance: -1 or within the bound; with an empty operand, 0 for equal operands and the capped distance otherwise; with a bound of at most 0, 0 exactly for equal operands and -1 otherwise; and the capped true distance whenever no banded run is needed |
| Deletes.Delete | library.cpp:565-566 | erasing one character shortens the string by one |
| Deletes.ClosedComplete | library.cpp:558-575 | a set closed under the recursion holds every subsequence within the recursion's depth |
| Deletes.Edits | library.cpp:558-575 | the result contains the given set, adds only subsequences of the word, and is closed under one more level of deletes while the level stays below the bound |
| Deletes.AddDelete | library.cpp:565-571 | inserting one delete, and recursing when it is new, keeps the set closed |
| Deletes.EditsPrefix | library.cpp:577-585 | the variants are "" when the key is at most the bound long, the key cut to prefixLength, and every non-empty subsequence of that prefix at most max(1, bound) shorter; "" is present exactly when the key is that short; all are subsequences of the prefix |
| Deletes.VariantsExact | library.cpp:577-585 | the set the generation leaves is exactly the closed-form set of variants |
| DeleteHash.CompactMaskValid | library.cpp:49-50 | every compact mask clears the sign bit and the two low bits |
| DeleteHash.MaskThenTag | library.cpp:605-606 | or-ing the length tag into the masked hash adds it |
| DeleteHash.HashShape | library.cpp:591-607 | the hash is non-negative, below 2^31, and its two low bits are min(length, 3) |
| DeleteHash.HashSeparatesLengthClasses | library.cpp:591-593 | strings of different length classes (0, 1, 2, 3 or more) never share a hash |
| DeleteHash.GetstringHash | library.cpp:587-608 | the loop folds FNV-1a over the bytes and then masks and tags, giving the hash as specified |
| IndexSpec.SaturateIsCappedSum | library.cpp:69 | the count addition is the sum capped at MAXINT |
| IndexSpec.Int32Of | library.cpp:63 | a 64-bit count stored into an `int` becomes a 32-bit value congruent to it |
| IndexSpec.Int32OfFits | library.cpp:68 | counts that fit 32 bits survive the truncation |
| IndexSpec.InsertIfAbsent | library.cpp:84 | the insert adds an absent key and keeps a present key's value |
| IndexSpec.AppendStep | library.cpp:101-104 | filing one more variant extends exactly the list under its hash |
| IndexSpec.AppendPerEditFiles | library.cpp:99-130 | every filed variant leaves the value in the list under its hash, and no list loses what it held |
| IndexSpec.AppendNothing | library.cpp:101-130 | filing no variants leaves the index unchanged |
| Suggestions.CompareTo | library.cpp:296-297 | negative iff the first ranks before the second (smaller distance, or equal distance and larger count), positive iff the reverse, zero iff distance and count tie |
| Suggestions.CompareToAntisymmetric | library.cpp:512-514 | swapping the arguments negates the comparison |
| Suggestions.PrecedesTransitive | library.cpp:512-514 | the ranking order is transitive through an item that is not ahead |
| Suggestions.InsertSorted | library.cpp:512-514 | inserting keeps the list sorted and adds exactly the item |
| Suggestions.SortSuggestions | library.cpp:511-514 | the result is sorted and a permutation of the input |
| Suggestions.PermutationKeepsDistinct | library.cpp:511-514 | sorting keeps the terms distinct |
| Suggestions.SuggestionStage.constructor | library.cpp:205 | a new stage holds nothing |
| Suggestions.SuggestionStage.Add | library.cpp:103 | the word is appended to the list of its hash, and nothing else changes |
| Suggestions.SuggestionStage.CommitTo | library.cpp:287-290 | the committed index has the keys of both, each list being the index's list followed by the staged one |
| Suggestions.CommitEmptyStage | library.cpp:287-290 | committing an empty stage leaves the index as it was |
| Suggestions.CommitKeepsEverything | library.cpp:287-290 | after a commit, the list under each hash holds exactly what the index and the stage held |
| LookupSpec.SubsequenceAccepted | library.cpp:520-533 | the collision check has no false negatives: every subsequence of the prefix is accepted |
| LookupSpec.AcceptedCharsOccur | library.cpp:526-531 | every character of an accepted string occurs in the prefix |
| LookupSpec.RepeatedCharAccepted | library.cpp:529 | the check is weaker than a subsequence test: "aa" is accepted against "ab" |
| LookupSpec.RankFound | library.cpp:511-514 | sorting what the search found gives a ranked list of reportable suggestions, which keeps all of them for All |
| LookupSpec.RankBest | library.cpp:466-486 | sorting what the search kept gives the items the verbosity promises (library.h:93-95): drawn from those measured and empty only if none was; every one for All; only the smallest distance for Top and Closest; all of those for Closest; the highest count among them for Top |
| LookupSpec.ReportableGrown | library.cpp:463 | zero-count words inserted by the count lookup do not make a reported suggestion wrong |
| SymSpellUtils.StripSpaces | library.cpp:876-877 | removing whitespace leaves no whitespace and never lengthens |
| SymSpellUtils.StripSpacesConcat | library.cpp:876-877 | whitespace removal distributes over concatenation |
| SymSpellUtils.LTrim | library.h:41-46 | the result is a suffix of the input, what was removed is all whitespace, and the result does not start with whitespace |
| SymSpellUtils.RTrim | library.h:48-52 | the result is a prefix of the input, what was removed is all whitespace, and the result does not end with whitespace |
| SymSpellUtils.Trim | library.h:54-57 | the result is a slice of the input with only whitespace removed around it, and does not start or end with whitespace |
| SymSpellUtils.Info.constructor | library.h:59-65 | a new composition is empty, at distance 0 and log-probability 0 |
| SymSpellUtils.Info.Set | library.h:67-88 | the getters return exactly the four values set, and the parts they were built from are recorded |
| SegmentationSpec.ComposeFirst | library.cpp:907-910 | a single corrected part of input[..i] is a cut whose four values are the part's own |
| SegmentationSpec.ComposeExtend | library.cpp:918-923 | a cut of input[..j] extended by a corrected part of input[j..j+i] is a cut of input[..j+i] whose strings gain a space and the part or its correction, whose distance gains the separator and the part's edits, and whose log-probability gains the part's |
| SegmentationSpec.ComposesSegmented | library.cpp:811-814 | the parts of any cut joined by spaces are the input prefix with whitespace moved; the distance sum is not negative; with bound 0 the corrected string is the segmented one |
| SegmentationSpec.ComposesGrown | library.cpp:463 | a cut stays a cut when the dictionary gains zero-count words through the count lookups |
| SegmentationSpec.SlotOkGrown | library.cpp:463 | a composition stays valid when the dictionary gains zero-count words |
| SegmentationSpec.PartCorrectedGrown | library.cpp:856-903 | a part's correction stays valid when the dictionary gains zero-count words |
| SegmentationSpec.ModOnce | library.cpp:905 | the destination index never wraps more than once |
| SegmentationSpec.DestinationLap | library.cpp:905 | destinationIndex is in [0, arraySize) and lies i slots ahead of circularIndex |
| SegmentationSpec.LastColumnRows | library.cpp:929 | after the last column the slot of circularIndex holds a composition of the whole input |
| SegmentationSpec.RowsComplete | library.cpp:852-926 | once every row of a column is done, every slot holds the composition of its prefix |
| SegmentationSpec.NextColumn | library.cpp:927 | advancing circularIndex by one (wrapping) starts the next column with the buffer where it expects it |
| SegmentationSpec.RowPlaced | library.cpp:905-925 | once the destination holds a composition of input[..j+i] and every other slot is as before, the column invariant holds for row i + 1 |
| SegmentationSpec.ColumnRowsGrown | library.cpp:856-903 | the column invariant survives the zero-count words a row's lookup inserts |
| SegmentationSpec.FirstColumnRows | library.cpp:846-852 | before the first column the invariant holds of any buffer |
| SegmentationSpec.ExtendComposition | library.cpp:920 | a composition of input[..j], a space and the part of input[j..j+i] make a composition of input[..j+i] |
| SegmentationSpec.StripSpacesIdempotent | library.cpp:876-877 | removing whitespace twice removes no more than once |
| SymSpellEngine.ParameterError | library.cpp:38-42 | construction is refused exactly when a parameter is out of range, naming initialCapacity and prefixLength under exactly their conditions, in the order of the checks |
| SymSpellEngine.EffectiveCount | library.cpp:58-62 | a non-positive count counts as 0, and a positive one is kept |
| SymSpellEngine.SymSpell.constructor | library.cpp:35-53 | accepted parameters give an empty engine with those parameters and the compact mask of the level |
| SymSpellEngine.SymSpell.Create | library.cpp:35-53 | a failure happens exactly when a check fails and names that parameter; success gives an empty engine with accessors returning the parameters |
| SymSpellEngine.SymSpell.MaxDictionaryEditDistance | library.cpp:5-8 | on a valid engine, the bound is non-negative and below the prefix length |
| SymSpellEngine.SymSpell.PrefixLength | library.cpp:10-13 | on a valid engine, the prefix length is at least 1 and above the bound |
| SymSpellEngine.SymSpell.MaxLength | library.cpp:15-18 | on a valid engine, the longest word length is not negative |
| SymSpellEngine.SymSpell.CountThreshold | library.cpp:20-23 | on a valid engine, the threshold is in [0, 2^31) |
| SymSpellEngine.SymSpell.WordCount | library.cpp:25-28 | the number of dictionary words: 0 exactly when the dictionary is empty |
| SymSpellEngine.SymSpell.EntryCount | library.cpp:30-33 | the number of delete hashes: 0 exactly when the index is empty |
| SymSpellEngine.DefaultsRefusedAsWritten | library.h:137-140 | the header's default arguments, bound in the definition's order (library.cpp:35-42), are refused with "prefixLength", and so are the arguments (1, 3) |
| SymSpellEngine.SymSpell.CreateInDeclaredOrder | library.h:137-140 | the corrected half of the library.h:137-140 finding: arguments in the header's order, each bound to the parameter of the same name, are refused exactly when a check of library.cpp:38-42 fails on them; otherwise the engine is empty and its accessors return them |
| SymSpellEngine.SymSpell.CreateDefault | library.h:4-9 | the corrected half of the library.h:137-140 finding: construction with every default, bound by name, succeeds with bound 2, prefix length 7, threshold 1, no words and no entries |
| SymSpellEngine.SymSpell.FileDirect | library.cpp:109-130 | the index gains an empty string under the hash of every variant, one per variant |
| SymSpellEngine.SymSpell.AppendBlank | library.cpp:111-129 | one variant's write appends one slot holding "" to its hash's list |
| SymSpellEngine.SymSpell.FileStaged | library.cpp:99-105 | the stage gains the word under the hash of every variant, one per variant |
| SymSpellEngine.SymSpell.CreateDictionaryEntry | library.cpp:55-135 | true exactly when the word is admitted, and then it enters the dictionary with its accumulated (saturated) count, leaves the parked words, raises the maximum length and has its variants filed; false changes nothing but the parked words |
| SymSpellEngine.SymSpell.Tally | library.cpp:58-91 | decides admission as above; a count of at most 0 with a positive threshold changes nothing; a new word below the threshold is parked |
| SymSpellEngine.SymSpell.AddWord | library.cpp:93-134 | the word is inserted without overwriting, the parked words are untouched, the maximum length becomes max(old, length), and the variants are filed through the stage or directly |
| SymSpellEngine.SymSpell.Enter | library.cpp:93-98 | the word is inserted without overwriting, the maximum length becomes max(old, length), and the parked words and the index are untouched |
| SymSpellEngine.SymSpell.FileVariants | library.cpp:99-130 | the variants are filed through the stage or directly, and the words, parked words and maximum length are untouched |
| SymSpellEngine.SymSpell.CommitStaged | library.cpp:287-290 | the index becomes the stage committed to it, and nothing else changes |
| SymSpellEngine.SymSpell.PurgeBelowThresholdWords | library.cpp:277-280 | the parked words are forgotten, and nothing else changes |
| SymSpellEngine.SymSpell.DeleteInSuggestionPrefix | library.cpp:521-533 | the scan's answer is the acceptance relation of the delete against the suggestion's prefix |
| SymSpellEngine.SymSpell.ConsiderSuggestion | library.cpp:400-488 | a word the length and prefix filters of library.cpp:402-408 reject changes nothing; any other word is weighed as Measure states, and it is offered (added to the list and to the measured items at its distance and count) exactly when it is kept within the current bound; the search invariant is kept: distinct, reportable suggestions within the shrinking bound, at most one for Top |
| SymSpellEngine.SymSpell.Measure | library.cpp:401-457 | a word is kept at most once (only when not yet considered) and with a non-negative distance; for an empty candidate the distance is the longer of the two lengths; for a one-character word it is the input length, less one when the character occurs in the input; otherwise a word that passes the suffix and prefix-order tests is marked considered and compared with the bounded comparer, and kept exactly when that comparison is not -1, while a word that fails them is neither marked nor kept |
| SymSpellEngine.SymSpell.AddSuggestion | library.cpp:459-488 | a new word within the current bound joins the measured items and both search invariants are kept: the suggestions are distinct and reportable; for Top and Closest no measured item lies below the bound; Closest keeps every measured item at the bound; Top's one suggestion has the highest count among them; the bound never rises; All appends exactly the item with the word's count |
| SymSpellEngine.SymSpell.ProcessBucket | library.cpp:394-490 | every word filed under a candidate's hash is weighed: afterwards each is either marked considered or dismissed by the filters and heuristics at the final bound; the search invariant is kept |
| SymSpellEngine.DismissedAtLowerBound | library.cpp:402-408 | a word dismissed at one bound stays dismissed when the bound shrinks, so dismissals made early in a bucket still hold at its end |
| SymSpellEngine.SymSpell.AddDeletes | library.cpp:495-508 | every single delete of the candidate is then known, only new ones are queued, and the queue only grows |
| SymSpellEngine.SymSpell.Search | library.cpp:353-509 | the search keeps both invariants, only adds to the items measured, and for All keeps the direct hit |
| SymSpellEngine.SymSpell.ProbeCandidates | library.cpp:376-509 | the worklist terminates, queuing only subsequences of the input prefix, and keeps both invariants while the items measured only grow |
| SymSpellEngine.SymSpell.ProcessCandidate | library.cpp:379-508 | one candidate keeps both invariants, only adds to the items measured, queues only subsequences of the input prefix, and stops early only below All |
| SymSpellEngine.SymSpell.Lookup | library.cpp:322-517 | a bound above the dictionary's is refused; the result is ranked, reportable and, over the items the search measured, what the verbosity asks for (Top: the highest count at the smallest distance; Closest: all at the smallest distance; All: all); a dictionary hit is at distance 0 and alone unless All; with bound 0 only the input can be found; a too-long input finds nothing; includeUnknown turns an empty result into (input, bound + 1, 0) |
| SymSpellEngine.SymSpell.Suggest | library.cpp:330-515 | the same guarantees, the verbosity meaning over the items the search measured included, without the refusal and the unknown entry |
| SymSpellEngine.SymSpell.DirectMatch | library.cpp:334-349 | the exact hit is reported when the input is short enough, and the search is skipped exactly on a too-long input, a bound of 0, or a hit that is not for All |
| SymSpellEngine.SymSpell.SearchAndRank | library.cpp:351-515 | the search and sort give a ranked list of reportable suggestions that is, over the items the search measured (a superset of those measured before it), what the verbosity asks for, and that keeps the direct hit for All |
| SymSpellEngine.SymSpell.Rank | library.cpp:511-514 | sorting yields a sorted permutation with distinct terms |
| SymSpellEngine.SymSpell.WordSegmentationDefault | library.cpp:815-818 | for a non-empty input and a longest dictionary word of at least one character, segmentation with the dictionary's bound and longest word succeeds, with the same guarantees as WordSegmentation |
| SymSpellEngine.SymSpell.WordSegmentationWithDistance | library.cpp:828-831 | for a non-empty input and a longest dictionary word of at least one character, segmentation with the longest word as part limit, with the guarantees of WordSegmentation |
| SymSpellEngine.SymSpell.WordSegmentation | library.cpp:842-930 | a bound above the dictionary's is refused; otherwise the result is a cut of the input into consecutive parts, each corrected as CorrectPart states, whose segmented and corrected strings are the parts and their corrections joined by spaces, whose distance is the parts' edits plus one per separator a part did not already start with, and whose log-probability is the sum of the parts'; the segmented string is the input with whitespace moved, the distance is not negative, and with bound 0 the corrected string is the segmented one |
| SymSpellEngine.SymSpell.NewInfos | library.cpp:845 | the buffer's compositions are distinct new objects |
| SymSpellEngine.SymSpell.SegmentColumns | library.cpp:846-928 | after all columns, circularIndex is in [0, arraySize) and its slot holds a cut of the whole input into corrected parts |
| SymSpellEngine.SymSpell.SegmentColumn | library.cpp:849-927 | one column moves the buffer from the prefixes from j on to those from j + 1 on, and the next circularIndex stays in [0, arraySize) |
| SymSpellEngine.SymSpell.CorrectAndPlace | library.cpp:853-925 | one row corrects its part and places it, keeping the column invariant |
| SymSpellEngine.SymSpell.SegmentRow | library.cpp:905-925 | placing row i keeps every slot of the buffer as the column invariant describes, the destination now holding a cut of input[..j+i] |
| SymSpellEngine.SymSpell.Place | library.cpp:905-925 | in the first column (j == 0) every row sets the destination to the corrected part; in a later column a row replaces the destination by the source extended with the part exactly on the conditions of library.cpp:912-918 (a part of length maxSegmentationWordLength, which a column nearer the end than that never reaches; or a distance equal to the destination's, with or without the separator, and a higher log-probability; or a smaller distance) and leaves it unchanged otherwise; either way it holds a cut of input[..j+i] |
| SymSpellEngine.SymSpell.CorrectPart | library.cpp:856-903 | the part loses a leading whitespace character at no cost (which spares the separator penalty 1), then all its whitespace, each stripped character costing one edit; it is corrected by a Top lookup or kept as unknown at the cost of its length; a dictionary word short enough is kept as is |

## Left out

- Characters are bytes: `xstring` is `std::string` (include/Defines.h:31), since `UNICODE_SUPPORT` is not defined (library.h:3), so lengths, prefix cuts, hashes and edit distances all count bytes. A Dafny `string` stands for that byte string, one `char` per byte, and is meant to hold only characters below 256; `DeleteHash.CharBits` reads a character through its low byte, so a character of 256 or above, which has no counterpart in the source, is aliased to that byte. The UTF-8 encoding the Python binding applies is not modelled: a word with a multi-byte character is modelled by its bytes, one `char` each (for instance "café" is five characters, and two byte edits away from "cafe").

- I/O and loading: `LoadDictionary`, `LoadBigramDictionary` and `CreateDictionary` (library.cpp:137-272) read files and streams and parse with `stoll`. A bulk load is a sequence of `CreateDictionaryEntry` calls with a stage, then `CommitStaged`.
- `ParseWords` (library.cpp:537-554) depends on a regular expression and is not modelled.
- `LookupCompound` (library.cpp:611-807) is not modelled. It rests on floating-point count estimates and on `ParseWords`.
- `Similarity`, `ToSimilarity`, `ToDistance` and `NullSimilarityResults` are not modelled. They are floating-point.
- Floating point in word segmentation: `log10` of count / N and of the unknown-word estimate become the real-valued parameters `logProbability` and `unknownLogProbability`. Segmentation compares their sums as reals.
- `DeleteDictionaryEntry` and the `transferCasing` overloads are declared in library.h but have no body in library.cpp. They are not modelled.
- The Python binding, serialization, `SymSpellCppPy.cpp`, and the `bigrams` fields are not modelled.
- The definitions of `SuggestItem` and `SuggestionStage` are not part of this model's source files. `SuggestionStage` is modelled as a hash-to-list accumulator. Its chunked linked-list storage is not modelled.
- Bounded comparisons take an integer bound. The `double` bound and its `ceil` are not modelled.
- Levenshtein.BandedDistance: states only that the result is -1 or within the bound, not that a non-negative result is the true distance. Inside the band each cell is computed from neighbours that may lie outside it; those slots hold values from earlier rows, or the fill value maxDistance + 1, rather than the table's cells. Relating them to the table needs an invariant bounding the true cells outside the band from below, which is not part of this model.
- DamerauOsa.BandedDistance: states only that the result is -1 or within the bound, not that a non-negative result is the true distance, for the same reason: the cells just outside the band are stale, and no invariant relates them to the OSA table.
- Levenshtein.Levenshtein.BoundedDistance: ties the result to the true distance only when no banded run is needed.
- Levenshtein.Levenshtein.BoundedOrdered: the same gap as BoundedDistance; the result of a banded run is only bounded.
- DamerauOsa.DamerauOSA.BoundedDistance: ties the result to the true distance only when no banded run is needed.
- DamerauOsa.DamerauOSA.BoundedOrdered: the same gap as BoundedDistance; the result of a banded run is only bounded.
- SymSpellEngine.SymSpell.Lookup: the distance of a reported suggestion is bounded, not proved equal to the OSA distance. The one-character and empty-candidate shortcuts of library.cpp:419-436 do not measure it.
- SymSpellEngine.SymSpell.Lookup: completeness (every dictionary word within the bound is found) is not proved. The verbosity meaning is stated over the ghost set of items the search measured, and that set is not tied to the dictionary.
- SymSpellEngine.SymSpell.Suggest: the verbosity meaning holds over the items the search measured; that set is not tied to the dictionary, and completeness is not proved.
- SymSpellEngine.SymSpell.SearchAndRank: the same gap as Suggest; the measured set is not tied to the dictionary.
- SymSpellEngine.SymSpell.WordSegmentation: requires a non-empty input and a part length of at least 1. With an empty input `arraySize` is 0, the loops do not run and `compositions[-1]` is read (library.cpp:844-845, 929); with a part length of 0 the array is empty too and `compositions[0]` of the empty vector is read; a negative part length makes the `vector<Info>` of library.cpp:845 throw. Optimality of the chosen composition is not proved.
- SymSpellEngine.SymSpell.WordSegmentationDefault: requires a non-empty input and a longest dictionary word of at least one character (`maxDictionaryWordLength >= 1`). With no words, or only the empty word, the longest word length is 0, so the part length is 0 and the source reads from an empty vector, as for WordSegmentation.
- SymSpellEngine.SymSpell.WordSegmentationWithDistance: requires a non-empty input and a longest dictionary word of at least one character, for the same reason as WordSegmentationDefault.
- SymSpellEngine.SymSpell.constructor: the index of deletes is an empty map from construction. In the source `deletes` is a `shared_ptr` the constructor never sets (library.h:111, library.cpp:35-53); only the loaders allocate it (library.cpp:230-231, 267). Before a load, the direct path of `CreateDictionaryEntry` (library.cpp:112), `CommitStaged` (library.cpp:289) and the search of `Lookup` (library.cpp:394) dereference a null pointer; the model treats the index as empty there.
- SymSpellEngine.SymSpell.Create: the same as the constructor; the fresh engine's index is modelled as allocated and empty.
- SymSpellEngine.SymSpell.CreateDefault: the same as the constructor; `EntryCount() == 0` holds of the model, while the source's `EntryCount` dereferences the null `deletes` until a load.
- SymSpellEngine.SymSpell.EntryCount: before any load the source dereferences a null `deletes` (library.cpp:32); the model returns 0.
- Suggestions.SortSuggestions: the order of items that tie on distance and count is left open; `std::sort` is not stable.
- SymSpellEngine.SymSpell.WordCount: the count is unbounded; the conversion of `size()` to `int` is not modelled. The same holds for SymSpellEngine.SymSpell.EntryCount.
- `Info.parts` is proof state only: it records the parts a composition was built from, and the source has no such field.
- Integer widths: counts are bounded by MAXINT, and a count read into an `int` is truncated as `Int32Of` states. Other 32-bit overflows (lengths, `maxEditDistance + 1`) are not modelled.
- Hash-table capacities (`initialCapacity`, `reserve`) have no observable effect and are kept only as a parameter.

## Findings

| source | as written | input that shows it | evidently intended | confidence | as-written member | corrected member |
|---|---|---|---|---|---|---|
| include/Levenshtein.h:130 | `for (int j = 0; j < len2;) char1Costs[j] = ++j;` evaluates `++j` before the index (C++17), so slot 0 keeps its old value and slot len2 is written past the row | comparer built with expectedMaxstringLength 3 (buffer 0, 0, 0), then "a" against "bc": the full programme returns 1, the edit distance is 2 | the row initialised to 1, 2, ..., len2 | not executed | LevenshteinAsWritten.AsWrittenUndercounts | Levenshtein.FullDistance |
| include/Levenshtein.h:171-172 | `for (j = 0; j < maxDistance;) char1Costs[j] = ++j;` then the fill with maxDistance + 1: slot 0 keeps its old value, and slots 1..maxDistance - 1 hold k instead of k + 1 | default comparer (buffer grown to 0, 0, 0), "ab" against "cde" with bound 2: the row starts as 0, 1, 3 and the banded programme returns 2, but the edit distance is 3 | the row initialised to 1, ..., maxDistance, then maxDistance + 1, which gives -1 on that input | not executed | LevenshteinAsWritten.BandedAsWrittenOvercounts | Levenshtein.BandInit |
| library.h:137-140 | the header declares the constructor as (maxDictionaryEditDistance, prefixLength, countThreshold, initialCapacity, compactLevel), but library.cpp:35-36 defines it as (initialCapacity, maxDictionaryEditDistance, prefixLength, countThreshold, compactLevel), so the arguments land in the wrong parameters | `SymSpell()` binds initialCapacity 2, maxDictionaryEditDistance 7, prefixLength 1, and the check of library.cpp:40 refuses it with "prefixLength"; `SymSpell(1, 3)` is refused the same way | the defaults accepted, giving bound 2, prefix length 7 and threshold 1 | not executed; the header and the definition read here are from different revisions and do not compile together (library.h:116 declares `MaxDictionaryEditDistance` `const`, library.cpp:5 defines it without; library.h:142 takes the stage of `CreateDictionaryEntry` as a `shared_ptr`, library.cpp:55 as a raw pointer), so no buildable release is shown to bind the arguments this way | SymSpellEngine.DefaultsRefusedAsWritten | SymSpellEngine.SymSpell.CreateDefault, SymSpellEngine.SymSpell.CreateInDeclaredOrder |
