/**
 * Reference definitions for word segmentation: the circular buffer of
 * best compositions, indexed by prefix length, and what a composition
 * of a prefix holds.
 */
module SegmentationSpec {
  import opened SymSpellUtils
  import opened IndexSpec

  /** An index into the circular buffer of size size pushed at most one
    * lap past its end, brought back. */
  function Wrap(x: int, size: int): int
  {
    if x >= size then x - size else x
  }

  /** The destination index (i + circularIndex) % arraySize never needs
    * more than one lap: it is Wrap of the sum. */
  lemma ModOnce(x: int, size: int)
    requires size >= 1 && 0 <= x < 2 * size
    ensures x % size == Wrap(x, size)
  {
    if x >= size {
      assert x == 1 * size + (x - size);
    }
  }

  /** What the corrections of a segmentation are weighed against: the
    * largest edit distance allowed per part, the dictionary, and the
    * log-probabilities of known words (by count) and of unknown parts (by
    * length). */
  datatype Scoring = Scoring(maxEditDistance: int, words: map<string, int>,
                             logProbability: int -> real, unknownLogProbability: int -> real)

  /** The piece's text is a non-empty slice of input, corrected as
    * PartCorrected describes. */
  ghost predicate PieceCorrected(p: Piece, input: string, sc: Scoring)
  {
    p.start < p.end <= |input| &&
    PartCorrected(p.pc, input[p.start..p.end], sc.maxEditDistance, sc.words, sc.logProbability, sc.unknownLogProbability)
  }

  /** ps cuts input[..len] into consecutive non-empty parts, each
    * corrected: the last piece ends at len, and the ones before it cut the
    * text before its start (the first one starts at 0). */
  ghost predicate Composes(ps: seq<Piece>, input: string, len: int, sc: Scoring)
    decreases |ps|
  {
    |ps| >= 1 && ps[|ps| - 1].end == len && PieceCorrected(ps[|ps| - 1], input, sc) &&
    if |ps| == 1 then ps[0].start == 0 else Composes(ps[..|ps| - 1], input, ps[|ps| - 1].start, sc)
  }

  /** The parts joined by single spaces. */
  function SegmentedOf(ps: seq<Piece>): string
    requires |ps| >= 1
  {
    if |ps| == 1 then ps[0].pc.part else SegmentedOf(ps[..|ps| - 1]) + " " + ps[|ps| - 1].pc.part
  }

  /** The corrections joined by single spaces. */
  function CorrectedOf(ps: seq<Piece>): string
    requires |ps| >= 1
  {
    if |ps| == 1 then ps[0].pc.topResult else CorrectedOf(ps[..|ps| - 1]) + " " + ps[|ps| - 1].pc.topResult
  }

  /** The edits charged: every part's, plus one for each space inserted in
    * front of a part after the first. */
  function DistanceOf(ps: seq<Piece>): int
    requires |ps| >= 1
  {
    if |ps| == 1 then ps[0].pc.topEd
    else DistanceOf(ps[..|ps| - 1]) + ps[|ps| - 1].pc.separatorLength + ps[|ps| - 1].pc.topEd
  }

  /** The sum of the parts' log-probabilities. */
  function ProbabilityOf(ps: seq<Piece>): real
    requires |ps| >= 1
  {
    if |ps| == 1 then ps[0].pc.topProbabilityLog
    else ProbabilityOf(ps[..|ps| - 1]) + ps[|ps| - 1].pc.topProbabilityLog
  }

  /** (seg, cor, d, prob) are the segmented string, corrected string,
    * distance sum and log-probability sum of the composition ps of
    * input[..len]: the joins and sums of its parts. */
  ghost predicate Cut(ps: seq<Piece>, seg: string, cor: string, d: int, prob: real, input: string, len: int, sc: Scoring)
  {
    Composes(ps, input, len, sc) &&
    seg == SegmentedOf(ps) && cor == CorrectedOf(ps) && d == DistanceOf(ps) && prob == ProbabilityOf(ps)
  }

  /** The segmented string of a composition of input[..len] is that prefix
    * with spaces moved, its distance sum is not negative, and without
    * correction its corrected string is the segmented one. */
  lemma {:induction false} ComposesSegmented(ps: seq<Piece>, input: string, len: int, sc: Scoring)
    requires Composes(ps, input, len, sc)
    ensures 0 <= len <= |input| && StripSpaces(SegmentedOf(ps)) == StripSpaces(input[..len])
    ensures DistanceOf(ps) >= 0
    ensures sc.maxEditDistance == 0 ==> CorrectedOf(ps) == SegmentedOf(ps)
    decreases |ps|
  {
    var last := ps[|ps| - 1];
    if |ps| == 1 {
      assert input[0..len] == input[..len];
    } else {
      var init := ps[..|ps| - 1];
      ComposesSegmented(init, input, last.start, sc);
      ExtendComposition(SegmentedOf(init), last.pc.part, input, last.start, last.end - last.start);
    }
  }

  /** info holds the composition of input[..len] its parts record. */
  ghost predicate SlotOk(info: Info, input: string, len: int, sc: Scoring)
    reads info
  {
    Cut(info.parts, info.segmentedstring, info.correctedstring, info.distanceSum, info.probabilityLogSum, input, len, sc)
  }

  /** A single corrected part is a composition of the prefix it covers. */
  lemma ComposeFirst(pc: PartCorrection, input: string, i: nat, sc: Scoring)
    requires 1 <= i <= |input|
    requires PartCorrected(pc, input[0..i], sc.maxEditDistance, sc.words, sc.logProbability, sc.unknownLogProbability)
    ensures Cut([Piece(0, i, pc)], pc.part, pc.topResult, pc.topEd, pc.topProbabilityLog, input, i, sc)
  {
  }

  /** A composition of input[..j] followed by a space and the corrected
    * part input[j..j + i] is one of input[..j + i]. */
  lemma ComposeExtend(ps: seq<Piece>, seg: string, cor: string, d: int, prob: real, pc: PartCorrection,
                      input: string, j: nat, i: nat, sc: Scoring)
    requires Cut(ps, seg, cor, d, prob, input, j, sc) && 1 <= i && j + i <= |input|
    requires PartCorrected(pc, input[j..j + i], sc.maxEditDistance, sc.words, sc.logProbability, sc.unknownLogProbability)
    ensures Cut(ps + [Piece(j, j + i, pc)], seg + " " + pc.part, cor + " " + pc.topResult,
                d + pc.separatorLength + pc.topEd, prob + pc.topProbabilityLog, input, j + i, sc)
  {
    var qs := ps + [Piece(j, j + i, pc)];
    assert qs[..|ps|] == ps;
  }

  /** A correction stays valid when the dictionary grows by new words. */
  lemma PartCorrectedGrown(pc: PartCorrection, part0: string, sc: Scoring, words: map<string, int>)
    requires |part0| >= 1 && Grown(sc.words, words)
    requires PartCorrected(pc, part0, sc.maxEditDistance, sc.words, sc.logProbability, sc.unknownLogProbability)
    ensures PartCorrected(pc, part0, sc.maxEditDistance, words, sc.logProbability, sc.unknownLogProbability)
  {
  }

  /** A composition stays one when the dictionary grows by new words. */
  lemma {:induction false} ComposesGrown(ps: seq<Piece>, input: string, len: int, sc: Scoring, words: map<string, int>)
    requires Composes(ps, input, len, sc) && Grown(sc.words, words)
    ensures Composes(ps, input, len, sc.(words := words))
    decreases |ps|
  {
    var last := ps[|ps| - 1];
    PartCorrectedGrown(last.pc, input[last.start..last.end], sc, words);
    if |ps| > 1 {
      ComposesGrown(ps[..|ps| - 1], input, last.start, sc, words);
    }
  }

  /** A slot keeps its composition when the dictionary grows by new words. */
  lemma SlotOkGrown(info: Info, input: string, len: int, sc: Scoring, words: map<string, int>)
    requires SlotOk(info, input, len, sc) && Grown(sc.words, words)
    ensures SlotOk(info, input, len, sc.(words := words))
  {
    ComposesGrown(info.parts, input, len, sc, words);
  }

  /** When row i puts the composition of input[..j] (distance srcDist,
    * log-probability srcProb) extended by the part in place of the one of
    * input[..j + i] (dstDist, dstProb): the part is as long as parts may
    * be, or the extension costs the same as or one separator more than
    * the present one and is more probable, or it costs less. */
  predicate Replaces(i: int, maxSegmentationWordLength: int, pc: PartCorrection,
                     srcDist: int, srcProb: real, dstDist: int, dstProb: real)
  {
    i == maxSegmentationWordLength ||
    ((srcDist + pc.topEd == dstDist || srcDist + pc.separatorLength + pc.topEd == dstDist) &&
     dstProb < srcProb + pc.topProbabilityLog) ||
    srcDist + pc.separatorLength + pc.topEd < dstDist
  }

  /** The slots of the buffer are different objects. */
  ghost predicate DistinctSlots(c: array<Info>)
    reads c
  {
    forall a, b :: 0 <= a < c.Length && 0 <= b < c.Length && a != b ==> c[a] != c[b]
  }

  /** Every slot of the buffer is one of slots. */
  ghost predicate InSlots(c: array<Info>, slots: set<Info>)
    reads c
  {
    forall k :: 0 <= k < c.Length ==> c[k] in slots
  }

  /** How many prefix lengths past the current column j the composition in
    * slot k lies, when circularIndex is the slot of the prefix of length
    * j: 1 for the slot after circularIndex, size for circularIndex itself,
    * whose composition is overwritten last. */
  function Lap(k: int, circularIndex: int, size: int): int
  {
    if k > circularIndex then k - circularIndex else k - circularIndex + size
  }

  /** The destination index of row i is the slot i laps ahead. */
  lemma DestinationLap(i: int, circularIndex: int, size: int)
    requires -1 <= circularIndex < size && 1 <= i <= size
    ensures 0 <= (i + circularIndex) % size < size && Lap((i + circularIndex) % size, circularIndex, size) == i
  {
    ModOnce(i + circularIndex, size);
  }

  /** The slot lap rows ahead of circularIndex during column j, rows 1 to
    * i - 1 done: it holds the composition of input[..j + lap] when its row
    * is done or (after the first column) still to come; the slot of
    * circularIndex itself (lap == size) holds that of input[..j] until row
    * size overwrites it. */
  ghost predicate RowHeld(info: Info, lap: int, size: int, j: int, i: int, input: string, sc: Scoring)
    reads info
  {
    (lap < i && j + lap <= |input| ==> SlotOk(info, input, j + lap, sc)) &&
    (j >= 1 && i <= lap < size && j + lap <= |input| ==> SlotOk(info, input, j + lap, sc)) &&
    (j >= 1 && lap == size && i <= size ==> SlotOk(info, input, j, sc))
  }

  /** Every slot as RowHeld describes it. */
  ghost predicate ColumnRows(c: array<Info>, circularIndex: int, j: int, i: int, input: string, sc: Scoring)
    reads c, c[..]
  {
    forall k :: 0 <= k < c.Length ==> RowHeld(c[k], Lap(k, circularIndex, c.Length), c.Length, j, i, input, sc)
  }

  /** Row i done: its destination (the slot i laps ahead) holds the
    * composition of input[..j + i], and every other slot is held as
    * before. */
  lemma RowPlaced(c: array<Info>, circularIndex: int, j: int, i: int, input: string, sc: Scoring, destinationIndex: int)
    requires -1 <= circularIndex < c.Length && 1 <= i <= c.Length
    requires 0 <= destinationIndex < c.Length && Lap(destinationIndex, circularIndex, c.Length) == i
    requires SlotOk(c[destinationIndex], input, j + i, sc)
    requires forall k :: 0 <= k < c.Length && k != destinationIndex ==>
      RowHeld(c[k], Lap(k, circularIndex, c.Length), c.Length, j, i, input, sc)
    ensures ColumnRows(c, circularIndex, j, i + 1, input, sc)
  {
    forall k | 0 <= k < c.Length
      ensures RowHeld(c[k], Lap(k, circularIndex, c.Length), c.Length, j, i + 1, input, sc)
    {
      if k != destinationIndex {
        assert Lap(k, circularIndex, c.Length) != i;
      }
    }
  }

  /** The slot lap rows ahead of circularIndex after column j: it holds the
    * composition of input[..j + lap]. */
  ghost predicate DoneHeld(info: Info, lap: int, j: int, input: string, sc: Scoring)
    reads info
  {
    j + lap <= |input| ==> SlotOk(info, input, j + lap, sc)
  }

  /** Every slot as DoneHeld describes it. */
  ghost predicate ColumnDone(c: array<Info>, circularIndex: int, j: int, input: string, sc: Scoring)
    reads c, c[..]
  {
    forall k :: 0 <= k < c.Length ==> DoneHeld(c[k], Lap(k, circularIndex, c.Length), j, input, sc)
  }

  /** Before the first column nothing is expected of the buffer. */
  lemma FirstColumnRows(c: array<Info>, input: string, sc: Scoring)
    ensures ColumnRows(c, -1, 0, 1, input, sc)
  {
    forall k | 0 <= k < c.Length
      ensures RowHeld(c[k], Lap(k, -1, c.Length), c.Length, 0, 1, input, sc)
    {
    }
  }

  /** After the last column the slot of circularIndex holds a composition
    * of the whole input. */
  lemma LastColumnRows(c: array<Info>, circularIndex: int, input: string, sc: Scoring)
    requires 0 <= circularIndex < c.Length && |input| >= 1
    requires ColumnRows(c, circularIndex, |input|, 1, input, sc)
    ensures SlotOk(c[circularIndex], input, |input|, sc)
  {
    assert Lap(circularIndex, circularIndex, c.Length) == c.Length;
    assert RowHeld(c[circularIndex], c.Length, c.Length, |input|, 1, input, sc);
  }

  /** Once every row of column j is done, the column is. */
  lemma RowsComplete(c: array<Info>, circularIndex: int, j: int, imax: int, maxSegmentationWordLength: int,
                     input: string, sc: Scoring)
    requires c.Length == if maxSegmentationWordLength < |input| then maxSegmentationWordLength else |input|
    requires imax == if |input| - j < maxSegmentationWordLength then |input| - j else maxSegmentationWordLength
    requires -1 <= circularIndex < c.Length
    requires ColumnRows(c, circularIndex, j, imax + 1, input, sc)
    ensures ColumnDone(c, circularIndex, j, input, sc)
  {
    forall k | 0 <= k < c.Length
      ensures DoneHeld(c[k], Lap(k, circularIndex, c.Length), j, input, sc)
    {
      assert RowHeld(c[k], Lap(k, circularIndex, c.Length), c.Length, j, imax + 1, input, sc);
    }
  }

  /** Advancing circularIndex past column j starts column j + 1 with the
    * buffer where it expects it. */
  lemma NextColumn(c: array<Info>, circularIndex: int, j: int, input: string, sc: Scoring)
    requires -1 <= circularIndex < c.Length && 0 <= j < |input|
    requires ColumnDone(c, circularIndex, j, input, sc)
    ensures ColumnRows(c, Wrap(circularIndex + 1, c.Length), j + 1, 1, input, sc)
  {
    var next := Wrap(circularIndex + 1, c.Length);
    var column := j + 1;
    forall k | 0 <= k < c.Length
      ensures RowHeld(c[k], Lap(k, next, c.Length), c.Length, column, 1, input, sc)
    {
      assert DoneHeld(c[k], Lap(k, circularIndex, c.Length), j, input, sc);
      var lap := Lap(k, next, c.Length);
      if lap < c.Length {
        assert Lap(k, circularIndex, c.Length) == lap + 1;
      } else {
        assert Lap(k, circularIndex, c.Length) == 1;
      }
    }
  }

  /** The slots keep their compositions when the dictionary grows by new
    * words. */
  lemma ColumnRowsGrown(c: array<Info>, circularIndex: int, j: int, i: int, input: string, sc: Scoring,
                        words: map<string, int>)
    requires ColumnRows(c, circularIndex, j, i, input, sc) && Grown(sc.words, words)
    ensures ColumnRows(c, circularIndex, j, i, input, sc.(words := words))
  {
    forall k | 0 <= k < c.Length
      ensures RowHeld(c[k], Lap(k, circularIndex, c.Length), c.Length, j, i, input, sc.(words := words))
    {
      var lap := Lap(k, circularIndex, c.Length);
      assert RowHeld(c[k], lap, c.Length, j, i, input, sc);
      if lap < i && j + lap <= |input| {
        SlotOkGrown(c[k], input, j + lap, sc, words);
      }
      if j >= 1 && i <= lap < c.Length && j + lap <= |input| {
        SlotOkGrown(c[k], input, j + lap, sc, words);
      }
      if j >= 1 && lap == c.Length && i <= c.Length {
        SlotOkGrown(c[k], input, j, sc, words);
      }
    }
  }

  /** Extending a composition of input[..j] by a space and a part that is
    * input[j..j + i] with spaces moved gives one of input[..j + i]. */
  lemma ExtendComposition(seg: string, part: string, input: string, j: nat, i: nat)
    requires j + i <= |input|
    requires StripSpaces(seg) == StripSpaces(input[..j]) && StripSpaces(part) == StripSpaces(input[j..j + i])
    ensures StripSpaces(seg + " " + part) == StripSpaces(input[..j + i])
  {
    StripSpacesConcat(seg, " ");
    StripSpacesConcat(seg + " ", part);
    assert StripSpaces(" ") == [];
    assert input[..j + i] == input[..j] + input[j..j + i];
    StripSpacesConcat(input[..j], input[j..j + i]);
  }

  /** Removing whitespace twice removes no more than once. */
  lemma {:induction false} StripSpacesIdempotent(s: string)
    ensures StripSpaces(StripSpaces(s)) == StripSpaces(s)
    decreases |s|
  {
    if s != [] {
      StripSpacesIdempotent(s[1..]);
      if !IsSpace(s[0]) {
        assert ([s[0]] + StripSpaces(s[1..]))[1..] == StripSpaces(s[1..]);
      }
    }
  }

  /** The part weighed for input text part0: without a leading whitespace
    * character (which spares the separator) and without whitespace at
    * all, each whitespace character removed costing one edit. Its
    * correction is either a dictionary word, within maxEditDistance of the
    * part unless it is the part itself, with that word's log-probability;
    * or the part kept as an unknown word, charged one edit per character
    * and the unknown-word log-probability of its length. */
  ghost predicate PartCorrected(pc: PartCorrection, part0: string, maxEditDistance: int, words: map<string, int>,
                                logProbability: int -> real, unknownLogProbability: int -> real)
    requires |part0| >= 1
  {
    var trimmed := if IsSpace(part0[0]) then part0[1..] else part0;
    var removed := |trimmed| - |pc.part|;
    pc.separatorLength == (if IsSpace(part0[0]) then 0 else 1) &&
    pc.part == StripSpaces(trimmed) && StripSpaces(pc.part) == StripSpaces(part0) &&
    pc.topEd >= removed >= 0 &&
    ((pc.topResult in words && pc.topProbabilityLog == logProbability(words[pc.topResult]) &&
      (pc.topResult == pc.part ==> pc.topEd == removed) &&
      (pc.topResult != pc.part ==> pc.topEd <= removed + maxEditDistance)) ||
     (pc.topResult == pc.part && pc.topEd == |trimmed| && pc.topProbabilityLog == unknownLogProbability(|pc.part|))) &&
    (maxEditDistance == 0 ==> pc.topResult == pc.part)
  }
}
