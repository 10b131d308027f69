/**
 * The optimal-string-alignment distance that the Damerau-OSA comparer
 * computes: unit-cost insertion, deletion and substitution, plus the
 * transposition of two adjacent characters at cost 1 (no substring is
 * edited twice). Defined by its recurrence, with the facts the comparer
 * relies on.
 */
module DamerauOsaSpec {
  import opened Helpers

  /** Whether cell (i, j) may be reached by swapping a[i-2..i] into
    * b[j-2..j]. */
  predicate Transposable(a: string, b: string, i: nat, j: nat)
    requires i <= |a| && j <= |b|
  {
    i > 1 && j > 1 && a[i - 1] == b[j - 2] && a[i - 2] == b[j - 1]
  }

  /** One cell from its neighbours: the cheapest of deleting (up),
    * inserting (left), substituting or matching (diag), and, when the last
    * two characters are swapped, transposing (twoBack). */
  function Cell(up: nat, left: nat, diag: nat, same: bool, transposable: bool, twoBack: nat): (c: nat)
    ensures c <= up + 1 && c <= left + 1 && c <= diag + (if same then 0 else 1)
    ensures transposable ==> c <= twoBack + 1
  {
    var m := Min3(up + 1, left + 1, diag + (if same then 0 else 1));
    if transposable && twoBack + 1 < m then twoBack + 1 else m
  }

  /** A cell takes the value of one of its options. */
  lemma CellChoice(up: nat, left: nat, diag: nat, same: bool, transposable: bool, twoBack: nat)
    ensures var c := Cell(up, left, diag, same, transposable, twoBack);
      c == up + 1 || c == left + 1 || c == diag + (if same then 0 else 1) || (transposable && c == twoBack + 1)
  {
  }

  /** The cell does not depend on which neighbour is called "up". */
  lemma CellSwap(up: nat, left: nat, diag: nat, same: bool, transposable: bool, twoBack: nat)
    ensures Cell(up, left, diag, same, transposable, twoBack) == Cell(left, up, diag, same, transposable, twoBack)
  {
  }

  /** Optimal-string-alignment distance between a[..i] and b[..j]. */
  function Osa(a: string, b: string, i: nat, j: nat): nat
    requires i <= |a| && j <= |b|
    decreases i + j
  {
    if i == 0 then j
    else if j == 0 then i
    else Cell(Osa(a, b, i - 1, j), Osa(a, b, i, j - 1), Osa(a, b, i - 1, j - 1), a[i - 1] == b[j - 1],
              Transposable(a, b, i, j), if i > 1 && j > 1 then Osa(a, b, i - 2, j - 2) else 0)
  }

  function OsaDist(a: string, b: string): nat
  {
    Osa(a, b, |a|, |b|)
  }

  /** An inner cell from its neighbours. */
  lemma OsaUnfold(a: string, b: string, i: nat, j: nat)
    requires 1 <= i <= |a| && 1 <= j <= |b|
    ensures Osa(a, b, i, j) == Cell(Osa(a, b, i - 1, j), Osa(a, b, i, j - 1), Osa(a, b, i - 1, j - 1), a[i - 1] == b[j - 1],
                                    Transposable(a, b, i, j), if i > 1 && j > 1 then Osa(a, b, i - 2, j - 2) else 0)
  {
  }

  /** The three unit steps bound every inner cell. */
  lemma OsaSteps(a: string, b: string, i: nat, j: nat)
    requires 1 <= i <= |a| && 1 <= j <= |b|
    ensures Osa(a, b, i, j) <= Osa(a, b, i - 1, j) + 1
    ensures Osa(a, b, i, j) <= Osa(a, b, i, j - 1) + 1
    ensures Osa(a, b, i, j) <= Osa(a, b, i - 1, j - 1) + 1
  {
  }

  /** A value within one of every option of a cell is within one of the
    * cell. */
  lemma CellNear(x: int, up: nat, left: nat, diag: nat, same: bool, transposable: bool, twoBack: nat)
    requires x <= up + 2 && x <= left + 2 && x <= diag + 1 && (transposable ==> x <= twoBack + 2)
    ensures x <= Cell(up, left, diag, same, transposable, twoBack) + 1
  {
    CellChoice(up, left, diag, same, transposable, twoBack);
  }

  /** Neighbouring cells of a row differ by at most one (one direction). */
  lemma {:induction false} OsaColStep(a: string, b: string, i: nat, j: nat)
    requires i <= |a| && j < |b|
    ensures Osa(a, b, i, j) <= Osa(a, b, i, j + 1) + 1
    decreases i
  {
    if i > 0 {
      OsaColStep(a, b, i - 1, j);
      OsaUnfold(a, b, i, j + 1);
      if j > 0 {
        OsaSteps(a, b, i, j);
        if i > 1 {
          OsaSteps(a, b, i - 1, j);
        }
      }
      CellNear(Osa(a, b, i, j), Osa(a, b, i - 1, j + 1), Osa(a, b, i, j), Osa(a, b, i - 1, j), a[i - 1] == b[j],
               Transposable(a, b, i, j + 1), if i > 1 && j + 1 > 1 then Osa(a, b, i - 2, j - 1) else 0);
    }
  }

  /** Neighbouring cells of a column differ by at most one (one direction). */
  lemma {:induction false} OsaRowStep(a: string, b: string, i: nat, j: nat)
    requires i < |a| && j <= |b|
    ensures Osa(a, b, i, j) <= Osa(a, b, i + 1, j) + 1
    decreases j
  {
    if j > 0 {
      OsaRowStep(a, b, i, j - 1);
      OsaUnfold(a, b, i + 1, j);
      if i > 0 {
        OsaSteps(a, b, i, j);
        if j > 1 {
          OsaSteps(a, b, i, j - 1);
        }
      }
      CellNear(Osa(a, b, i, j), Osa(a, b, i, j), Osa(a, b, i + 1, j - 1), Osa(a, b, i, j - 1), a[i] == b[j - 1],
               Transposable(a, b, i + 1, j), if i + 1 > 1 && j > 1 then Osa(a, b, i - 1, j - 2) else 0);
    }
  }

  /** Equal last characters cost nothing. */
  lemma OsaMatch(a: string, b: string, i: nat, j: nat)
    requires 1 <= i <= |a| && 1 <= j <= |b| && a[i - 1] == b[j - 1]
    ensures Osa(a, b, i, j) == Osa(a, b, i - 1, j - 1)
  {
    var diag := Osa(a, b, i - 1, j - 1);
    var twoBack := if i > 1 && j > 1 then Osa(a, b, i - 2, j - 2) else 0;
    assert diag <= Osa(a, b, i - 1, j) + 1 by {
      OsaColStep(a, b, i - 1, j - 1);
    }
    assert diag <= Osa(a, b, i, j - 1) + 1 by {
      OsaRowStep(a, b, i - 1, j - 1);
    }
    assert Transposable(a, b, i, j) ==> diag <= twoBack + 1 by {
      if i > 1 && j > 1 {
        OsaSteps(a, b, i - 1, j - 1);
      }
    }
    OsaUnfold(a, b, i, j);
    CellAtLeast(diag, Osa(a, b, i - 1, j), Osa(a, b, i, j - 1), diag, true, Transposable(a, b, i, j), twoBack);
  }

  /** A value no greater than every option of a cell is no greater than
    * the cell. */
  lemma CellAtLeast(x: int, up: nat, left: nat, diag: nat, same: bool, transposable: bool, twoBack: nat)
    requires x <= up + 1 && x <= left + 1 && x <= diag + (if same then 0 else 1) && (transposable ==> x <= twoBack + 1)
    ensures x <= Cell(up, left, diag, same, transposable, twoBack)
  {
    CellChoice(up, left, diag, same, transposable, twoBack);
  }

  /** The distance is symmetric in its operands. */
  lemma {:induction false} OsaSymmetric(a: string, b: string, i: nat, j: nat)
    requires i <= |a| && j <= |b|
    ensures Osa(a, b, i, j) == Osa(b, a, j, i)
    decreases i + j
  {
    if i > 0 && j > 0 {
      OsaSymmetric(a, b, i - 1, j);
      OsaSymmetric(a, b, i, j - 1);
      OsaSymmetric(a, b, i - 1, j - 1);
      if i > 1 && j > 1 {
        OsaSymmetric(a, b, i - 2, j - 2);
      }
      assert Transposable(a, b, i, j) == Transposable(b, a, j, i);
      CellSwap(Osa(a, b, i - 1, j), Osa(a, b, i, j - 1), Osa(a, b, i - 1, j - 1), a[i - 1] == b[j - 1],
               Transposable(a, b, i, j), if i > 1 && j > 1 then Osa(a, b, i - 2, j - 2) else 0);
    }
  }

  lemma OsaDistSymmetric(a: string, b: string)
    ensures OsaDist(a, b) == OsaDist(b, a)
  {
    OsaSymmetric(a, b, |a|, |b|);
  }

  /** A cell depends only on the prefixes it covers. */
  lemma {:induction false} OsaPrefixes(a: string, b: string, a2: string, b2: string, i: nat, j: nat)
    requires i <= |a| && j <= |b| && i <= |a2| && j <= |b2|
    requires forall k :: 0 <= k < i ==> a[k] == a2[k]
    requires forall k :: 0 <= k < j ==> b[k] == b2[k]
    ensures Osa(a, b, i, j) == Osa(a2, b2, i, j)
    decreases i + j
  {
    if i > 0 && j > 0 {
      OsaPrefixes(a, b, a2, b2, i - 1, j);
      OsaPrefixes(a, b, a2, b2, i, j - 1);
      OsaPrefixes(a, b, a2, b2, i - 1, j - 1);
      assert a[i - 1] == a2[i - 1] && b[j - 1] == b2[j - 1];
      if i > 1 && j > 1 {
        OsaPrefixes(a, b, a2, b2, i - 2, j - 2);
        assert a[i - 2] == a2[i - 2] && b[j - 2] == b2[j - 2];
      }
      assert Transposable(a, b, i, j) == Transposable(a2, b2, i, j);
    }
  }

  /** The distance never exceeds the longer operand's length. */
  lemma {:induction false} OsaUpper(a: string, b: string, i: nat, j: nat)
    requires i <= |a| && j <= |b|
    ensures Osa(a, b, i, j) <= if i <= j then j else i
    decreases i + j
  {
    if i > 0 && j > 0 {
      OsaUpper(a, b, i - 1, j - 1);
    }
  }

  function Gap(i: nat, j: nat): nat
  {
    if i <= j then j - i else i - j
  }

  /** The distance is at least the difference of the lengths. */
  lemma {:induction false} OsaLower(a: string, b: string, i: nat, j: nat)
    requires i <= |a| && j <= |b|
    ensures Osa(a, b, i, j) >= Gap(i, j)
    decreases i + j
  {
    if i > 0 && j > 0 {
      OsaLower(a, b, i - 1, j);
      OsaLower(a, b, i, j - 1);
      OsaLower(a, b, i - 1, j - 1);
      assert Gap(i - 1, j) + 1 >= Gap(i, j);
      assert Gap(i, j - 1) + 1 >= Gap(i, j);
      assert Gap(i - 1, j - 1) == Gap(i, j);
      if i > 1 && j > 1 {
        OsaLower(a, b, i - 2, j - 2);
        assert Gap(i - 2, j - 2) == Gap(i, j);
      }
    }
  }

  /** A transposition that is never cheaper than the diagonal changes
    * nothing. */
  lemma CellNoGain(up: nat, left: nat, diag: nat, same: bool, transposable: bool, twoBack: nat)
    requires twoBack + 1 >= diag + (if same then 0 else 1)
    ensures Cell(up, left, diag, same, transposable, twoBack) == Cell(up, left, diag, same, false, 0)
  {
  }

  /** a' is a without its first character. */
  predicate Tail(a: string, a': string)
  {
    |a| == |a'| + 1 && forall k :: 0 <= k < |a'| ==> a'[k] == a[k + 1]
  }

  /** Equal first characters cost nothing: the table of a and b from cell
    * (1, 1) on is the table of their tails. */
  lemma {:induction false} OsaDropHeadAt(a: string, b: string, a': string, b': string, i: nat, j: nat)
    requires Tail(a, a') && Tail(b, b') && a[0] == b[0]
    requires 1 <= i <= |a| && 1 <= j <= |b|
    ensures Osa(a, b, i, j) == Osa(a', b', i - 1, j - 1)
    decreases i + j
  {
    if i == 1 && j == 1 {
    } else if i == 1 {
      OsaDropHeadAt(a, b, a', b', 1, j - 1);
    } else if j == 1 {
      OsaDropHeadAt(a, b, a', b', i - 1, 1);
    } else {
      OsaDropHeadAt(a, b, a', b', i - 1, j);
      OsaDropHeadAt(a, b, a', b', i, j - 1);
      OsaDropHeadAt(a, b, a', b', i - 1, j - 1);
      if i > 2 && j > 2 {
        OsaDropHeadAt(a, b, a', b', i - 2, j - 2);
      }
      OsaDropHeadCell(a, b, a', b', i, j);
    }
  }

  /** The inductive step of OsaDropHeadAt for an inner cell. */
  lemma OsaDropHeadCell(a: string, b: string, a': string, b': string, i: nat, j: nat)
    requires Tail(a, a') && Tail(b, b') && a[0] == b[0]
    requires 2 <= i <= |a| && 2 <= j <= |b|
    requires Osa(a, b, i - 1, j) == Osa(a', b', i - 2, j - 1)
    requires Osa(a, b, i, j - 1) == Osa(a', b', i - 1, j - 2)
    requires Osa(a, b, i - 1, j - 1) == Osa(a', b', i - 2, j - 2)
    requires i > 2 && j > 2 ==> Osa(a, b, i - 2, j - 2) == Osa(a', b', i - 3, j - 3)
    ensures Osa(a, b, i, j) == Osa(a', b', i - 1, j - 1)
  {
    var same := a[i - 1] == b[j - 1];
    assert same == (a'[i - 2] == b'[j - 2]);
    var up, left, diag := Osa(a', b', i - 2, j - 1), Osa(a', b', i - 1, j - 2), Osa(a', b', i - 2, j - 2);
    var t, twoBack := Transposable(a, b, i, j), Osa(a, b, i - 2, j - 2);
    var t', twoBack' := Transposable(a', b', i - 1, j - 1), if i > 2 && j > 2 then Osa(a', b', i - 3, j - 3) else 0;
    OsaUnfold(a, b, i, j);
    OsaUnfold(a', b', i - 1, j - 1);
    assert Osa(a, b, i, j) == Cell(up, left, diag, same, t, twoBack);
    assert Osa(a', b', i - 1, j - 1) == Cell(up, left, diag, same, t', twoBack');
    if i == 2 || j == 2 {
      // the swap would reach back into the dropped head; it never beats
      // the diagonal there
      OsaUpper(a', b', i - 2, j - 2);
      assert !t';
      CellNoGain(up, left, diag, same, t, twoBack);
      assert twoBack' == 0;
    } else {
      assert t == t';
    }
  }

  lemma OsaDropHead(a: string, b: string)
    requires 1 <= |a| && 1 <= |b| && a[0] == b[0]
    ensures OsaDist(a, b) == OsaDist(a[1..], b[1..])
  {
    OsaDropHeadAt(a, b, a[1..], b[1..], |a|, |b|);
  }

  /** Equal last characters may both be dropped. */
  lemma OsaDropLast(x: string, y: string)
    requires |x| >= 1 && |y| >= 1 && x[|x| - 1] == y[|y| - 1]
    ensures OsaDist(x, y) == OsaDist(x[..|x| - 1], y[..|y| - 1])
  {
    OsaMatch(x, y, |x|, |y|);
    OsaPrefixes(x, y, x[..|x| - 1], y[..|y| - 1], |x| - 1, |y| - 1);
  }

  /** Dropping a common suffix leaves the distance unchanged. */
  lemma {:induction false} OsaDistDropSuffix(a: string, b: string, c: string)
    ensures OsaDist(a + c, b + c) == OsaDist(a, b)
    decreases |c|
  {
    if |c| > 0 {
      var c' := c[..|c| - 1];
      var x, y := a + c, b + c;
      assert x[..|x| - 1] == a + c' && y[..|y| - 1] == b + c';
      assert x[|x| - 1] == y[|y| - 1];
      OsaDropLast(x, y);
      OsaDistDropSuffix(a, b, c');
    } else {
      assert a + c == a && b + c == b;
    }
  }

  /** Dropping a common prefix leaves the distance unchanged. */
  lemma {:induction false} OsaDistDropPrefix(c: string, a: string, b: string)
    ensures OsaDist(c + a, c + b) == OsaDist(a, b)
    decreases |c|
  {
    if |c| > 0 {
      var x, y := c + a, c + b;
      OsaDropHead(x, y);
      assert x[1..] == c[1..] + a && y[1..] == c[1..] + b;
      OsaDistDropPrefix(c[1..], a, b);
    } else {
      assert c + a == a && c + b == b;
    }
  }

  /** Zero distance means equal strings. */
  lemma OsaDistZero(a: string, b: string)
    ensures OsaDist(a, b) == 0 <==> a == b
  {
    if a == b {
      OsaDistDropSuffix([], [], a);
      assert [] + a == a;
    } else if OsaDist(a, b) == 0 {
      OsaZeroEqual(a, b, |a|, |b|);
    }
  }

  lemma {:induction false} OsaZeroEqual(a: string, b: string, i: nat, j: nat)
    requires i <= |a| && j <= |b| && Osa(a, b, i, j) == 0
    ensures i == j && a[..i] == b[..j]
    decreases i + j
  {
    if i > 0 && j > 0 {
      OsaZeroCell(a, b, i, j);
      OsaZeroEqual(a, b, i - 1, j - 1);
      assert a[..i] == a[..i - 1] + [a[i - 1]];
      assert b[..j] == b[..j - 1] + [b[j - 1]];
    }
  }

  /** An inner cell of zero is a match on a diagonal of zero. */
  lemma OsaZeroCell(a: string, b: string, i: nat, j: nat)
    requires 1 <= i <= |a| && 1 <= j <= |b| && Osa(a, b, i, j) == 0
    ensures Osa(a, b, i - 1, j - 1) == 0 && a[i - 1] == b[j - 1]
  {
    OsaUnfold(a, b, i, j);
    CellChoice(Osa(a, b, i - 1, j), Osa(a, b, i, j - 1), Osa(a, b, i - 1, j - 1), a[i - 1] == b[j - 1],
               Transposable(a, b, i, j), if i > 1 && j > 1 then Osa(a, b, i - 2, j - 2) else 0);
  }

  /** Swapping two different adjacent characters costs exactly one. */
  lemma OsaSwapAdjacent(p: string, x: char, y: char, q: string)
    requires x != y
    ensures OsaDist(p + [x, y] + q, p + [y, x] + q) == 1
  {
    assert p + [x, y] + q == p + ([x, y] + q);
    assert p + [y, x] + q == p + ([y, x] + q);
    OsaDistDropPrefix(p, [x, y] + q, [y, x] + q);
    OsaDistDropSuffix([x, y], [y, x], q);
    var s, t := [x, y], [y, x];
    assert Osa(s, t, 1, 1) == 1;
    assert Osa(s, t, 0, 0) == 0;
    assert Transposable(s, t, 2, 2);
  }
}
