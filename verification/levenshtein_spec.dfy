/**
 * The unit-cost edit distance (insertion, deletion, substitution) that the
 * Levenshtein comparer computes, defined by its recurrence, and the facts
 * about it that the comparer relies on: the distance is symmetric, is
 * unchanged by dropping a common prefix or suffix, and is bounded by the
 * longer length and below by the length difference.
 */
module LevenshteinSpec {
  import opened Helpers

  /** Edit distance between a[..i] and b[..j]. */
  function Lev(a: string, b: string, i: nat, j: nat): nat
    requires i <= |a| && j <= |b|
    decreases i + j
  {
    if i == 0 then j
    else if j == 0 then i
    else Min3(Lev(a, b, i - 1, j) + 1, Lev(a, b, i, j - 1) + 1,
              Lev(a, b, i - 1, j - 1) + (if a[i - 1] == b[j - 1] then 0 else 1))
  }

  function LevDist(a: string, b: string): nat
  {
    Lev(a, b, |a|, |b|)
  }

  /** An inner cell from its neighbours. */
  lemma LevUnfold(a: string, b: string, i: nat, j: nat)
    requires 1 <= i <= |a| && 1 <= j <= |b|
    ensures Lev(a, b, i, j) == Min3(Lev(a, b, i - 1, j) + 1, Lev(a, b, i, j - 1) + 1,
                                    Lev(a, b, i - 1, j - 1) + (if a[i - 1] == b[j - 1] then 0 else 1))
  {
  }

  /** Neighbouring cells of a row differ by at most one (one direction). */
  lemma {:induction false} LevColStep(a: string, b: string, i: nat, j: nat)
    requires i <= |a| && j < |b|
    ensures Lev(a, b, i, j) <= Lev(a, b, i, j + 1) + 1
    decreases i
  {
    if i > 0 {
      LevColStep(a, b, i - 1, j);
    }
  }

  /** Neighbouring cells of a column differ by at most one (one direction). */
  lemma {:induction false} LevRowStep(a: string, b: string, i: nat, j: nat)
    requires i < |a| && j <= |b|
    ensures Lev(a, b, i, j) <= Lev(a, b, i + 1, j) + 1
    decreases j
  {
    if j > 0 {
      LevRowStep(a, b, i, j - 1);
    }
  }

  /** Equal last characters cost nothing: the cell equals its diagonal
    * predecessor (the full DP copies the diagonal in that case). */
  lemma LevMatch(a: string, b: string, i: nat, j: nat)
    requires 1 <= i <= |a| && 1 <= j <= |b| && a[i - 1] == b[j - 1]
    ensures Lev(a, b, i, j) == Lev(a, b, i - 1, j - 1)
  {
    LevColStep(a, b, i - 1, j - 1);
    LevRowStep(a, b, i - 1, j - 1);
  }

  /** The distance is symmetric in its operands. */
  lemma {:induction false} LevSymmetric(a: string, b: string, i: nat, j: nat)
    requires i <= |a| && j <= |b|
    ensures Lev(a, b, i, j) == Lev(b, a, j, i)
    decreases i + j
  {
    if i > 0 && j > 0 {
      LevSymmetric(a, b, i - 1, j);
      LevSymmetric(a, b, i, j - 1);
      LevSymmetric(a, b, i - 1, j - 1);
      LevUnfold(a, b, i, j);
      LevUnfold(b, a, j, i);
    }
  }

  lemma LevDistSymmetric(a: string, b: string)
    ensures LevDist(a, b) == LevDist(b, a)
  {
    LevSymmetric(a, b, |a|, |b|);
  }

  /** A cell depends only on the prefixes it covers. */
  lemma {:induction false} LevPrefixes(a: string, b: string, a2: string, b2: string, i: nat, j: nat)
    requires i <= |a| && j <= |b| && i <= |a2| && j <= |b2|
    requires a[..i] == a2[..i] && b[..j] == b2[..j]
    ensures Lev(a, b, i, j) == Lev(a2, b2, i, j)
    decreases i + j
  {
    if i > 0 && j > 0 {
      assert a[i - 1] == a[..i][i - 1] == a2[i - 1];
      assert b[j - 1] == b[..j][j - 1] == b2[j - 1];
      assert a[..i - 1] == a[..i][..i - 1];
      assert a2[..i - 1] == a2[..i][..i - 1];
      assert b[..j - 1] == b[..j][..j - 1];
      assert b2[..j - 1] == b2[..j][..j - 1];
      LevPrefixes(a, b, a2, b2, i - 1, j);
      LevPrefixes(a, b, a2, b2, i, j - 1);
      LevPrefixes(a, b, a2, b2, i - 1, j - 1);
    }
  }

  /** Equal first characters cost nothing: the table of a and b from cell
    * (1, 1) on is the table of a[1..] and b[1..]. */
  lemma {:induction false} LevDropHead(a: string, b: string, i: nat, j: nat)
    requires 1 <= i <= |a| && 1 <= j <= |b| && a[0] == b[0]
    ensures Lev(a, b, i, j) == Lev(a[1..], b[1..], i - 1, j - 1)
    decreases i + j
  {
    if i == 1 && j == 1 {
    } else if i == 1 {
      LevDropHead(a, b, 1, j - 1);
    } else if j == 1 {
      LevDropHead(a, b, i - 1, 1);
    } else {
      LevDropHead(a, b, i - 1, j);
      LevDropHead(a, b, i, j - 1);
      LevDropHead(a, b, i - 1, j - 1);
    }
  }

  /** Dropping a common suffix leaves the distance unchanged. */
  lemma {:induction false} LevDistDropSuffix(a: string, b: string, c: string)
    ensures LevDist(a + c, b + c) == LevDist(a, b)
    decreases |c|
  {
    if |c| > 0 {
      var c' := c[..|c| - 1];
      var x, y := a + c, b + c;
      LevMatch(x, y, |x|, |y|);
      assert x[..|x| - 1] == a + c' && y[..|y| - 1] == b + c';
      assert (a + c')[..|x| - 1] == a + c' && (b + c')[..|y| - 1] == b + c';
      LevPrefixes(x, y, a + c', b + c', |x| - 1, |y| - 1);
      LevDistDropSuffix(a, b, c');
    } else {
      assert a + c == a && b + c == b;
    }
  }

  /** Dropping a common prefix leaves the distance unchanged. */
  lemma {:induction false} LevDistDropPrefix(c: string, a: string, b: string)
    ensures LevDist(c + a, c + b) == LevDist(a, b)
    decreases |c|
  {
    if |c| > 0 {
      var x, y := c + a, c + b;
      LevDropHead(x, y, |x|, |y|);
      assert x[1..] == c[1..] + a && y[1..] == c[1..] + b;
      LevDistDropPrefix(c[1..], a, b);
    } else {
      assert c + a == a && c + b == b;
    }
  }

  /** The distance never exceeds the longer operand's length. */
  lemma {:induction false} LevUpper(a: string, b: string, i: nat, j: nat)
    requires i <= |a| && j <= |b|
    ensures Lev(a, b, i, j) <= if i <= j then j else i
    decreases i + j
  {
    if i > 0 && j > 0 {
      LevUpper(a, b, i - 1, j - 1);
    }
  }

  /** The distance is at least the difference of the lengths. */
  lemma {:induction false} LevLower(a: string, b: string, i: nat, j: nat)
    requires i <= |a| && j <= |b|
    ensures Lev(a, b, i, j) >= if i <= j then j - i else i - j
    decreases i + j
  {
    if i > 0 && j > 0 {
      LevLower(a, b, i - 1, j);
      LevLower(a, b, i, j - 1);
      LevLower(a, b, i - 1, j - 1);
    }
  }

  /** Zero distance means equal strings. */
  lemma LevDistZero(a: string, b: string)
    ensures LevDist(a, b) == 0 <==> a == b
  {
    if a == b {
      LevDistDropSuffix([], [], a);
      assert [] + a == a;
    } else if LevDist(a, b) == 0 {
      LevZeroEqual(a, b, |a|, |b|);
    }
  }

  lemma {:induction false} LevZeroEqual(a: string, b: string, i: nat, j: nat)
    requires i <= |a| && j <= |b| && Lev(a, b, i, j) == 0
    ensures i == j && a[..i] == b[..j]
    decreases i + j
  {
    if i > 0 && j > 0 {
      LevLower(a, b, i - 1, j);
      LevLower(a, b, i, j - 1);
      LevZeroEqual(a, b, i - 1, j - 1);
      assert a[..i] == a[..i - 1] + [a[i - 1]];
      assert b[..j] == b[..j - 1] + [b[j - 1]];
    }
  }
}
