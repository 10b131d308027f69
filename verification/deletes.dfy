/**
 * Delete variants: the strings obtained from a word by deleting
 * characters. The dictionary is indexed by the delete variants of every
 * word's prefix, and lookups probe it with the delete variants of the
 * input's prefix.
 */
module Deletes {

  /** s without its i-th character. */
  function Delete(s: string, i: nat): (r: string)
    requires i < |s|
    ensures |r| == |s| - 1
  {
    s[..i] + s[i + 1..]
  }

  /** Every subsequence of s (every string obtained by deleting any
    * characters of s). */
  function Subseqs(s: string): set<string>
    decreases |s|
  {
    if s == [] then {[]}
    else
      var rest := Subseqs(s[1..]);
      rest + set t | t in rest :: [s[0]] + t
  }

  /** A subset is no larger than its superset. */
  lemma {:induction false} SubsetCard(a: set<string>, b: set<string>)
    requires a <= b
    ensures |a| <= |b|
    decreases |a|
  {
    if a != {} {
      var x :| x in a;
      SubsetCard(a - {x}, b - {x});
    }
  }

  lemma {:induction false} SubseqsLength(s: string, u: string)
    requires u in Subseqs(s)
    ensures |u| <= |s|
    decreases |s|
  {
    if s != [] {
      var rest := Subseqs(s[1..]);
      if u !in rest {
        var t :| t in rest && u == [s[0]] + t;
        SubseqsLength(s[1..], t);
      } else {
        SubseqsLength(s[1..], u);
      }
    }
  }

  lemma {:induction false} SubseqsSelf(s: string)
    ensures s in Subseqs(s) && [] in Subseqs(s)
    decreases |s|
  {
    if s != [] {
      SubseqsSelf(s[1..]);
      assert s == [s[0]] + s[1..];
    }
  }

  /** A subsequence as long as s is s itself. */
  lemma {:induction false} SubseqsSameLength(s: string, u: string)
    requires u in Subseqs(s) && |u| == |s|
    ensures u == s
    decreases |s|
  {
    if s != [] {
      var rest := Subseqs(s[1..]);
      if u in rest {
        SubseqsLength(s[1..], u);
        assert false;
      }
      var t :| t in rest && u == [s[0]] + t;
      SubseqsSameLength(s[1..], t);
      assert s == [s[0]] + s[1..];
    }
  }

  /** Deleting a character of a subsequence gives a subsequence. */
  lemma {:induction false} DeleteInSubseqs(s: string, u: string, i: nat)
    requires u in Subseqs(s) && i < |u|
    ensures Delete(u, i) in Subseqs(s)
    decreases |s|
  {
    var rest := Subseqs(s[1..]);
    if u in rest {
      DeleteInSubseqs(s[1..], u, i);
    } else {
      var t :| t in rest && u == [s[0]] + t;
      if i == 0 {
        assert Delete(u, i) == t;
      } else {
        DeleteInSubseqs(s[1..], t, i - 1);
        assert Delete(u, i) == [s[0]] + Delete(t, i - 1);
      }
    }
  }

  /** A subsequence of a subsequence is a subsequence. */
  lemma {:induction false} SubseqsTransitive(w: string, v: string, u: string)
    requires v in Subseqs(w) && u in Subseqs(v)
    ensures u in Subseqs(w)
    decreases |w|
  {
    if w != [] {
      var rest := Subseqs(w[1..]);
      if v in rest {
        SubseqsTransitive(w[1..], v, u);
      } else {
        var v' :| v' in rest && v == [w[0]] + v';
        assert v[1..] == v';
        var inner := Subseqs(v');
        if u in inner {
          SubseqsTransitive(w[1..], v', u);
        } else {
          var x :| x in inner && u == [w[0]] + x;
          SubseqsTransitive(w[1..], v', x);
        }
      }
    } else {
      assert v == [];
    }
  }

  /** A proper subsequence of s is a subsequence of some one-character
    * delete of s. */
  lemma {:induction false} ProperSubseqOfDelete(s: string, u: string) returns (i: nat)
    requires u in Subseqs(s) && |u| < |s|
    ensures i < |s| && u in Subseqs(Delete(s, i))
    decreases |s|
  {
    var rest := Subseqs(s[1..]);
    if u in rest {
      i := 0;
      assert Delete(s, 0) == s[1..];
    } else {
      var t :| t in rest && u == [s[0]] + t;
      var j := ProperSubseqOfDelete(s[1..], t);
      i := j + 1;
      var d := Delete(s, i);
      assert d == [s[0]] + Delete(s[1..], j);
      assert d[1..] == Delete(s[1..], j);
    }
  }

  /** S already holds what generating the deletes of t at the given level
    * adds: every one-character delete of t, and, while the level stays
    * below the bound, what the deletes generate in turn. */
  ghost predicate Closed(S: set<string>, t: string, level: int, maxEd: int)
    decreases |t|
  {
    |t| > 1 ==>
      forall i :: 0 <= i < |t| ==>
        Delete(t, i) in S && (level + 1 < maxEd ==> Closed(S, Delete(t, i), level + 1, maxEd))
  }

  /** Every element of S shorter than word (and not empty) that sits at a
    * level where deletes are still generated is already closed; a string
    * shorter than word by k characters sits k levels below it. */
  ghost predicate ClosedBelow(S: set<string>, word: string, level: int, maxEd: int)
  {
    forall t :: t in S && 1 <= |t| < |word| && level + |word| - |t| < maxEd ==>
      Closed(S, t, level + |word| - |t|, maxEd)
  }

  lemma {:induction false} ClosedGrow(S: set<string>, S': set<string>, t: string, level: int, maxEd: int)
    requires S <= S' && Closed(S, t, level, maxEd)
    ensures Closed(S', t, level, maxEd)
    decreases |t|
  {
    if |t| > 1 {
      forall i | 0 <= i < |t| && level + 1 < maxEd
        ensures Closed(S', Delete(t, i), level + 1, maxEd)
      {
        ClosedGrow(S, S', Delete(t, i), level + 1, maxEd);
      }
    }
  }

  function Max(a: int, b: int): int
  {
    if a < b then b else a
  }

  /** A closed string's set holds every non-empty subsequence that is at
    * most max(1, maxEd - level) characters shorter. */
  lemma {:induction false} ClosedComplete(S: set<string>, t: string, level: int, maxEd: int, u: string)
    requires Closed(S, t, level, maxEd)
    requires u in Subseqs(t) && 1 <= |u| < |t| && |t| - |u| <= Max(1, maxEd - level)
    ensures u in S
    decreases |t|
  {
    var i := ProperSubseqOfDelete(t, u);
    var d := Delete(t, i);
    if |u| == |d| {
      SubseqsSameLength(d, u);
    } else {
      ClosedComplete(S, d, level + 1, maxEd, u);
    }
  }

  /** Adds to deleteWords the deletes of word, and recursively their
    * deletes while the level (editDistance + 1) stays below
    * maxDictionaryEditDistance; a delete already present is not expanded
    * again. One level is always generated, whatever the bound. */
  method Edits(word: string, editDistance: int, deleteWords: set<string>, maxDictionaryEditDistance: int)
    returns (r: set<string>)
    requires ClosedBelow(deleteWords, word, editDistance, maxDictionaryEditDistance)
    ensures deleteWords <= r
    ensures forall t :: t in r - deleteWords ==>
      t in Subseqs(word) && 1 <= |t| < |word| && |word| - |t| <= Max(1, maxDictionaryEditDistance - editDistance)
    ensures ClosedBelow(r, word, editDistance, maxDictionaryEditDistance)
    ensures Closed(r, word, editDistance, maxDictionaryEditDistance)
    decreases |word|
  {
    var ed := editDistance + 1;
    r := deleteWords;
    if |word| > 1 {
      SubseqsSelf(word);
      for i := 0 to |word|
        invariant deleteWords <= r
        invariant forall t :: t in r - deleteWords ==>
          t in Subseqs(word) && 1 <= |t| < |word| && |word| - |t| <= Max(1, maxDictionaryEditDistance - editDistance)
        invariant ClosedBelow(r, word, editDistance, maxDictionaryEditDistance)
        invariant forall k :: 0 <= k < i ==> Delete(word, k) in r
      {
        var del := Delete(word, i);
        if del !in r {
          DeleteInSubseqs(word, word, i);
          r := AddDelete(word, editDistance, del, r, maxDictionaryEditDistance);
        }
      }
    }
  }

  /** Inserts one new delete of word and expands it when its level is
    * below the bound (the body of the loop in Edits). */
  method AddDelete(word: string, editDistance: int, del: string, r: set<string>, maxDictionaryEditDistance: int)
    returns (r': set<string>)
    requires |del| == |word| - 1 >= 1 && del !in r && del in Subseqs(word)
    requires ClosedBelow(r, word, editDistance, maxDictionaryEditDistance)
    ensures r + {del} <= r'
    ensures forall t :: t in r' - r ==>
      t in Subseqs(word) && 1 <= |t| < |word| && |word| - |t| <= Max(1, maxDictionaryEditDistance - editDistance)
    ensures ClosedBelow(r', word, editDistance, maxDictionaryEditDistance)
    decreases |word|, 0
  {
    var ed := editDistance + 1;
    var r1 := r + {del};
    ClosedBelowAdd(r, word, editDistance, del, maxDictionaryEditDistance);
    if ed < maxDictionaryEditDistance {
      var r2 := Edits(del, ed, r1, maxDictionaryEditDistance);
      forall t | t in r2 - r1
        ensures t in Subseqs(word)
      {
        SubseqsTransitive(word, del, t);
      }
      ClosedBelowJoin(r1, r2, word, editDistance, del, maxDictionaryEditDistance);
      r' := r2;
    } else {
      r' := r1;
    }
  }

  /** Adding a new delete keeps the strings below word closed (the delete
    * itself needs closing only when its level is below the bound), and
    * gives the expansion of the delete what it requires. */
  lemma ClosedBelowAdd(r: set<string>, word: string, level: int, del: string, maxEd: int)
    requires |del| == |word| - 1 && ClosedBelow(r, word, level, maxEd)
    ensures ClosedBelow(r + {del}, del, level + 1, maxEd)
    ensures level + 1 >= maxEd ==> ClosedBelow(r + {del}, word, level, maxEd)
  {
    var r1 := r + {del};
    forall t | t in r1 && 1 <= |t| < |word| && level + |word| - |t| < maxEd && t != del
      ensures Closed(r1, t, level + |word| - |t|, maxEd)
    {
      ClosedGrow(r, r1, t, level + |word| - |t|, maxEd);
    }
  }

  /** After the delete has been expanded, every string below word is
    * closed again. */
  lemma ClosedBelowJoin(r1: set<string>, r2: set<string>, word: string, level: int, del: string, maxEd: int)
    requires |del| == |word| - 1 && del in r1 && r1 <= r2
    requires forall t :: t in r2 - r1 ==> |t| < |del|
    requires forall t :: t in r1 && 1 <= |t| < |word| && level + |word| - |t| < maxEd && t != del ==>
      Closed(r1, t, level + |word| - |t|, maxEd)
    requires ClosedBelow(r2, del, level + 1, maxEd) && Closed(r2, del, level + 1, maxEd)
    ensures ClosedBelow(r2, word, level, maxEd)
  {
    forall t | t in r2 && 1 <= |t| < |word| && level + |word| - |t| < maxEd
      ensures Closed(r2, t, level + |word| - |t|, maxEd)
    {
      if |t| == |del| && t != del {
        ClosedGrow(r1, r2, t, level + |word| - |t|, maxEd);
      }
    }
  }

  /** The delete variants EditsPrefix generates, defined directly: the
    * empty string when the key is at most the bound long, the key cut to
    * the prefix length, and every non-empty subsequence of that prefix
    * at most max(1, bound) characters shorter. */
  ghost function PrefixVariants(key: string, maxDictionaryEditDistance: nat, prefixLength: nat): set<string>
  {
    var k := if |key| > prefixLength then key[..prefixLength] else key;
    (if |key| <= maxDictionaryEditDistance then {[]} else {}) + {k} +
      set u | u in Subseqs(k) && 1 <= |u| && |k| - |u| <= Max(1, maxDictionaryEditDistance)
  }

  /** All delete variants of key's prefix. */
  method EditsPrefix(key: string, maxDictionaryEditDistance: nat, prefixLength: nat) returns (hashSet: set<string>)
    requires prefixLength >= 1
    ensures hashSet == PrefixVariants(key, maxDictionaryEditDistance, prefixLength)
    ensures (if |key| > prefixLength then key[..prefixLength] else key) in hashSet
    ensures [] in hashSet <==> |key| <= maxDictionaryEditDistance
    ensures hashSet <= Subseqs(if |key| > prefixLength then key[..prefixLength] else key)
  {
    hashSet := {};
    if |key| <= maxDictionaryEditDistance {
      hashSet := hashSet + {[]};
    }
    var k := key;
    if |key| > prefixLength {
      k := key[..prefixLength];
    }
    hashSet := hashSet + {k};
    ghost var before := hashSet;
    hashSet := Edits(k, 0, hashSet, maxDictionaryEditDistance);
    VariantsExact(key, maxDictionaryEditDistance, prefixLength, k, before, hashSet);
  }

  /** What Edits leaves, started from the key's prefix (and the empty
    * string when the key is short), is exactly the set of variants. */
  lemma VariantsExact(key: string, maxEd: nat, prefixLength: nat, k: string, before: set<string>, hashSet: set<string>)
    requires prefixLength >= 1 && k == if |key| > prefixLength then key[..prefixLength] else key
    requires before == (if |key| <= maxEd then {[]} else {}) + {k}
    requires before <= hashSet && Closed(hashSet, k, 0, maxEd)
    requires forall t :: t in hashSet - before ==> t in Subseqs(k) && 1 <= |t| < |k| && |k| - |t| <= Max(1, maxEd - 0)
    ensures hashSet == PrefixVariants(key, maxEd, prefixLength)
    ensures [] in hashSet <==> |key| <= maxEd
    ensures hashSet <= Subseqs(k)
  {
    SubseqsSelf(k);
    var spec := PrefixVariants(key, maxEd, prefixLength);
    forall u | u in spec
      ensures u in hashSet
    {
      if u != [] && u != k {
        SubseqsLength(k, u);
        if |u| == |k| {
          SubseqsSameLength(k, u);
        } else {
          ClosedComplete(hashSet, k, 0, maxEd, u);
        }
      }
    }
    if [] in hashSet {
      assert [] in before;
      assert [] == k ==> key == [];
    }
  }
}
