/**
 * Suggestions as the engine hands them out, their ranking order, and the
 * staging area that collects delete-hash entries during a bulk load
 * before they are committed to the index.
 */
module Suggestions {

  /** A spelling suggestion: the dictionary term, its edit distance from
    * the input, and its frequency count. */
  datatype SuggestItem = SuggestItem(term: string, distance: int, count: int)

  /** a ranks strictly before b: a smaller distance, or the same distance
    * and a larger count. */
  predicate Precedes(a: SuggestItem, b: SuggestItem)
  {
    a.distance < b.distance || (a.distance == b.distance && a.count > b.count)
  }

  /** Three-way comparison: distance ascending, then count descending. */
  function CompareTo(a: SuggestItem, b: SuggestItem): (r: int)
    ensures r < 0 <==> Precedes(a, b)
    ensures r > 0 <==> Precedes(b, a)
    ensures r == 0 <==> a.distance == b.distance && a.count == b.count
  {
    if a.distance == b.distance then
      (if b.count < a.count then -1 else if b.count > a.count then 1 else 0)
    else if a.distance < b.distance then -1 else 1
  }

  lemma CompareToAntisymmetric(a: SuggestItem, b: SuggestItem)
    ensures CompareTo(a, b) == -CompareTo(b, a)
  {
  }

  lemma PrecedesTransitive(a: SuggestItem, b: SuggestItem, c: SuggestItem)
    requires Precedes(a, b) && !Precedes(c, b)
    ensures Precedes(a, c)
  {
  }

  /** No item ranks strictly before an item placed ahead of it. */
  predicate Sorted(s: seq<SuggestItem>)
  {
    forall i, j :: 0 <= i < j < |s| ==> !Precedes(s[j], s[i])
  }

  /** No two items share a term. */
  predicate DistinctTerms(s: seq<SuggestItem>)
  {
    forall i, j :: 0 <= i < j < |s| ==> s[i].term != s[j].term
  }

  /** Places x after every item that does not rank after it. */
  method InsertSorted(r: seq<SuggestItem>, x: SuggestItem) returns (t: seq<SuggestItem>)
    requires Sorted(r)
    ensures Sorted(t)
    ensures multiset(t) == multiset(r) + multiset{x}
  {
    var k := 0;
    while k < |r| && !Precedes(x, r[k])
      invariant 0 <= k <= |r|
      invariant forall i :: 0 <= i < k ==> !Precedes(x, r[i])
    {
      k := k + 1;
    }
    t := r[..k] + [x] + r[k..];
    assert r == r[..k] + r[k..];
    InsertKeepsSorted(r, x, k);
  }

  lemma InsertKeepsSorted(r: seq<SuggestItem>, x: SuggestItem, k: nat)
    requires Sorted(r) && k <= |r|
    requires forall i :: 0 <= i < k ==> !Precedes(x, r[i])
    requires k < |r| ==> Precedes(x, r[k])
    ensures Sorted(r[..k] + [x] + r[k..])
  {
    var t := r[..k] + [x] + r[k..];
    assert forall m :: 0 <= m < k ==> t[m] == r[m];
    assert t[k] == x;
    assert forall m :: k < m < |t| ==> t[m] == r[m - 1];
    forall i, j | 0 <= i < j < |t|
      ensures !Precedes(t[j], t[i])
    {
      if j > k && i == k {
        assert !Precedes(r[j - 1], r[k]);
      }
    }
  }

  /** The ranking the engine applies to its results: any ordering that is
    * sorted and a permutation of the input is one the source's sort may
    * produce; this one inserts the items one at a time. */
  method SortSuggestions(s: seq<SuggestItem>) returns (t: seq<SuggestItem>)
    ensures Sorted(t)
    ensures multiset(t) == multiset(s)
  {
    t := [];
    var i := 0;
    while i < |s|
      invariant 0 <= i <= |s|
      invariant Sorted(t)
      invariant multiset(t) == multiset(s[..i])
    {
      assert s[..i + 1] == s[..i] + [s[i]];
      t := InsertSorted(t, s[i]);
      i := i + 1;
    }
    assert s[..|s|] == s;
  }

  /** A permutation keeps terms distinct. */
  lemma {:induction false} PermutationKeepsDistinct(s: seq<SuggestItem>, t: seq<SuggestItem>)
    requires DistinctTerms(s) && multiset(t) == multiset(s)
    ensures DistinctTerms(t)
  {
    forall i, j | 0 <= i < j < |t|
      ensures t[i].term != t[j].term
    {
      if t[i].term == t[j].term {
        assert t[i] in multiset(s) && t[j] in multiset(s);
        var a :| 0 <= a < |s| && s[a] == t[i];
        var b :| 0 <= b < |s| && s[b] == t[j];
        if a == b {
          // Equal items occur twice in t but once in s.
          assert t == t[..i] + [t[i]] + t[i + 1..j] + [t[j]] + t[j + 1..];
          assert multiset(t)[t[i]] >= 2;
          OnceInDistinct(s, a);
        }
        assert false;
      }
    }
  }

  /** In a sequence with distinct terms every item occurs once. */
  lemma {:induction false} OnceInDistinct(s: seq<SuggestItem>, a: nat)
    requires DistinctTerms(s) && a < |s|
    ensures multiset(s)[s[a]] == 1
  {
    if a == |s| - 1 {
      assert s == s[..a] + [s[a]];
      assert s[a] !in multiset(s[..a]);
    } else {
      var last := |s| - 1;
      var init := s[..last];
      assert s == init + [s[last]];
      assert DistinctTerms(init) by {
        forall i, j | 0 <= i < j < |init|
          ensures init[i].term != init[j].term
        {
          assert init[i] == s[i] && init[j] == s[j];
        }
      }
      OnceInDistinct(init, a);
      assert init[a] == s[a];
      assert s[last] != s[a] by {
        assert s[last].term != s[a].term;
      }
    }
  }

  /** The list stored under a hash, empty when the hash has none. */
  function Bucket(m: map<int, seq<string>>, h: int): seq<string>
  {
    if h in m then m[h] else []
  }

  /**
   * Delete-hash entries collected during a bulk load, committed to the
   * index in one go.
   */
  class SuggestionStage {
    var deletes: map<int, seq<string>>

    constructor (initialCapacity: int)
      ensures deletes == map[]
    {
      deletes := map[];
    }

    /** Records suggestion under hash, after the ones already there. */
    method Add(hash: int, suggestion: string)
      modifies this
      ensures deletes == old(deletes)[hash := Bucket(old(deletes), hash) + [suggestion]]
    {
      deletes := deletes[hash := Bucket(deletes, hash) + [suggestion]];
    }

    /** The index after committing: every hash's staged list is appended
      * to the list the index already holds for it. */
    function CommitTo(permanentDeletes: map<int, seq<string>>): (r: map<int, seq<string>>)
      reads this
      ensures r.Keys == permanentDeletes.Keys + deletes.Keys
      ensures forall h :: h in r ==> r[h] == Bucket(permanentDeletes, h) + Bucket(deletes, h)
    {
      map h | h in permanentDeletes.Keys + deletes.Keys :: Bucket(permanentDeletes, h) + Bucket(deletes, h)
    }
  }

  /** Committing an empty stage leaves the index as it was. */
  lemma CommitEmptyStage(stage: SuggestionStage, permanentDeletes: map<int, seq<string>>)
    requires stage.deletes == map[]
    ensures stage.CommitTo(permanentDeletes) == permanentDeletes
  {
    var r := stage.CommitTo(permanentDeletes);
    assert forall h :: h in r ==> r[h] == permanentDeletes[h];
  }

  /** Every staged word reaches the index under its hash, and nothing the
    * index held is lost. */
  lemma CommitKeepsEverything(stage: SuggestionStage, permanentDeletes: map<int, seq<string>>, h: int)
    ensures multiset(Bucket(stage.CommitTo(permanentDeletes), h)) ==
      multiset(Bucket(permanentDeletes, h)) + multiset(Bucket(stage.deletes, h))
  {
  }
}
