/**
 * Reference definitions for the dictionary index: what the delete-hash
 * map holds after a word's delete variants are filed, saturating count
 * addition, 32-bit truncation, and the insert of an unordered map that
 * never overwrites.
 */
module IndexSpec {
  import opened DeleteHash
  import opened Suggestions
  import opened SymSpellUtils

  /** n copies of v. */
  function Repeat(v: string, n: nat): (r: seq<string>)
    ensures |r| == n && forall k :: 0 <= k < n ==> r[k] == v
  {
    seq(n, _ => v)
  }

  /** The engine's hash under a compact mask, as a function value. */
  function HashUnder(compactMask: nat): string -> int
  {
    s => StringHash(s, compactMask)
  }

  /** The hashes of a set of strings. */
  ghost function Hashes(edits: set<string>, hash: string -> int): set<int>
  {
    set e | e in edits :: hash(e)
  }

  /** The strings of a set that share the hash h. */
  ghost function WithHash(edits: set<string>, h: int, hash: string -> int): set<string>
  {
    set e | e in edits && hash(e) == h
  }

  /** The index after filing v once under the hash of every string of
    * edits: each hash's list gains one v per string with that hash. */
  ghost function AppendPerEdit(d0: map<int, seq<string>>, edits: set<string>, v: string, hash: string -> int): map<int, seq<string>>
  {
    map h | h in d0.Keys + Hashes(edits, hash) ::
      Bucket(d0, h) + Repeat(v, |WithHash(edits, h, hash)|)
  }

  lemma HashesStep(done: set<string>, e: string, hash: string -> int)
    ensures Hashes(done + {e}, hash) == Hashes(done, hash) + {hash(e)}
  {
  }

  lemma WithHashStep(done: set<string>, e: string, hash: string -> int, h: int)
    requires e !in done
    ensures |WithHash(done + {e}, h, hash)| == |WithHash(done, h, hash)| + (if hash(e) == h then 1 else 0)
  {
    if hash(e) == h {
      assert WithHash(done + {e}, h, hash) == WithHash(done, h, hash) + {e};
    } else {
      assert WithHash(done + {e}, h, hash) == WithHash(done, h, hash);
    }
  }

  /** The list under any hash, present or not, is the old one followed by
    * one v per string with that hash. */
  lemma BucketOfAppend(d0: map<int, seq<string>>, done: set<string>, v: string, hash: string -> int, h: int)
    ensures Bucket(AppendPerEdit(d0, done, v, hash), h) == Bucket(d0, h) + Repeat(v, |WithHash(done, h, hash)|)
  {
    if h !in d0.Keys + Hashes(done, hash) {
      assert WithHash(done, h, hash) == {};
    }
  }

  /** Filing one more string extends exactly the list of its hash. */
  lemma AppendStep(d0: map<int, seq<string>>, done: set<string>, e: string, v: string, hash: string -> int)
    requires e !in done
    ensures var d := AppendPerEdit(d0, done, v, hash);
      var h := hash(e);
      d[h := Bucket(d, h) + [v]] == AppendPerEdit(d0, done + {e}, v, hash)
  {
    var d := AppendPerEdit(d0, done, v, hash);
    var h := hash(e);
    var lhs := d[h := Bucket(d, h) + [v]];
    var rhs := AppendPerEdit(d0, done + {e}, v, hash);
    HashesStep(done, e, hash);
    assert lhs.Keys == rhs.Keys;
    forall h' | h' in lhs
      ensures lhs[h'] == rhs[h']
    {
      WithHashStep(done, e, hash, h');
      BucketOfAppend(d0, done, v, hash, h');
      BucketOfAppend(d0, done + {e}, v, hash, h');
      var n := |WithHash(done, h', hash)|;
      assert Repeat(v, n + 1) == Repeat(v, n) + [v];
    }
  }

  /** AppendStep for the engine's hash, with the hash of e given. */
  lemma FileOne(d0: map<int, seq<string>>, done: set<string>, e: string, v: string, compactMask: nat,
                h: int, d: map<int, seq<string>>)
    requires e !in done && h == StringHash(e, compactMask)
    requires d == AppendPerEdit(d0, done, v, HashUnder(compactMask))
    ensures d[h := Bucket(d, h) + [v]] == AppendPerEdit(d0, done + {e}, v, HashUnder(compactMask))
  {
    assert HashUnder(compactMask)(e) == h;
    AppendStep(d0, done, e, v, HashUnder(compactMask));
  }

  /** Every filed string leaves v in the list under its hash, and no list
    * loses anything it held. */
  lemma {:induction false} AppendPerEditFiles(d0: map<int, seq<string>>, edits: set<string>, v: string, hash: string -> int, e: string)
    requires e in edits
    ensures var d := AppendPerEdit(d0, edits, v, hash);
      var h := hash(e);
      h in d && v in d[h] && d[h][..|Bucket(d0, h)|] == Bucket(d0, h)
  {
    var d := AppendPerEdit(d0, edits, v, hash);
    var h := hash(e);
    assert h in Hashes(edits, hash);
    assert e in WithHash(edits, h, hash);
    var n := |WithHash(edits, h, hash)|;
    assert n >= 1;
    assert d[h][|Bucket(d0, h)|] == v;
  }

  /** Filing nothing changes nothing. */
  lemma AppendNothing(d0: map<int, seq<string>>, v: string, hash: string -> int)
    ensures AppendPerEdit(d0, {}, v, hash) == d0
  {
    var d := AppendPerEdit(d0, {}, v, hash);
    assert Hashes({}, hash) == {};
    forall h | h in d
      ensures d[h] == d0[h]
    {
      assert WithHash({}, h, hash) == {};
    }
  }

  /** The count addition that sticks at the cap: (MAXINT - previous > count)
    * ? previous + count : MAXINT. */
  function Saturate(previous: int, count: int): int
  {
    if MaxInt - previous > count then previous + count else MaxInt
  }

  /** Saturating addition is the sum capped at MAXINT. */
  lemma SaturateIsCappedSum(previous: int, count: int)
    ensures Saturate(previous, count) == if previous + count < MaxInt then previous + count else MaxInt
  {
  }

  /** A 64-bit value stored into a 32-bit int: the low 32 bits, read as
    * two's complement. */
  function Int32Of(x: int): (r: int)
    ensures -0x8000_0000 <= r < 0x8000_0000
    ensures (r - x) % 0x1_0000_0000 == 0
  {
    (x + 0x8000_0000) % 0x1_0000_0000 - 0x8000_0000
  }

  /** Values that fit are kept by the truncation. */
  lemma Int32OfFits(x: int)
    requires -0x8000_0000 <= x < 0x8000_0000
    ensures Int32Of(x) == x
  {
  }

  /** The insert of an unordered map: a present key keeps its value. */
  function InsertIfAbsent<V>(m: map<string, V>, k: string, v: V): (r: map<string, V>)
    ensures k in r && r[k] == (if k in m then m[k] else v)
    ensures r.Keys == m.Keys + {k}
    ensures forall k' :: k' in m ==> r[k'] == m[k']
  {
    if k in m then m else m[k := v]
  }

  /** m grew from m0 by adding keys with count zero only. */
  ghost predicate Grown(m0: map<string, int>, m: map<string, int>)
  {
    m0.Keys <= m.Keys && (forall w :: w in m0 ==> m[w] == m0[w])
    && (forall w :: w in m && w !in m0 ==> m[w] == 0)
  }

  lemma GrownTransitive(m0: map<string, int>, m1: map<string, int>, m2: map<string, int>)
    requires Grown(m0, m1) && Grown(m1, m2)
    ensures Grown(m0, m2)
  {
  }
}
