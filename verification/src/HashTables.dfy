/**
 One chained hash table of dict.c (`dictht`): a power-of-two number of buckets, each a chain of
 entries, with a count of the entries in use.  `Holds` says that a table stores exactly a given
 finite map.
 */
module HashTables {
  import opened Words
  import opened ScanOrder

  datatype Entry<K, V> = Entry(key: K, val: V)

  /** A table of size 0 is one whose bucket array is NULL; a NULL bucket is an empty chain. */
  datatype HashTable<K, V> = HashTable(table: seq<seq<Entry<K, V>>>, size: nat, sizemask: Word, used: nat)

  /** `_dictReset` */
  function Reset<K, V>(): HashTable<K, V> {
    HashTable([], 0, Zero(), 0)
  }

  function Allocate<K, V>(size: nat): HashTable<K, V> {
    HashTable(seq(size, _ => []), size, SizeMask(size), 0)
  }

  // ---------- bucket indices ----------

  function Index(h: Word, mask: Word): nat {
    Value(And(h, mask))
  }

  lemma {:induction false} ValueZeros(s: seq<bool>, n: nat)
    ensures Value(s + Constant(false, n)) == Value(s)
  {
    if s != [] {
      assert (s + Constant(false, n))[1..] == s[1..] + Constant(false, n);
      ValueZeros(s[1..], n);
    } else if n > 0 {
      assert (s + Constant(false, n))[1..] == s + Constant(false, n - 1);
      ValueZeros(s, n - 1);
    } else {
      assert s + Constant(false, n) == [];
    }
  }

  lemma {:induction false} ValueInjective(a: seq<bool>, b: seq<bool>)
    requires |a| == |b| && Value(a) == Value(b)
    ensures a == b
  {
    if a != [] {
      ValueInjective(a[1..], b[1..]);
      assert a == [a[0]] + a[1..] && b == [b[0]] + b[1..];
    }
  }

  lemma MaskedPrefix(h: Word, k: nat)
    requires k <= 64
    ensures And(h, SizeMask(Pow2(k))) == h[..k] + Constant(false, 64 - k)
  {
    forall i | 0 <= i < 64
      ensures SizeMask(Pow2(k))[i] <==> i < k
    {
      SizeMaskBits(k, i);
    }
  }

  lemma IndexBound(h: Word, k: nat)
    requires k <= 64
    ensures Index(h, SizeMask(Pow2(k))) < Pow2(k)
  {
    MaskedPrefix(h, k);
    ValueZeros(h[..k], 64 - k);
    IncrementValue(h[..k]);
  }

  // ---------- what a table stores ----------

  ghost predicate PowerOfTwoSize(n: nat) {
    exists k {:trigger Pow2(k)} :: 2 <= k <= 63 && n == Pow2(k)
  }

  ghost predicate Shape<K, V>(t: HashTable<K, V>) {
    if t.size == 0 then t == Reset()
    else PowerOfTwoSize(t.size) && t.sizemask == SizeMask(t.size) && |t.table| == t.size
  }

  lemma IndexInRange<K, V>(t: HashTable<K, V>, h: Word)
    requires Shape(t) && t.size > 0
    ensures Index(h, t.sizemask) < t.size
  {
    var k :| 2 <= k <= 63 && t.size == Pow2(k);
    IndexBound(h, k);
  }

  predicate HasKey<K(==), V>(chain: seq<Entry<K, V>>, key: K) {
    exists j :: 0 <= j < |chain| && chain[j].key == key
  }

  predicate DistinctKeys<K(==), V>(chain: seq<Entry<K, V>>) {
    forall a, b :: 0 <= a < b < |chain| ==> chain[a].key != chain[b].key
  }

  /** Every entry is one of the map's, and sits in the bucket of its hash. */
  ghost predicate EntriesFrom<K, V>(hash: K -> Word, t: HashTable<K, V>, c: map<K, V>) {
    forall i, j :: 0 <= i < |t.table| && 0 <= j < |t.table[i]| ==>
      && t.table[i][j].key in c
      && c[t.table[i][j].key] == t.table[i][j].val
      && Index(hash(t.table[i][j].key), t.sizemask) == i
  }

  /** Every key of the map is in its bucket. */
  ghost predicate KeysStored<K, V>(hash: K -> Word, t: HashTable<K, V>, c: map<K, V>) {
    forall k :: k in c ==>
      Index(hash(k), t.sizemask) < |t.table| && HasKey(t.table[Index(hash(k), t.sizemask)], k)
  }

  ghost predicate Holds<K, V>(hash: K -> Word, t: HashTable<K, V>, c: map<K, V>) {
    && Shape(t)
    && t.used == |c|
    && EntriesFrom(hash, t, c)
    && KeysStored(hash, t, c)
    && forall i :: 0 <= i < |t.table| ==> DistinctKeys(t.table[i])
  }

  // ---------- changing one entry ----------

  function Insert<K, V>(t: HashTable<K, V>, i: nat, e: Entry<K, V>): HashTable<K, V>
    requires i < |t.table|
  {
    t.(table := t.table[i := [e] + t.table[i]], used := t.used + 1)
  }

  function Remove<K, V>(t: HashTable<K, V>, i: nat, j: nat): HashTable<K, V>
    requires i < |t.table| && j < |t.table[i]| && t.used > 0
  {
    t.(table := t.table[i := t.table[i][..j] + t.table[i][j + 1..]], used := t.used - 1)
  }

  function SetVal<K, V>(t: HashTable<K, V>, i: nat, j: nat, v: V): HashTable<K, V>
    requires i < |t.table| && j < |t.table[i]|
  {
    t.(table := t.table[i := t.table[i][j := t.table[i][j].(val := v)]])
  }

  lemma RemoveFrame<K, V>(t: HashTable<K, V>, i: nat, j: nat)
    requires i < |t.table| && j < |t.table[i]| && t.used > 0
    ensures Remove(t, i, j).size == t.size && |Remove(t, i, j).table| == |t.table|
    ensures forall b :: 0 <= b < |t.table| && b != i ==> Remove(t, i, j).table[b] == t.table[b]
  {
  }

  lemma AllocateHolds<K, V>(hash: K -> Word, size: nat)
    requires PowerOfTwoSize(size)
    ensures Holds<K, V>(hash, Allocate(size), map[])
  {
  }

  lemma InsertKeysStored<K, V>(hash: K -> Word, t: HashTable<K, V>, c: map<K, V>, e: Entry<K, V>)
    requires Shape(t) && t.size > 0 && KeysStored(hash, t, c)
    ensures Index(hash(e.key), t.sizemask) < |t.table|
    ensures KeysStored(hash, Insert(t, Index(hash(e.key), t.sizemask), e), c[e.key := e.val])
  {
    IndexInRange(t, hash(e.key));
    var i := Index(hash(e.key), t.sizemask);
    var t', c' := Insert(t, i, e), c[e.key := e.val];
    forall k | k in c'
      ensures Index(hash(k), t'.sizemask) < |t'.table| && HasKey(t'.table[Index(hash(k), t'.sizemask)], k)
    {
      var b := Index(hash(k), t'.sizemask);
      if k == e.key {
        assert t'.table[i][0].key == k;
      } else {
        var j :| 0 <= j < |t.table[b]| && t.table[b][j].key == k;
        assert t'.table[b][if b == i then j + 1 else j].key == k;
      }
    }
  }

  lemma InsertEntriesFrom<K, V>(hash: K -> Word, t: HashTable<K, V>, c: map<K, V>, i: nat, e: Entry<K, V>)
    requires i == Index(hash(e.key), t.sizemask) < |t.table| && e.key !in c && EntriesFrom(hash, t, c)
    requires forall b :: 0 <= b < |t.table| ==> DistinctKeys(t.table[b])
    ensures EntriesFrom(hash, Insert(t, i, e), c[e.key := e.val])
    ensures forall b :: 0 <= b < |t.table| ==> DistinctKeys(Insert(t, i, e).table[b])
  {
    var t' := Insert(t, i, e);
    assert forall j :: 0 <= j < |t.table[i]| ==> t.table[i][j].key in c;
    assert forall j :: 0 <= j < |t'.table[i]| ==> t'.table[i][j] == if j == 0 then e else t.table[i][j - 1];
  }

  lemma InsertHolds<K, V>(hash: K -> Word, t: HashTable<K, V>, c: map<K, V>, e: Entry<K, V>)
    requires Holds(hash, t, c) && t.size > 0 && e.key !in c
    ensures Index(hash(e.key), t.sizemask) < |t.table|
    ensures Holds(hash, Insert(t, Index(hash(e.key), t.sizemask), e), c[e.key := e.val])
  {
    hide EntriesFrom, KeysStored, DistinctKeys;
    InsertKeysStored(hash, t, c, e);
    InsertEntriesFrom(hash, t, c, Index(hash(e.key), t.sizemask), e);
  }

  lemma RemoveKeysStored<K, V>(hash: K -> Word, t: HashTable<K, V>, c: map<K, V>, i: nat, j: nat)
    requires i < |t.table| && j < |t.table[i]| && t.used > 0 && KeysStored(hash, t, c)
    ensures KeysStored(hash, Remove(t, i, j), c - {t.table[i][j].key})
  {
    var t', c' := Remove(t, i, j), c - {t.table[i][j].key};
    forall k | k in c'
      ensures Index(hash(k), t'.sizemask) < |t'.table| && HasKey(t'.table[Index(hash(k), t'.sizemask)], k)
    {
      var b := Index(hash(k), t'.sizemask);
      var a :| 0 <= a < |t.table[b]| && t.table[b][a].key == k;
      assert t'.table[b][if b == i && a > j then a - 1 else a].key == k;
    }
  }

  lemma RemoveEntriesFrom<K, V>(hash: K -> Word, t: HashTable<K, V>, c: map<K, V>, i: nat, j: nat)
    requires i < |t.table| && j < |t.table[i]| && t.used > 0 && EntriesFrom(hash, t, c)
    requires forall b :: 0 <= b < |t.table| ==> DistinctKeys(t.table[b])
    ensures EntriesFrom(hash, Remove(t, i, j), c - {t.table[i][j].key})
    ensures forall b :: 0 <= b < |t.table| ==> DistinctKeys(Remove(t, i, j).table[b])
  {
    var t' := Remove(t, i, j);
    assert forall a :: 0 <= a < |t'.table[i]| ==> t'.table[i][a] == t.table[i][if a < j then a else a + 1];
    assert Index(hash(t.table[i][j].key), t.sizemask) == i;
  }

  lemma RemoveHolds<K, V>(hash: K -> Word, t: HashTable<K, V>, c: map<K, V>, i: nat, j: nat)
    requires Holds(hash, t, c) && i < |t.table| && j < |t.table[i]|
    ensures t.used > 0
    ensures Holds(hash, Remove(t, i, j), c - {t.table[i][j].key})
  {
    var key := t.table[i][j].key;
    assert key in c;
    assert (c - {key}).Keys == c.Keys - {key};
    RemoveKeysStored(hash, t, c, i, j);
    RemoveEntriesFrom(hash, t, c, i, j);
  }

  lemma SetValEntriesFrom<K, V>(hash: K -> Word, t: HashTable<K, V>, c: map<K, V>, i: nat, j: nat, v: V)
    requires Shape(t) && EntriesFrom(hash, t, c) && i < |t.table| && j < |t.table[i]|
    requires forall b :: 0 <= b < |t.table| ==> DistinctKeys(t.table[b])
    ensures EntriesFrom(hash, SetVal(t, i, j, v), c[t.table[i][j].key := v])
    ensures forall b :: 0 <= b < |t.table| ==> DistinctKeys(SetVal(t, i, j, v).table[b])
  {
    hide Shape, Index;
    var t' := SetVal(t, i, j, v);
    assert forall b, a :: 0 <= b < |t.table| && 0 <= a < |t.table[b]| ==> t'.table[b][a].key == t.table[b][a].key;
    assert Index(hash(t.table[i][j].key), t.sizemask) == i;
  }

  lemma SetValHolds<K, V>(hash: K -> Word, t: HashTable<K, V>, c: map<K, V>, i: nat, j: nat, v: V)
    requires Holds(hash, t, c) && i < |t.table| && j < |t.table[i]|
    ensures Holds(hash, SetVal(t, i, j, v), c[t.table[i][j].key := v])
  {
    hide EntriesFrom, DistinctKeys;
    var key := t.table[i][j].key;
    assert key in c by { HoldsEntry(hash, t, c, i, j); }
    var t', c' := SetVal(t, i, j, v), c[key := v];
    assert c'.Keys == c.Keys;
    SetValEntriesFrom(hash, t, c, i, j, v);
    forall k | k in c'
      ensures Index(hash(k), t'.sizemask) < |t'.table| && HasKey(t'.table[Index(hash(k), t'.sizemask)], k)
    {
      var b := Index(hash(k), t'.sizemask);
      var a :| 0 <= a < |t.table[b]| && t.table[b][a].key == k;
      assert t'.table[b][a].key == k;
    }
  }

  // ---------- using Holds without unfolding it ----------

  lemma HoldsShape<K, V>(hash: K -> Word, t: HashTable<K, V>, c: map<K, V>)
    requires Holds(hash, t, c)
    ensures t.used == |c| && |t.table| == t.size
    ensures t.size == 0 ==> t.used == 0
    ensures t.used == 0 <==> c == map[]
  {
  }

  lemma ResetHolds<K, V>(hash: K -> Word)
    ensures Holds<K, V>(hash, Reset(), map[])
  {
  }

  lemma HoldsEntry<K, V>(hash: K -> Word, t: HashTable<K, V>, c: map<K, V>, i: nat, j: nat)
    requires Holds(hash, t, c) && i < |t.table| && j < |t.table[i]|
    ensures t.table[i][j].key in c && c[t.table[i][j].key] == t.table[i][j].val
  {
  }

  lemma HoldsKey<K, V>(hash: K -> Word, t: HashTable<K, V>, c: map<K, V>, key: K)
    requires Holds(hash, t, c) && t.size > 0
    ensures Index(hash(key), t.sizemask) < |t.table|
    ensures HasKey(t.table[Index(hash(key), t.sizemask)], key) <==> key in c
  {
    IndexInRange(t, hash(key));
  }

  /** Moving the first entry of a bucket from one table to the other. */
  lemma MoveHolds<K, V>(hash: K -> Word, t0: HashTable<K, V>, c0: map<K, V>, t1: HashTable<K, V>, c1: map<K, V>, b: nat)
    requires Holds(hash, t0, c0) && Holds(hash, t1, c1) && c0.Keys !! c1.Keys
    requires b < |t0.table| && t0.table[b] != [] && t1.size > 0
    ensures var de := t0.table[b][0];
      && t0.used > 0 && de.key in c0 && c0[de.key] == de.val
      && Holds(hash, t0.(table := t0.table[b := t0.table[b][1..]], used := t0.used - 1), c0 - {de.key})
      && Index(hash(de.key), t1.sizemask) < |t1.table|
      && Holds(hash, Insert(t1, Index(hash(de.key), t1.sizemask), de), c1[de.key := de.val])
  {
    hide Holds;
    HoldsEntry(hash, t0, c0, b, 0);
    RemoveHolds(hash, t0, c0, b, 0);
    InsertHolds(hash, t1, c1, t0.table[b][0]);
    assert t0.table[b][..0] + t0.table[b][1..] == t0.table[b][1..];
  }
}
