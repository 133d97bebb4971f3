/**
 The incrementally rehashed dictionary of dict.c.  While a rehash is in progress entries are
 spread over two tables and one bucket at a time moves from the first to the second; the
 methods below are proved to behave as operations on one finite map, `Contents()`, whatever
 rehash steps they trigger on the way.
 */
module Dicts {
  import opened Common
  import opened Words
  import opened HashTables

  const INITIAL_SIZE: nat := 4
  const FORCE_RESIZE_RATIO: nat := 5
  const LONG_MAX: nat := 0x7FFF_FFFF_FFFF_FFFF
  const INT_MAX: nat := 0x7FFF_FFFF

  /** p is the table size `_dictNextPower` picks for a requested size. */
  ghost predicate IsNextPower(size: nat, p: nat) {
    && PowerOfTwoSize(p)
    && if size >= LONG_MAX then p == LONG_MAX + 1 else size <= p && (p == INITIAL_SIZE || p / 2 < size)
  }

  method NextPower(size: nat) returns (p: nat)
    ensures IsNextPower(size, p)
  {
    Pow2Values();
    if size >= LONG_MAX {
      assert Pow2(63) == LONG_MAX + 1;
      return LONG_MAX + 1;
    }
    p := INITIAL_SIZE;
    ghost var k := 2;
    assert Pow2(2) == 4;
    while p < size
      invariant 2 <= k <= 63 && p == Pow2(k)
      invariant p == INITIAL_SIZE || p / 2 < size
      decreases 63 - k
    {
      if k == 63 {
        assert false;
      }
      p := p * 2;
      k := k + 1;
    }
  }

  /** The value of `(int) used`, as two's complement truncates it. */
  function TruncateToInt(n: nat): int {
    var low := n % 0x1_0000_0000;
    if low <= INT_MAX then low else low - 0x1_0000_0000
  }

  /** The value of `used * 2` in an unsigned 64-bit register. */
  function DoubleWord(n: nat): nat {
    n * 2 % 0x1_0000_0000_0000_0000
  }

  predicate NeedsGrow<K, V>(t: HashTable<K, V>, canResize: bool)
    requires t.size > 0
  {
    t.used >= t.size && (canResize || t.used / t.size > FORCE_RESIZE_RATIO)
  }

  /** The place of an entry: entry j of bucket i of ht[1] (second) or ht[0]. */
  datatype Place = Place(second: bool, i: nat, j: nat)

  /** How an attempt to add a key ends: refused when the table cannot grow. */
  datatype AddResult = Refused | Existing(place: Place) | Added

  /** How a replacement ends; NullEntry: the code dereferences a null pointer. */
  datatype ReplaceResult = New | Overwritten | NullEntry

  method FindInChain<K(==), V>(chain: seq<Entry<K, V>>, key: K) returns (j: nat)
    ensures j <= |chain|
    ensures j < |chain| ==> chain[j].key == key
    ensures j == |chain| <==> !HasKey(chain, key)
  {
    j := 0;
    while j < |chain| && chain[j].key != key
      invariant j <= |chain|
      invariant forall a :: 0 <= a < j ==> chain[a].key != key
    {
      j := j + 1;
    }
  }

  class Dict<K(==), V> {
    const hash: K -> Word
    var ht0: HashTable<K, V>
    var ht1: HashTable<K, V>
    var rehashidx: int     // -1 when no rehash is in progress
    var iterators: nat

    ghost var c0: map<K, V>
    ghost var c1: map<K, V>

    ghost predicate Valid()
      reads this
    {
      && Holds(hash, ht0, c0)
      && Holds(hash, ht1, c1)
      && c0.Keys !! c1.Keys
      && if rehashidx == -1 then ht1 == Reset() else RehashOk()
    }

    /** A rehash in progress: two tables of different size, and the first is empty below rehashidx. */
    ghost predicate RehashOk()
      reads this
    {
      && ht0.size > 0 && ht1.size > 0 && ht0.size != ht1.size
      && 0 <= rehashidx <= |ht0.table|
      && forall i :: 0 <= i < rehashidx ==> ht0.table[i] == []
    }

    ghost function Contents(): map<K, V>
      reads this
    {
      c0 + c1
    }

    constructor (hash: K -> Word)
      ensures Valid() && Contents() == map[] && rehashidx == -1 && this.hash == hash
    {
      this.hash := hash;
      ht0, ht1 := Reset(), Reset();
      rehashidx, iterators := -1, 0;
      c0, c1 := map[], map[];
    }

    // ---------- resizing ----------

    method Expand(size: nat) returns (ok: bool)
      requires Valid()
      modifies this
      ensures Valid() && Contents() == old(Contents()) && iterators == old(iterators)
      ensures !ok ==> unchanged(this)
      ensures ok <==> old(rehashidx == -1 && ht0.used <= size && !IsNextPower(size, ht0.size))
      ensures ok && old(ht0.size) == 0 ==> rehashidx == -1 && IsNextPower(size, ht0.size)
      ensures ok && old(ht0.size) != 0 ==> rehashidx == 0 && ht0 == old(ht0) && IsNextPower(size, ht1.size)
    {
      var realsize := NextPower(size);
      NextPowerUnique(size, realsize, ht0.size);
      if rehashidx != -1 || ht0.used > size {
        return false;
      }
      if realsize == ht0.size {
        return false;
      }
      var n: HashTable<K, V> := Allocate(realsize);
      AllocateHolds<K, V>(hash, realsize);
      if ht0.size == 0 {
        assert c0 == map[];
        ht0 := n;
        return true;
      }
      assert c1 == map[];
      ht1 := n;
      rehashidx := 0;
      return true;
    }

    /**
     Shrink or grow to the smallest table that holds the entries.  The count passes through an
     `int`, so a dictionary of more than INT_MAX entries is never resized.
     */
    method Resize(canResize: bool) returns (ok: bool)
      requires Valid()
      modifies this
      ensures Valid() && Contents() == old(Contents()) && iterators == old(iterators)
      ensures !ok ==> unchanged(this)
      ensures ok <==> old(canResize && rehashidx == -1 && ht0.used <= INT_MAX
                          && !IsNextPower(Max(ht0.used, INITIAL_SIZE), ht0.size))
      ensures ok ==> IsNextPower(Max(old(ht0.used), INITIAL_SIZE), if old(ht0.size) == 0 then ht0.size else ht1.size)
    {
      hide Holds, IsNextPower;
      if !canResize || rehashidx != -1 {
        return false;
      }
      var minimal := TruncateToInt(ht0.used);
      if minimal < INITIAL_SIZE {
        minimal := INITIAL_SIZE;
      }
      ok := Expand(minimal);
    }

    /** Fails exactly when the table has to grow and twice its count no longer fits a word. */
    method ExpandIfNeeded(canResize: bool) returns (ok: bool)
      requires Valid()
      modifies this
      ensures Valid() && Contents() == old(Contents()) && iterators == old(iterators)
      ensures !ok <==> old(rehashidx == -1 && ht0.size > 0 && ht0.used >= ht0.size && (canResize || ht0.used / ht0.size > 5)
                           && ht0.used > LONG_MAX)
      ensures !ok || old(rehashidx) != -1 ==> unchanged(this)
      ensures ok ==> ht0.size > 0
      ensures old(rehashidx == -1 && ht0.size == 0) ==> rehashidx == -1 && ht0.size == 4
      ensures ok && old(rehashidx == -1 && ht0.size > 0 && ht0.used >= ht0.size && (canResize || ht0.used / ht0.size > 5)) ==>
        rehashidx == 0 && ht0 == old(ht0) && IsNextPower(2 * ht0.used, ht1.size)
      ensures old(rehashidx == -1 && ht0.size > 0 && !(ht0.used >= ht0.size && (canResize || ht0.used / ht0.size > 5))) ==>
        unchanged(this)
    {
      hide Holds, IsNextPower, NeedsGrow, DoubleWord;
      EmptyCanExpand(ht0);
      GrowMeans(ht0, canResize);
      if rehashidx != -1 {
        return true;
      }
      if ht0.size == 0 {
        HoldsShape(hash, ht0, c0);
        ok := Expand(INITIAL_SIZE);
        FirstSize(ht0.size);
        return;
      }
      if NeedsGrow(ht0, canResize) {
        HoldsShape(hash, ht0, c0);
        GrowthRequest(ht0, canResize);
        ok := Expand(DoubleWord(ht0.used));
        return;
      }
      return true;
    }

    // ---------- incremental rehashing ----------

    lemma NonEmptyAhead() returns (i: nat)
      requires Valid() && rehashidx != -1 && ht0.used != 0
      ensures rehashidx <= i < |ht0.table| && ht0.table[i] != []
    {
      assert c0.Keys != {};
      var k :| k in c0;
      i := Index(hash(k), ht0.sizemask);
    }

    /** Move every entry of one bucket of ht[0] to the head of its chain in ht[1]. */
    method MoveBucket()
      requires Valid() && rehashidx != -1 && rehashidx < |ht0.table|
      modifies this
      ensures Valid() && Contents() == old(Contents()) && iterators == old(iterators)
      ensures rehashidx == old(rehashidx) + 1
      ensures ht0.size == old(ht0.size) && ht1.size == old(ht1.size) && ht0.table == old(ht0.table)[old(rehashidx) := []]
    {
      hide Holds;
      var b: nat := rehashidx;
      var chain := ht0.table[b];
      var n := 0;
      assert ht0.table[b := chain[0..]] == ht0.table;
      while n < |chain|
        invariant n <= |chain| && chain == old(ht0.table[b]) && iterators == old(iterators)
        invariant rehashidx == b && ht0.size == old(ht0.size) && ht1.size == old(ht1.size)
        invariant ht0.table == old(ht0.table) && ht0.sizemask == old(ht0.sizemask)
        invariant Holds(hash, ht0.(table := ht0.table[b := chain[n..]]), c0)
        invariant Holds(hash, ht1, c1)
        invariant c0.Keys !! c1.Keys && c0 + c1 == old(c0 + c1)
      {
        var de := chain[n];
        ghost var rest := ht0.(table := ht0.table[b := chain[n..]]);
        assert rest.table[b] == chain[n..] && chain[n..][1..] == chain[n + 1..];
        MoveHolds(hash, rest, c0, ht1, c1, b);
        assert rest.table[b := chain[n + 1..]] == ht0.table[b := chain[n + 1..]];
        var h := Index(hash(de.key), ht1.sizemask);
        ht1 := Insert(ht1, h, de);
        ht0 := ht0.(used := ht0.used - 1);
        c0, c1 := c0 - {de.key}, c1[de.key := de.val];
        n := n + 1;
      }
      assert chain[n..] == [];
      ht0 := ht0.(table := ht0.table[b := []]);
      rehashidx := rehashidx + 1;
    }

    /** The loop of `dictRehash` over NULL buckets; 0 when the budget of visits is used up. */
    method SkipEmpty(visits: nat) returns (left: nat)
      requires Valid() && rehashidx != -1 && ht0.used != 0 && visits > 0
      modifies this`rehashidx
      ensures Valid() && left <= visits && rehashidx == old(rehashidx) + (visits - left)
      ensures forall i :: old(rehashidx) <= i < rehashidx ==> ht0.table[i] == []
      ensures left > 0 ==> rehashidx < |ht0.table| && ht0.table[rehashidx] != []
    {
      hide Holds;
      left := visits;
      ghost var ahead := NonEmptyAhead();
      while ht0.table[rehashidx] == []
        invariant Valid() && rehashidx != -1 && 0 < left <= visits
        invariant forall i :: old(rehashidx) <= i < rehashidx ==> ht0.table[i] == []
        invariant rehashidx == old(rehashidx) + (visits - left) <= ahead < |ht0.table| && ht0.table[ahead] != []
        decreases left
      {
        rehashidx := rehashidx + 1;
        left := left - 1;
        if left == 0 {
          return;
        }
      }
    }

    /** `dictRehash`: true while entries are left in ht[0].  A call makes progress, by at most n buckets and ten times as many empty ones. */
    method Rehash(n: nat) returns (more: bool)
      requires Valid()
      modifies this
      ensures Valid() && Contents() == old(Contents()) && iterators == old(iterators)
      ensures more <==> rehashidx != -1
      ensures old(rehashidx) == -1 ==> unchanged(this)
      ensures rehashidx == -1 || (rehashidx >= old(rehashidx) && ht0.size == old(ht0.size) && ht1.size == old(ht1.size))
      ensures old(rehashidx) != -1 && rehashidx == -1 ==> ht0.size == old(ht1.size)
      ensures old(rehashidx) != -1 && n > 0 ==> rehashidx == -1 || rehashidx > old(rehashidx)
      ensures rehashidx != -1 ==> rehashidx <= old(rehashidx) + 11 * n
      ensures rehashidx != -1 ==> rehashidx <= old(|ht0.table|)
      ensures rehashidx != -1 ==>
        var filled := Filled(old(ht0.table), old(rehashidx), rehashidx);
        filled == n || rehashidx - old(rehashidx) - filled == 10 * n
    {
      hide Holds;
      var emptyVisits: nat := 10 * n;
      if rehashidx == -1 {
        return false;
      }
      var left: nat := n;
      while left > 0 && ht0.used != 0
        invariant Valid() && Contents() == old(Contents()) && iterators == old(iterators)
        invariant left <= n && emptyVisits <= 10 * n
        invariant rehashidx != -1 && old(rehashidx) + (n - left) <= rehashidx <= old(rehashidx) + (n - left) + (10 * n - emptyVisits)
        invariant ht0.size == old(ht0.size) && ht1.size == old(ht1.size)
        invariant left > 0 ==> emptyVisits > 0
        invariant |ht0.table| == old(|ht0.table|) && forall i :: rehashidx <= i < |ht0.table| ==> ht0.table[i] == old(ht0.table)[i]
        invariant rehashidx <= |ht0.table| && Filled(old(ht0.table), old(rehashidx), rehashidx) == n - left
        invariant rehashidx - old(rehashidx) == (n - left) + (10 * n - emptyVisits)
        decreases left
      {
        left := left - 1;
        ghost var from := rehashidx;
        emptyVisits := SkipEmpty(emptyVisits);
        NoneFilled(old(ht0.table), old(rehashidx), from, rehashidx);
        if emptyVisits == 0 {
          return true;
        }
        MoveBucket();
      }
      if ht0.used == 0 {
        FinishRehash();
        return false;
      }
      return true;
    }

    /** All entries are in the second table, which becomes the first. */
    method FinishRehash()
      requires Valid() && rehashidx != -1 && ht0.used == 0
      modifies this
      ensures Valid() && Contents() == old(Contents()) && iterators == old(iterators)
      ensures rehashidx == -1 && ht0 == old(ht1)
    {
      hide Holds;
      HoldsShape(hash, ht0, c0);
      ResetHolds<K, V>(hash);
      ht0, c0 := ht1, c1;
      ht1, c1 := Reset(), map[];
      rehashidx := -1;
    }

    method RehashStep()
      requires Valid()
      modifies this
      ensures Valid() && Contents() == old(Contents()) && iterators == old(iterators)
      ensures old(iterators > 0 || rehashidx == -1) ==> unchanged(this)
      ensures old(iterators == 0 && rehashidx != -1) ==> rehashidx == -1 || rehashidx > old(rehashidx)
      ensures old(rehashidx) != -1 && rehashidx == -1 ==> ht0.size == old(ht1.size)
    {
      if iterators == 0 {
        var _ := Rehash(1);
      }
    }

    // ---------- lookups and updates ----------

    ghost predicate IsPlaceOf(p: Place, key: K)
      reads this
    {
      var t := if p.second then ht1 else ht0;
      p.i < |t.table| && p.j < |t.table[p.i]| && t.table[p.i][p.j].key == key
    }

    /** The search loop shared by `dictFind`, `dictGenericDelete` and `_dictKeyIndex`. */
    method Locate(key: K) returns (r: Option<Place>)
      requires Valid() && ht0.size > 0
      ensures r.None? <==> key !in Contents()
      ensures r.Some? ==> IsPlaceOf(r.value, key)
      ensures r.Some? ==> key in if r.value.second then c1 else c0
    {
      hide Holds, HasKey;
      HoldsKey(hash, ht0, c0, key);
      var idx := Index(hash(key), ht0.sizemask);
      var j := FindInChain(ht0.table[idx], key);
      if j < |ht0.table[idx]| {
        return Some(Place(false, idx, j));
      }
      if rehashidx == -1 {
        HoldsShape(hash, ht1, c1);
        return None;
      }
      HoldsKey(hash, ht1, c1, key);
      idx := Index(hash(key), ht1.sizemask);
      j := FindInChain(ht1.table[idx], key);
      if j < |ht1.table[idx]| {
        return Some(Place(true, idx, j));
      }
      return None;
    }

    /** With this many entries, a table that is not being rehashed has to grow and cannot. */
    ghost predicate CannotGrow(count: nat, canResize: bool)
      reads this
    {
      rehashidx == -1 && ht0.size > 0 && count > LONG_MAX && (canResize || count / ht0.size > FORCE_RESIZE_RATIO)
    }

    /** The rehash step and the growth with which an addition begins. */
    method MakeRoom(canResize: bool) returns (ok: bool)
      requires Valid()
      modifies this
      ensures Valid() && Contents() == old(Contents()) && iterators == old(iterators)
      ensures old(iterators == 0 && rehashidx != -1) ==> rehashidx == -1 || rehashidx > old(rehashidx) || ht0.size == old(ht1.size)
      ensures ok ==> ht0.size > 0
      ensures !ok <==> CannotGrow(|Contents()|, canResize)
    {
      hide Holds, NeedsGrow, IsNextPower;
      if rehashidx != -1 {
        RehashStep();
      }
      ContentsAtLeast(c0, c1);
      HoldsShape(hash, ht0, c0);
      HoldsShape(hash, ht1, c1);
      SizeBound(hash, ht0, c0);
      ghost var blocked := CannotGrow(|Contents()|, canResize);
      assert blocked <==> rehashidx == -1 && ht0.size > 0 && ht0.used >= ht0.size && (canResize || ht0.used / ht0.size > 5) && ht0.used > LONG_MAX;
      ok := ExpandIfNeeded(canResize);
    }

    /** `dictAddRaw` followed by `dictSetVal` on the new entry. */
    method AddRaw(key: K, val: V, canResize: bool) returns (r: AddResult)
      requires Valid()
      modifies this
      ensures Valid() && iterators == old(iterators)
      ensures r.Existing? <==> key in old(Contents()) && !r.Refused?
      ensures r.Refused? <==> CannotGrow(|old(Contents())|, canResize)
      ensures Contents() == if r.Added? then old(Contents())[key := val] else old(Contents())
      ensures r.Existing? ==> IsPlaceOf(r.place, key) && key in if r.place.second then c1 else c0
      ensures r.Added? ==> InFront(Entry(key, val))
      ensures old(iterators == 0 && rehashidx != -1) ==> rehashidx == -1 || rehashidx > old(rehashidx) || ht0.size == old(ht1.size)
    {
      hide Holds;
      var ok := MakeRoom(canResize);
      if !ok {
        return Refused;
      }
      var found := Locate(key);
      if found.Some? {
        return Existing(found.value);
      }
      InsertNew(key, val);
      return Added;
    }

    /** The entry is the first of its chain, in ht[1] while rehashing. */
    ghost predicate InFront(e: Entry<K, V>)
      reads this
    {
      var t := if rehashidx != -1 then ht1 else ht0;
      var b := Index(hash(e.key), t.sizemask);
      b < |t.table| && t.table[b] != [] && t.table[b][0].key == e.key
    }

    /** New entries go to the head of their chain, in ht[1] while rehashing. */
    method InsertNew(key: K, val: V)
      requires Valid() && ht0.size > 0 && key !in Contents()
      modifies this
      ensures Valid() && iterators == old(iterators) && Contents() == old(Contents())[key := val]
      ensures rehashidx == old(rehashidx) && ht0.size == old(ht0.size)
      ensures InFront(Entry(key, val))
    {
      hide Holds;
      SplitUpdate(c0, c1, key, val);
      var e := Entry(key, val);
      if rehashidx != -1 {
        InsertHolds(hash, ht1, c1, e);
        ht1 := Insert(ht1, Index(hash(key), ht1.sizemask), e);
        c1 := c1[key := val];
      } else {
        InsertHolds(hash, ht0, c0, e);
        HoldsShape(hash, ht1, c1);
        ht0 := Insert(ht0, Index(hash(key), ht0.sizemask), e);
        c0 := c0[key := val];
      }
    }

    method Overwrite(p: Place, key: K, val: V)
      requires Valid() && IsPlaceOf(p, key) && key in if p.second then c1 else c0
      modifies this
      ensures Valid() && iterators == old(iterators) && Contents() == old(Contents())[key := val]
      ensures rehashidx == old(rehashidx) && ht0.size == old(ht0.size)
    {
      hide Holds;
      SplitUpdate(c0, c1, key, val);
      if p.second {
        SetValHolds(hash, ht1, c1, p.i, p.j, val);
        ht1 := SetVal(ht1, p.i, p.j, val);
        c1 := c1[key := val];
      } else {
        SetValHolds(hash, ht0, c0, p.i, p.j, val);
        ht0 := SetVal(ht0, p.i, p.j, val);
        c0 := c0[key := val];
      }
    }

    method Unlink(p: Place, key: K) returns (val: V)
      requires Valid() && IsPlaceOf(p, key) && key in if p.second then c1 else c0
      modifies this
      ensures rehashidx == old(rehashidx)
      ensures Valid() && iterators == old(iterators)
      ensures val == old(Contents())[key] && Contents() == old(Contents()) - {key}
    {
      if p.second {
        val := UnlinkSecond(p.i, p.j);
      } else {
        val := UnlinkFirst(p.i, p.j);
      }
    }

    method UnlinkFirst(i: nat, j: nat) returns (val: V)
      requires Valid() && i < |ht0.table| && j < |ht0.table[i]|
      modifies this
      ensures rehashidx == old(rehashidx)
      ensures Valid() && iterators == old(iterators) && old(ht0.table[i][j].key in c0)
      ensures val == old(c0[ht0.table[i][j].key]) && Contents() == old(Contents()) - {old(ht0.table[i][j].key)}
    {
      hide Holds, Remove;
      HoldsEntry(hash, ht0, c0, i, j);
      SplitRemove(c0, c1, ht0.table[i][j].key);
      RemoveHolds(hash, ht0, c0, i, j);
      RemoveFrame(ht0, i, j);
      val := ht0.table[i][j].val;
      c0 := c0 - {ht0.table[i][j].key};
      ht0 := Remove(ht0, i, j);
    }

    method UnlinkSecond(i: nat, j: nat) returns (val: V)
      requires Valid() && i < |ht1.table| && j < |ht1.table[i]|
      modifies this
      ensures rehashidx == old(rehashidx)
      ensures Valid() && iterators == old(iterators) && old(ht1.table[i][j].key in c1)
      ensures val == old(c1[ht1.table[i][j].key]) && Contents() == old(Contents()) - {old(ht1.table[i][j].key)}
    {
      hide Holds, Remove;
      HoldsEntry(hash, ht1, c1, i, j);
      SplitRemove(c0, c1, ht1.table[i][j].key);
      RemoveHolds(hash, ht1, c1, i, j);
      RemoveFrame(ht1, i, j);
      val := ht1.table[i][j].val;
      c1 := c1 - {ht1.table[i][j].key};
      ht1 := Remove(ht1, i, j);
    }

    method Add(key: K, val: V, canResize: bool) returns (ok: bool)
      requires Valid()
      modifies this
      ensures Valid() && iterators == old(iterators)
      ensures ok <==> key !in old(Contents()) && !CannotGrow(|old(Contents())|, canResize)
      ensures Contents() == if ok then old(Contents())[key := val] else old(Contents())
    {
      var r := AddRaw(key, val, canResize);
      return r.Added?;
    }

    /** An existing value is overwritten in place; when the addition is refused there is no entry to overwrite. */
    method Replace(key: K, val: V, canResize: bool) returns (r: ReplaceResult)
      requires Valid()
      modifies this
      ensures Valid() && iterators == old(iterators)
      ensures r.NullEntry? <==> CannotGrow(|old(Contents())|, canResize)
      ensures r.New? ==> key !in old(Contents())
      ensures r.Overwritten? ==> key in old(Contents())
      ensures Contents() == if r.NullEntry? then old(Contents()) else old(Contents())[key := val]
    {
      hide Holds;
      var added := AddRaw(key, val, canResize);
      match added
      case Added => return New;
      case Refused => return NullEntry;
      case Existing(place) =>
        Overwrite(place, key, val);
        return Overwritten;
    }

    /** `dictGenericDelete`: the removed value, if the key was there. */
    method Delete(key: K) returns (r: Option<V>)
      requires Valid()
      modifies this
      ensures Valid() && iterators == old(iterators)
      ensures r == if key in old(Contents()) then Some(old(Contents())[key]) else None
      ensures Contents() == old(Contents()) - {key}
      ensures old(iterators == 0 && rehashidx != -1 && Contents() != map[]) ==> rehashidx == -1 || rehashidx > old(rehashidx)
    {
      hide Holds;
      SizeIsUsed();
      if ht0.used == 0 && ht1.used == 0 {
        return None;
      }
      if rehashidx != -1 {
        RehashStep();
      }
      r := DeleteFrom(key);
    }

    method DeleteFrom(key: K) returns (r: Option<V>)
      requires Valid() && Contents() != map[]
      modifies this
      ensures rehashidx == old(rehashidx)
      ensures Valid() && iterators == old(iterators)
      ensures r == if key in old(Contents()) then Some(old(Contents())[key]) else None
      ensures Contents() == old(Contents()) - {key}
    {
      hide Holds;
      NonEmptyHasTable();
      var found := Locate(key);
      if found.None? {
        return None;
      }
      var val := Unlink(found.value, key);
      return Some(val);
    }

    /** `dictSize` is the number of keys. */
    lemma SizeIsUsed()
      requires Valid()
      ensures ht0.used + ht1.used == |Contents()|
    {
      ContentsAtLeast(c0, c1);
    }

    lemma NonEmptyHasTable()
      requires Valid() && Contents() != map[]
      ensures ht0.size > 0
    {
    }

    method Find(key: K) returns (r: Option<V>)
      requires Valid()
      modifies this
      ensures Valid() && iterators == old(iterators)
      ensures r == if key in old(Contents()) then Some(old(Contents())[key]) else None
      ensures Contents() == old(Contents())
      ensures old(iterators == 0 && rehashidx != -1 && Contents() != map[]) ==> rehashidx == -1 || rehashidx > old(rehashidx)
    {
      hide Holds;
      HoldsShape(hash, ht0, c0);
      HoldsShape(hash, ht1, c1);
      if ht0.used + ht1.used == 0 {
        return None;
      }
      if rehashidx != -1 {
        RehashStep();
      }
      NonEmptyHasTable();
      var found := Locate(key);
      if found.None? {
        return None;
      }
      var p := found.value;
      if p.second {
        HoldsEntry(hash, ht1, c1, p.i, p.j);
        return Some(ht1.table[p.i][p.j].val);
      }
      HoldsEntry(hash, ht0, c0, p.i, p.j);
      return Some(ht0.table[p.i][p.j].val);
    }

    /** `dictEmpty` */
    method Empty()
      requires Valid()
      modifies this
      ensures Valid() && Contents() == map[] && rehashidx == -1 && iterators == 0
    {
      ht0, ht1 := Reset(), Reset();
      c0, c1 := map[], map[];
      rehashidx, iterators := -1, 0;
    }
  }

  /** The number of buckets from lo up to, not including, hi that hold something. */
  ghost function Filled<K, V>(table: seq<seq<Entry<K, V>>>, lo: nat, hi: nat): nat
    requires lo <= hi <= |table|
  {
    if lo == hi then 0 else Filled(table, lo, hi - 1) + Occupied(table[hi - 1])
  }

  ghost function Occupied<T>(chain: seq<T>): nat {
    if chain == [] then 0 else 1
  }

  lemma {:induction false} NoneFilled<K, V>(table: seq<seq<Entry<K, V>>>, lo: nat, mid: nat, hi: nat)
    requires lo <= mid <= hi <= |table| && forall i :: mid <= i < hi ==> table[i] == []
    ensures Filled(table, lo, hi) == Filled(table, lo, mid)
    decreases hi - mid
  {
    if mid < hi {
      NoneFilled(table, lo, mid, hi - 1);
    }
  }

  lemma SplitUpdate<K, V>(c0: map<K, V>, c1: map<K, V>, key: K, val: V)
    ensures c0 + c1[key := val] == (c0 + c1)[key := val]
    ensures key !in c1 ==> c0[key := val] + c1 == (c0 + c1)[key := val]
  {
  }

  lemma SplitRemove<K, V>(c0: map<K, V>, c1: map<K, V>, key: K)
    ensures key !in c0 ==> c0 + (c1 - {key}) == (c0 + c1) - {key}
    ensures key !in c1 ==> (c0 - {key}) + c1 == (c0 + c1) - {key}
  {
  }

  lemma ContentsAtLeast<K, V>(c0: map<K, V>, c1: map<K, V>)
    requires c0.Keys !! c1.Keys
    ensures |c0 + c1| == |c0| + |c1|
  {
    assert (c0 + c1).Keys == c0.Keys + c1.Keys;
  }

  lemma GrowMeans<K, V>(t: HashTable<K, V>, canResize: bool)
    ensures t.size > 0 ==> (NeedsGrow(t, canResize) <==> t.used >= t.size && (canResize || t.used / t.size > 5))
    ensures t.used <= LONG_MAX ==> DoubleWord(t.used) == 2 * t.used
  {
  }

  lemma FirstSize(size: nat)
    requires IsNextPower(INITIAL_SIZE, size)
    ensures size == 4
  {
    NextPowerUnique(INITIAL_SIZE, size, 4);
    assert Pow2(2) == 4;
  }

  lemma EmptyCanExpand<K, V>(t: HashTable<K, V>)
    ensures t.size == 0 ==> !IsNextPower(INITIAL_SIZE, t.size)
  {
  }

  lemma SizeBound<K, V>(hash: K -> Word, t: HashTable<K, V>, c: map<K, V>)
    requires Holds(hash, t, c)
    ensures t.size <= LONG_MAX + 1
  {
    if t.size > 0 {
      var k :| 2 <= k <= 63 && t.size == Pow2(k);
      hide Pow2, Holds;
      Pow2Values();
      if k < 63 {
        Pow2Monotonic(k, 63);
      }
    }
  }

  lemma GrowthRequest<K, V>(t: HashTable<K, V>, canResize: bool)
    requires t.size > 0 && NeedsGrow(t, canResize)
    ensures t.used <= LONG_MAX ==> t.used <= DoubleWord(t.used) && !IsNextPower(DoubleWord(t.used), t.size)
    ensures t.used > LONG_MAX ==> DoubleWord(t.used) < t.used
  {
  }

  lemma NextPowerUnique(size: nat, p: nat, q: nat)
    requires IsNextPower(size, p)
    ensures IsNextPower(size, q) <==> p == q
  {
    if IsNextPower(size, q) && p != q && size < LONG_MAX {
      var j :| 2 <= j <= 63 && p == Pow2(j);
      var k :| 2 <= k <= 63 && q == Pow2(k);
      if j < k {
        PowersApart(j, k);
      } else {
        PowersApart(k, j);
      }
    }
  }

  lemma PowersApart(j: nat, k: nat)
    requires 2 <= j < k
    ensures Pow2(k) > 4 && Pow2(j) <= Pow2(k) / 2
  {
    if j < k - 1 {
      Pow2Monotonic(j, k - 1);
    }
    if 2 < k - 1 {
      Pow2Monotonic(2, k - 1);
    }
    assert Pow2(2) == 4;
  }
}
