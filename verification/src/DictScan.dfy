/**
 `dictScan` and the promises of its documentation: a scan that starts at cursor 0 and runs until
 the cursor comes back to 0 returns every element that was present all along, no matter how the
 dictionary changed between the calls.
 */
module DictScan {
  import opened Words
  import opened ScanOrder
  import opened HashTables
  import opened Dicts

  // ---------- one call ----------

  ghost predicate EmitsFrom<K, V>(emitted: seq<Entry<K, V>>, c: map<K, V>) {
    forall j :: 0 <= j < |emitted| ==> emitted[j].key in c && c[emitted[j].key] == emitted[j].val
  }

  /**
   What one call with cursor v on a dictionary holding c guarantees: it returns entries of the
   dictionary, the cursor advances, and nothing between the two cursors is skipped.
   */
  ghost predicate ScanStep<K, V>(hash: K -> Word, c: map<K, V>, v: Word, next: Word, emitted: seq<Entry<K, V>>) {
    && EmitsFrom(emitted, c)
    && (c == map[] ==> next == Zero() && emitted == [])
    && (c != map[] ==> Before(v, next))
    && forall k :: k in c && !Less(hash(k), v) && Before(hash(k), next) ==> HasKey(emitted, k)
  }

  /** All entries of h's bucket have been emitted. */
  ghost predicate BucketEmitted<K, V>(t: HashTable<K, V>, h: Word, emitted: seq<Entry<K, V>>)
  {
    Index(h, t.sizemask) < |t.table| &&
    forall j :: 0 <= j < |t.table[Index(h, t.sizemask)]| ==> t.table[Index(h, t.sizemask)][j] in emitted
  }

  ghost predicate TakenFrom<K, V>(t: HashTable<K, V>, emitted: seq<Entry<K, V>>) {
    forall e :: e in emitted ==> exists i, j :: 0 <= i < |t.table| && 0 <= j < |t.table[i]| && t.table[i][j] == e
  }

  /** No bucket of a word from v up to (not including) the cursor `upto` has been skipped. */
  ghost predicate Covered<K, V>(t: HashTable<K, V>, v: Word, upto: Word, emitted: seq<Entry<K, V>>) {
    forall h: Word :: !Less(h, v) && Before(h, upto) ==> BucketEmitted(t, h, emitted)
  }

  lemma BucketExtends<K, V>(t: HashTable<K, V>, h: Word, emitted: seq<Entry<K, V>>, more: seq<Entry<K, V>>)
    requires BucketEmitted(t, h, emitted)
    ensures BucketEmitted(t, h, emitted + more)
  {
    hide Index;
  }

  /** Emitting the cursor's bucket covers everything up to the next cursor. */
  lemma CoverStep<K, V>(t: HashTable<K, V>, k: nat, v: Word, cur: Word, emitted: seq<Entry<K, V>>, emitted': seq<Entry<K, V>>)
    requires k <= 63 && Shape(t) && t.size == Pow2(k)
    requires forall h: Word :: !Less(h, v) && Less(h, cur) ==> BucketEmitted(t, h, emitted)
    requires Index(cur, t.sizemask) < |t.table| && emitted' == emitted + t.table[Index(cur, t.sizemask)]
    ensures Covered(t, v, Next(cur, t.sizemask), emitted')
  {
    hide Next, SizeMask, Less, Value, And;
    forall h: Word | !Less(h, v) && Before(h, Next(cur, t.sizemask))
      ensures BucketEmitted(t, h, emitted')
    {
      if Less(h, cur) {
        BucketExtends(t, h, emitted, t.table[Index(cur, t.sizemask)]);
      } else {
        NextCoversBucket(h, cur, k);
      }
    }
  }

  lemma TakenStep<K, V>(t: HashTable<K, V>, i: nat, emitted: seq<Entry<K, V>>)
    requires i < |t.table| && TakenFrom(t, emitted)
    ensures TakenFrom(t, emitted + t.table[i])
  {
    forall e | e in emitted + t.table[i]
      ensures exists i, j :: 0 <= i < |t.table| && 0 <= j < |t.table[i]| && t.table[i][j] == e
    {
      if e !in emitted {
        var j :| 0 <= j < |t.table[i]| && t.table[i][j] == e;
      }
    }
  }

  /** The loop over the buckets of the larger table that expand the cursor's bucket in the smaller one. */
  method ScanExpansions<K, V>(large: HashTable<K, V>, m0: Word, v: Word, ghost j: nat, ghost k: nat)
    returns (emitted: seq<Entry<K, V>>, next: Word)
    requires j < k <= 63 && m0 == SizeMask(Pow2(j))
    requires Shape(large) && large.size == Pow2(k)
    ensures next == Next(v, m0)
    ensures TakenFrom(large, emitted)
    ensures Covered(large, v, next, emitted)
  {
    hide Next, SizeMask, Less, InsideBlock, Index, BucketEmitted, TakenFrom;
    var m1 := large.sizemask;
    IndexInRange(large, v);
    emitted := [] + large.table[Index(v, m1)];
    next := Next(v, m1);
    CoverStep(large, k, v, v, [], emitted);
    TakenNothing(large);
    TakenStep(large, Index(v, m1), []);
    StepInBlock(v, j, k);
    while InsideBlock(next, m0, m1)
      invariant TakenFrom(large, emitted)
      invariant Covered(large, v, next, emitted)
      invariant if InsideBlock(next, m0, m1) then next[..j] == v[..j] else next == Next(v, m0)
      decreases if InsideBlock(next, m0, m1) then 1 + Pow2(64) - Reversed(next) else 0
    {
      ghost var before := next;
      ghost var had := emitted;
      InsideIsNotZero(next, m0, m1);
      IndexInRange(large, next);
      TakenStep(large, Index(next, m1), emitted);
      StepInBlock(next, j, k);
      NextOfBlock(v, next, j);
      emitted := emitted + large.table[Index(next, m1)];
      next := Next(next, m1);
      CoverStep(large, k, v, before, had, emitted);
      LessIsReversed(before, next);
    }
  }

  lemma TakenNothing<K, V>(t: HashTable<K, V>)
    ensures TakenFrom<K, V>(t, [])
  {
  }

  lemma InsideIsNotZero(v: Word, m0: Word, m1: Word)
    requires InsideBlock(v, m0, m1)
    ensures v != Zero()
  {
  }

  lemma BucketInRange<K, V>(hash: K -> Word, t: HashTable<K, V>, c: map<K, V>, v: Word)
    requires Holds(hash, t, c) && t.size > 0
    ensures Shape(t) && Index(v, t.sizemask) < |t.table|
  {
    IndexInRange(t, v);
  }

  lemma SizeExponent<K, V>(hash: K -> Word, t: HashTable<K, V>, c: map<K, V>) returns (k: nat)
    requires Holds(hash, t, c) && t.size > 0
    ensures Shape(t) && 2 <= k <= 63 && t.size == Pow2(k) && t.sizemask == SizeMask(Pow2(k))
  {
    k :| 2 <= k <= 63 && t.size == Pow2(k);
  }

  lemma SizeExponents<K, V>(hash: K -> Word, t0: HashTable<K, V>, c0: map<K, V>, t1: HashTable<K, V>, c1: map<K, V>)
    returns (j: nat, k: nat)
    requires Holds(hash, t0, c0) && Holds(hash, t1, c1) && 0 < t0.size < t1.size
    ensures j < k <= 63 && Shape(t1) && t1.size == Pow2(k)
    ensures t0.size == Pow2(j) && t0.sizemask == SizeMask(Pow2(j))
  {
    hide Holds;
    j := SizeExponent(hash, t0, c0);
    k := SizeExponent(hash, t1, c1);
    if k < j {
      Pow2Monotonic(k, j);
    }
  }

  /** A key whose hash falls in an emitted bucket has been emitted. */
  lemma EmittedKey<K, V>(hash: K -> Word, t: HashTable<K, V>, c: map<K, V>, k: K, emitted: seq<Entry<K, V>>)
    requires Holds(hash, t, c) && t.size > 0 && k in c && BucketEmitted(t, hash(k), emitted)
    ensures HasKey(emitted, k)
  {
    hide Holds;
    HoldsKey(hash, t, c, k);
    var b := Index(hash(k), t.sizemask);
    var j :| 0 <= j < |t.table[b]| && t.table[b][j].key == k;
    assert t.table[b][j] in emitted;
  }

  lemma BucketEmits<K, V>(hash: K -> Word, t: HashTable<K, V>, c: map<K, V>, v: Word, j: nat)
    requires Holds(hash, t, c) && 0 < t.size == Pow2(j) && j <= 63
    requires Index(v, t.sizemask) < |t.table|
    ensures EmitsFrom(t.table[Index(v, t.sizemask)], c)
    ensures Covered(t, v, Next(v, t.sizemask), t.table[Index(v, t.sizemask)])
  {
    var bucket := t.table[Index(v, t.sizemask)];
    assert [] + bucket == bucket;
    CoverStep(t, j, v, v, [], bucket);
  }

  lemma ScanOne<K, V>(hash: K -> Word, t: HashTable<K, V>, c: map<K, V>, v: Word)
    requires Holds(hash, t, c) && t.size > 0 && c != map[]
    requires Index(v, t.sizemask) < |t.table|
    ensures ScanStep(hash, c, v, Next(v, t.sizemask), t.table[Index(v, t.sizemask)])
  {
    hide Holds, Next, Less, Index, BucketEmitted;
    var j := SizeExponent(hash, t, c);
    BucketEmits(hash, t, c, v, j);
    NextAdvances(v, j);
    forall k | k in c && !Less(hash(k), v) && Before(hash(k), Next(v, t.sizemask))
      ensures HasKey(t.table[Index(v, t.sizemask)], k)
    {
      EmittedKey(hash, t, c, k, t.table[Index(v, t.sizemask)]);
    }
  }

  lemma TakenEmits<K, V>(hash: K -> Word, t: HashTable<K, V>, c: map<K, V>, emitted: seq<Entry<K, V>>)
    requires Holds(hash, t, c) && TakenFrom(t, emitted)
    ensures EmitsFrom(emitted, c)
  {
    hide Holds;
    forall n | 0 <= n < |emitted|
      ensures emitted[n].key in c && c[emitted[n].key] == emitted[n].val
    {
      assert emitted[n] in emitted;
      var i, j :| 0 <= i < |t.table| && 0 <= j < |t.table[i]| && t.table[i][j] == emitted[n];
      HoldsEntry(hash, t, c, i, j);
    }
  }

  lemma HasKeyConcat<K, V>(a: seq<Entry<K, V>>, b: seq<Entry<K, V>>, k: K)
    requires HasKey(a, k) || HasKey(b, k)
    ensures HasKey(a + b, k)
  {
    if HasKey(a, k) {
      var j :| 0 <= j < |a| && a[j].key == k;
      assert (a + b)[j].key == k;
    } else {
      var j :| 0 <= j < |b| && b[j].key == k;
      assert (a + b)[|a| + j].key == k;
    }
  }

  lemma ScanBoth<K, V>(hash: K -> Word, t0: HashTable<K, V>, c0: map<K, V>, t1: HashTable<K, V>, c1: map<K, V>,
                       v: Word, rest: seq<Entry<K, V>>, j: nat)
    requires Holds(hash, t0, c0) && Holds(hash, t1, c1) && c0.Keys !! c1.Keys && c0 + c1 != map[]
    requires 0 < t0.size == Pow2(j) && j <= 63 && t1.size > 0 && t0.sizemask == SizeMask(Pow2(j))
    requires Index(v, t0.sizemask) < |t0.table|
    requires TakenFrom(t1, rest) && Covered(t1, v, Next(v, t0.sizemask), rest)
    ensures ScanStep(hash, c0 + c1, v, Next(v, t0.sizemask), t0.table[Index(v, t0.sizemask)] + rest)
  {
    hide Holds, Next, Less, Index, BucketEmitted, TakenFrom;
    var bucket, next := t0.table[Index(v, t0.sizemask)], Next(v, t0.sizemask);
    BucketEmits(hash, t0, c0, v, j);
    TakenEmits(hash, t1, c1, rest);
    NextAdvances(v, j);
    forall k | k in c0 + c1 && !Less(hash(k), v) && Before(hash(k), next)
      ensures HasKey(bucket + rest, k)
    {
      if k in c0 {
        EmittedKey(hash, t0, c0, k, bucket);
      } else {
        EmittedKey(hash, t1, c1, k, rest);
      }
      HasKeyConcat(bucket, rest, k);
    }
  }

  /** `dictScan` */
  method Scan<K, V>(d: Dict<K, V>, v: Word) returns (emitted: seq<Entry<K, V>>, next: Word)
    requires d.Valid()
    ensures ScanStep(d.hash, d.Contents(), v, next, emitted)
    ensures d.rehashidx == -1 && d.Contents() != map[] ==>
      && Index(v, d.ht0.sizemask) < |d.ht0.table|
      && emitted == d.ht0.table[Index(v, d.ht0.sizemask)]
      && next == Next(v, d.ht0.sizemask)
  {
    hide Holds, Next, Less, Index;
    HoldsShape(d.hash, d.ht0, d.c0);
    HoldsShape(d.hash, d.ht1, d.c1);
    if d.ht0.used + d.ht1.used == 0 {
      return [], Zero();
    }
    d.NonEmptyHasTable();
    if d.rehashidx == -1 {
      var t0 := d.ht0;
      BucketInRange(d.hash, t0, d.c0, v);
      emitted := t0.table[Index(v, t0.sizemask)];
      next := Next(v, t0.sizemask);
      ScanOne(d.hash, t0, d.c0, v);
    } else {
      var t0, t1 := d.ht0, d.ht1;
      ghost var c0, c1 := d.c0, d.c1;
      if t0.size > t1.size {
        t0, t1 := d.ht1, d.ht0;
        c0, c1 := d.c1, d.c0;
        assert d.c0 + d.c1 == d.c1 + d.c0;
      }
      ghost var j, k := SizeExponents(d.hash, t0, c0, t1, c1);
      BucketInRange(d.hash, t0, c0, v);
      emitted := t0.table[Index(v, t0.sizemask)];
      var rest: seq<Entry<K, V>>;
      rest, next := ScanExpansions(t1, t0.sizemask, v, j, k);
      ScanBoth(d.hash, t0, c0, t1, c1, v, rest, j);
      emitted := emitted + rest;
    }
  }

  // ---------- whole scans, with the dictionary changing between the calls ----------

  /**
   A scan: call i finds the dictionary holding cs[i], is given cursor vs[i], returns the cursor
   vs[i + 1] and emits es[i].  Nothing is said about how cs[i + 1] arose from cs[i].
   */
  ghost predicate ScanRun<K, V>(hash: K -> Word, cs: seq<map<K, V>>, vs: seq<Word>, es: seq<seq<Entry<K, V>>>) {
    && |vs| == |cs| + 1 && |es| == |cs|
    && vs[0] == Zero()
    && forall i :: 0 <= i < |cs| ==> ScanStep(hash, cs[i], vs[i], vs[i + 1], es[i])
  }

  /** Up to call n, a key present so far has been emitted or still lies ahead of the cursor. */
  lemma {:induction false} ScanInvariant<K, V>(hash: K -> Word, cs: seq<map<K, V>>, vs: seq<Word>, es: seq<seq<Entry<K, V>>>,
                                               key: K, n: nat)
    requires ScanRun(hash, cs, vs, es) && n <= |cs|
    requires forall i :: 0 <= i < n ==> key in cs[i]
    ensures (exists i :: 0 <= i < n && HasKey(es[i], key)) || (!Less(hash(key), vs[n]) && (n > 0 ==> vs[n] != Zero()))
  {
    hide Less, HasKey, EmitsFrom;
    if n == 0 {
      LessZeros(hash(key), 64);
      assert Constant(false, 64) == Zero();
    } else {
      ScanInvariant(hash, cs, vs, es, key, n - 1);
      assert ScanStep(hash, cs[n - 1], vs[n - 1], vs[n], es[n - 1]);
    }
  }

  /** Scan completeness. */
  lemma ScanComplete<K, V>(hash: K -> Word, cs: seq<map<K, V>>, vs: seq<Word>, es: seq<seq<Entry<K, V>>>, key: K)
    requires ScanRun(hash, cs, vs, es) && |cs| > 0 && vs[|cs|] == Zero()
    requires forall i :: 0 <= i < |cs| ==> key in cs[i]
    ensures exists i :: 0 <= i < |cs| && HasKey(es[i], key)
  {
    ScanInvariant(hash, cs, vs, es, key, |cs|);
  }

  /**
   Scan progress: while the cursor has not come back to 0 its reversed value grows with every
   call, whatever the sizes of the tables, so no scan outlasts 2^64 calls.
   */
  lemma {:induction false} ScanProgress<K, V>(hash: K -> Word, cs: seq<map<K, V>>, vs: seq<Word>, es: seq<seq<Entry<K, V>>>, n: nat)
    requires ScanRun(hash, cs, vs, es) && n <= |cs|
    requires forall i :: 0 < i <= n ==> vs[i] != Zero()
    ensures n <= Reversed(vs[n]) < Pow2(64)
    ensures forall i :: 0 <= i < n ==> Reversed(vs[i]) < Reversed(vs[i + 1])
  {
    hide Less, Reversed, EmitsFrom;
    LessIsReversed(vs[n], vs[n]);
    if n > 0 {
      ScanProgress(hash, cs, vs, es, n - 1);
      assert ScanStep(hash, cs[n - 1], vs[n - 1], vs[n], es[n - 1]);
      LessIsReversed(vs[n - 1], vs[n]);
    }
  }

  /** What other clients may do to the dictionary between two calls of a scan, with `dict_can_resize` at that time. */
  datatype Op<K, V> =
    | Add(key: K, val: V, canResize: bool)
    | Replace(key: K, val: V, canResize: bool)
    | Delete(key: K)
    | Find(key: K)
    | Expand(size: nat)
    | Resize(canResize: bool)
    | Rehash(n: nat)

  /** The possible effects of an operation; only a full table can make an addition fail. */
  ghost predicate Effect<K, V>(op: Op<K, V>, c: map<K, V>, c': map<K, V>) {
    match op
    case Add(k, v, _) => if k in c then c' == c else c' == c[k := v] || (c' == c && |c| > LONG_MAX)
    case Replace(k, v, _) => c' == c[k := v] || (c' == c && |c| > LONG_MAX)
    case Delete(k) => c' == c - {k}
    case _ => c' == c
  }

  method Perform<K(==), V>(d: Dict<K, V>, op: Op<K, V>)
    requires d.Valid()
    modifies d
    ensures d.Valid() && Effect(op, old(d.Contents()), d.Contents())
  {
    hide Holds;
    if op.Add? || op.Replace? || op.Delete? || op.Find? {
      PerformOnKey(d, op);
    } else {
      PerformOnTable(d, op);
    }
  }

  method PerformOnKey<K(==), V>(d: Dict<K, V>, op: Op<K, V>)
    requires d.Valid() && (op.Add? || op.Replace? || op.Delete? || op.Find?)
    modifies d
    ensures d.Valid() && Effect(op, old(d.Contents()), d.Contents())
  {
    hide Holds;
    match op
    case Add(k, v, canResize) =>
      var _ := d.Add(k, v, canResize);
    case Replace(k, v, canResize) =>
      var _ := d.Replace(k, v, canResize);
    case Delete(k) =>
      var _ := d.Delete(k);
    case Find(k) =>
      var _ := d.Find(k);
  }

  method PerformOnTable<K(==), V>(d: Dict<K, V>, op: Op<K, V>)
    requires d.Valid() && (op.Expand? || op.Resize? || op.Rehash?)
    modifies d
    ensures d.Valid() && Effect(op, old(d.Contents()), d.Contents())
  {
    hide Holds;
    match op
    case Expand(size) =>
      var _ := d.Expand(size);
    case Resize(canResize) =>
      var _ := d.Resize(canResize);
    case Rehash(n) =>
      var _ := d.Rehash(n);
  }

  /** The contents before, between and after the operations of a sequence. */
  ghost predicate Trace<K, V>(ops: seq<Op<K, V>>, cs: seq<map<K, V>>) {
    |cs| == |ops| + 1 && forall i :: 0 <= i < |ops| ==> Effect(ops[i], cs[i], cs[i + 1])
  }

  /** The possible effects of a sequence of operations. */
  ghost predicate Effects<K(!new), V(!new)>(ops: seq<Op<K, V>>, c: map<K, V>, c': map<K, V>) {
    exists cs :: Trace(ops, cs) && cs[0] == c && cs[|ops|] == c'
  }

  /** Only its own deletion removes a key. */
  lemma KeyStays<K(!new), V(!new)>(ops: seq<Op<K, V>>, c: map<K, V>, c': map<K, V>, k: K)
    requires Effects(ops, c, c') && k in c && Delete(k) !in ops
    ensures k in c'
  {
    var cs :| Trace(ops, cs) && cs[0] == c && cs[|ops|] == c';
    for i := 0 to |ops|
      invariant k in cs[i]
    {
      assert Effect(ops[i], cs[i], cs[i + 1]);
    }
  }

  method PerformAll<K(!new, ==), V(!new)>(d: Dict<K, V>, ops: seq<Op<K, V>>)
    requires d.Valid()
    modifies d
    ensures d.Valid() && Effects(ops, old(d.Contents()), d.Contents())
  {
    hide Holds, Effect;
    ghost var cs := [d.Contents()];
    for i := 0 to |ops|
      invariant d.Valid() && Trace(ops[..i], cs) && cs[0] == old(d.Contents()) && cs[i] == d.Contents()
    {
      Perform(d, ops[i]);
      cs := cs + [d.Contents()];
    }
    assert Trace(ops, cs);
  }

  /** The contents that the calls of a scan find, while the operations script[i] run after call i. */
  ghost predicate Follows<K(!new), V(!new)>(script: seq<seq<Op<K, V>>>, found: seq<map<K, V>>) {
    |found| <= |script| + 1 &&
    forall i :: 0 <= i < |found| - 1 ==> Effects(script[i], found[i], found[i + 1])
  }

  ghost predicate Kept<K, V>(script: seq<seq<Op<K, V>>>, k: K) {
    forall i :: 0 <= i < |script| ==> Delete(k) !in script[i]
  }

  /** A key that no operation deletes is found by every call. */
  lemma {:induction false} KeptIsFound<K(!new), V(!new)>(script: seq<seq<Op<K, V>>>, found: seq<map<K, V>>, k: K, n: nat)
    requires Follows(script, found) && n < |found| && k in found[0] && Kept(script[..|found| - 1], k)
    ensures k in found[n]
  {
    if n > 0 {
      KeptIsFound(script, found, k, n - 1);
      assert script[..|found| - 1][n - 1] == script[n - 1];
      KeyStays(script[n - 1], found[n - 1], found[n], k);
    }
  }

  lemma FollowOn<K(!new), V(!new)>(script: seq<seq<Op<K, V>>>, found: seq<map<K, V>>, c: map<K, V>)
    requires Follows(script, found) && |found| <= |script|
    requires found != [] ==> Effects(script[|found| - 1], found[|found| - 1], c)
    ensures Follows(script, found + [c])
  {
  }

  ghost predicate InSome<K, V>(e: Entry<K, V>, cs: seq<map<K, V>>) {
    exists i :: 0 <= i < |cs| && e.key in cs[i] && cs[i][e.key] == e.val
  }

  /** Every emitted entry was in the dictionary when some call was made. */
  ghost predicate FoundIn<K, V>(emitted: seq<Entry<K, V>>, found: seq<map<K, V>>) {
    forall j :: 0 <= j < |emitted| ==> InSome(emitted[j], found)
  }

  lemma InSomeMore<K, V>(e: Entry<K, V>, cs: seq<map<K, V>>, c: map<K, V>)
    requires InSome(e, cs) || (e.key in c && c[e.key] == e.val)
    ensures InSome(e, cs + [c])
  {
    if InSome(e, cs) {
      var i :| 0 <= i < |cs| && e.key in cs[i] && cs[i][e.key] == e.val;
      assert (cs + [c])[i] == cs[i];
    } else {
      assert (cs + [c])[|cs|] == c;
    }
  }

  lemma FoundMore<K, V>(emitted: seq<Entry<K, V>>, found: seq<map<K, V>>, batch: seq<Entry<K, V>>, c: map<K, V>)
    requires FoundIn(emitted, found) && EmitsFrom(batch, c)
    ensures FoundIn(emitted + batch, found + [c])
  {
    hide InSome;
    forall j | 0 <= j < |emitted + batch|
      ensures InSome((emitted + batch)[j], found + [c])
    {
      InSomeMore((emitted + batch)[j], found, c);
    }
  }

  /**
   A client's scan of a live dictionary: after call i, the operations script[i] of other clients
   run.  If the scan finishes, every key of the dictionary that none of them deleted was emitted; and it
   finishes if it may make 2^64 calls.
   */
  method FullScan<K(!new, ==), V(!new)>(d: Dict<K, V>, script: seq<seq<Op<K, V>>>)
    returns (emitted: seq<Entry<K, V>>, finished: bool, ghost found: seq<map<K, V>>)
    requires d.Valid()
    modifies d
    ensures d.Valid()
    ensures |found| > 0 && found[0] == old(d.Contents()) && found[|found| - 1] == d.Contents()
    ensures Follows(script, found) && (!finished ==> |found| == |script| + 1)
    ensures |script| + 1 >= Pow2(64) ==> finished
    ensures FoundIn(emitted, found)
    ensures finished ==> forall k :: (forall i :: 0 <= i < |found| ==> k in found[i]) ==> HasKey(emitted, k)
    ensures finished ==> forall k :: k in old(d.Contents()) && Kept(script[..|found| - 1], k) ==> HasKey(emitted, k)
  {
    hide Holds, HasKey, ScanStep, Effects, FoundIn, Follows, AllIn;
    FollowsNothing(script);
    ghost var vs, es := [Zero()], [];
    found, emitted, finished := [], [], false;
    var cursor := Zero();
    for n := 0 to |script| + 1
      invariant d.Valid() && !finished
      invariant ScanRun(d.hash, found, vs, es) && |found| == n && vs[n] == cursor
      invariant forall i :: 0 < i <= n ==> vs[i] != Zero()
      invariant if n == 0 then d.Contents() == old(d.Contents()) else found[0] == old(d.Contents())
      invariant Follows(script, found) && FoundIn(emitted, found) && AllIn(es, emitted)
      invariant 0 < n <= |script| ==> Effects(script[n - 1], found[n - 1], d.Contents())
      invariant n == |script| + 1 ==> found[n - 1] == d.Contents()
    {
      var batch, next := Scan(d, cursor);
      ExtendRun(d.hash, found, vs, es, d.Contents(), next, batch);
      StepEmits(d.hash, d.Contents(), cursor, next, batch);
      FoundMore(emitted, found, batch, d.Contents());
      FollowOn(script, found, d.Contents());
      AllInMore(es, emitted, batch);
      found, vs, es := found + [d.Contents()], vs + [next], es + [batch];
      emitted, cursor := emitted + batch, next;
      if cursor == Zero() {
        finished := true;
        ScanFinished(d.hash, script, found, vs, es, emitted);
        return;
      }
      if n < |script| {
        PerformAll(d, script[n]);
      }
    }
    ScanProgress(d.hash, found, vs, es, |script| + 1);
  }

  lemma FollowsNothing<K(!new), V(!new)>(script: seq<seq<Op<K, V>>>)
    ensures Follows<K, V>(script, []) && FoundIn<K, V>([], []) && AllIn<Entry<K, V>>([], [])
  {
  }

  lemma StepEmits<K, V>(hash: K -> Word, c: map<K, V>, v: Word, next: Word, emitted: seq<Entry<K, V>>)
    requires ScanStep(hash, c, v, next, emitted)
    ensures EmitsFrom(emitted, c)
  {
  }

  lemma AllInMore<T>(es: seq<seq<T>>, s: seq<T>, batch: seq<T>)
    requires AllIn(es, s)
    ensures AllIn(es + [batch], s + batch)
  {
  }

  lemma ScanFinished<K(!new), V(!new)>(hash: K -> Word, script: seq<seq<Op<K, V>>>, found: seq<map<K, V>>,
                                       vs: seq<Word>, es: seq<seq<Entry<K, V>>>, emitted: seq<Entry<K, V>>)
    requires ScanRun(hash, found, vs, es) && |found| > 0 && vs[|found|] == Zero()
    requires Follows(script, found) && AllIn(es, emitted)
    ensures forall k :: (forall i :: 0 <= i < |found| ==> k in found[i]) ==> HasKey(emitted, k)
    ensures forall k :: k in found[0] && Kept(script[..|found| - 1], k) ==> HasKey(emitted, k)
  {
    hide HasKey, Kept, AllIn, ScanStep, Effects;
    forall k | forall i :: 0 <= i < |found| ==> k in found[i]
      ensures HasKey(emitted, k)
    {
      ScanComplete(hash, found, vs, es, k);
      EmittedSomewhere(es, emitted, k);
    }
    forall k | k in found[0] && Kept(script[..|found| - 1], k)
      ensures HasKey(emitted, k)
    {
      forall i | 0 <= i < |found| ensures k in found[i] {
        KeptIsFound(script, found, k, i);
      }
    }
  }

  ghost predicate AllIn<T>(es: seq<seq<T>>, s: seq<T>) {
    forall i, j :: 0 <= i < |es| && 0 <= j < |es[i]| ==> es[i][j] in s
  }

  lemma EmittedSomewhere<K, V>(es: seq<seq<Entry<K, V>>>, emitted: seq<Entry<K, V>>, k: K)
    requires AllIn(es, emitted) && exists i :: 0 <= i < |es| && HasKey(es[i], k)
    ensures HasKey(emitted, k)
  {
    var i :| 0 <= i < |es| && HasKey(es[i], k);
    var j :| 0 <= j < |es[i]| && es[i][j].key == k;
    assert es[i][j] in emitted;
  }

  lemma ExtendRun<K, V>(hash: K -> Word, cs: seq<map<K, V>>, vs: seq<Word>, es: seq<seq<Entry<K, V>>>,
                        c: map<K, V>, next: Word, batch: seq<Entry<K, V>>)
    requires ScanRun(hash, cs, vs, es) && ScanStep(hash, c, vs[|cs|], next, batch)
    ensures ScanRun(hash, cs + [c], vs + [next], es + [batch])
  {
    hide ScanStep;
    var cs', vs', es' := cs + [c], vs + [next], es + [batch];
    forall i | 0 <= i < |cs'|
      ensures ScanStep(hash, cs'[i], vs'[i], vs'[i + 1], es'[i])
    {
      if i < |cs| {
        assert ScanStep(hash, cs[i], vs[i], vs[i + 1], es[i]);
      }
    }
  }

  // ---------- a scan of a dictionary that nobody changes ----------

  function CursorAfter(m: Word, n: nat): Word {
    if n == 0 then Zero() else Next(CursorAfter(m, n - 1), m)
  }

  /** The entries emitted by the first n calls of a scan. */
  ghost function EmittedBy<K, V>(t: HashTable<K, V>, n: nat): seq<Entry<K, V>>
    requires Shape(t) && t.size > 0
  {
    if n == 0 then []
    else
      IndexInRange(t, CursorAfter(t.sizemask, n - 1));
      EmittedBy(t, n - 1) + t.table[Index(CursorAfter(t.sizemask, n - 1), t.sizemask)]
  }

  ghost function Count<K, V>(s: seq<Entry<K, V>>, key: K): nat {
    if s == [] then 0 else (if s[0].key == key then 1 else 0) + Count(s[1..], key)
  }

  lemma {:induction false} CountConcat<K, V>(a: seq<Entry<K, V>>, b: seq<Entry<K, V>>, key: K)
    ensures Count(a + b, key) == Count(a, key) + Count(b, key)
  {
    if a == [] {
      assert a + b == b;
    } else {
      assert (a + b)[1..] == a[1..] + b;
      CountConcat(a[1..], b, key);
    }
  }

  lemma {:induction false} CountInChain<K, V>(chain: seq<Entry<K, V>>, key: K)
    requires DistinctKeys(chain)
    ensures Count(chain, key) == if HasKey(chain, key) then 1 else 0
  {
    if chain != [] {
      CountInChain(chain[1..], key);
      if HasKey(chain, key) && chain[0].key != key {
        var j :| 0 <= j < |chain| && chain[j].key == key;
        assert chain[1..][j - 1].key == key;
      }
    }
  }

  /** Call number n of a scan of 2^k buckets visits the bucket whose index, read backwards, is n. */
  lemma {:induction false} CursorCounts(k: nat, n: nat)
    requires k <= 64 && n < Pow2(k)
    ensures Reversed(CursorAfter(SizeMask(Pow2(k)), n)[..k]) == n
  {
    hide Next, SizeMask;
    if n == 0 {
      ReversedZeros(k);
      assert Zero()[..k] == Constant(false, k);
    } else {
      CursorCounts(k, n - 1);
      var cursor := CursorAfter(SizeMask(Pow2(k)), n - 1);
      NextIsBump(cursor, k);
      ReversedBump(cursor[..k]);
      assert CursorAfter(SizeMask(Pow2(k)), n)[..k] == Bump(cursor[..k]);
    }
  }

  lemma {:induction false} ReversedZeros(k: nat)
    ensures Reversed(Constant(false, k)) == 0
  {
    if k > 0 {
      assert Constant(false, k) == [false] + Constant(false, k - 1);
      ReversedCons(false, Constant(false, k - 1));
      ReversedZeros(k - 1);
    } else {
      assert Reverse(Constant(false, 0)) == [];
    }
  }

  lemma ReversedBump(p: seq<bool>)
    ensures Reversed(Bump(p)) == if Reversed(p) + 1 == Pow2(|p|) then 0 else Reversed(p) + 1
  {
    ReversedIncrement(p);
    ReverseSnoc(Increment(Reverse(p)), false);
    IncrementValue(Reverse(p));
  }

  lemma ReversedInjective(a: seq<bool>, b: seq<bool>)
    requires |a| == |b| && Reversed(a) == Reversed(b)
    ensures a == b
  {
    ValueInjective(Reverse(a), Reverse(b));
    ReverseSnoc(a, false);
    ReverseSnoc(b, false);
  }

  lemma SameBucket(a: Word, b: Word, k: nat)
    requires k <= 64
    ensures Index(a, SizeMask(Pow2(k))) == Index(b, SizeMask(Pow2(k))) <==> Reversed(a[..k]) == Reversed(b[..k])
  {
    hide SizeMask, And, Value, Reverse;
    var m := SizeMask(Pow2(k));
    MaskedEqual(a, b, k);
    if Index(a, m) == Index(b, m) {
      ValueInjective(And(a, m), And(b, m));
    }
    if Reversed(a[..k]) == Reversed(b[..k]) {
      ReversedInjective(a[..k], b[..k]);
    }
  }

  /** After n calls exactly the keys whose bucket has been visited have been emitted, once each. */
  lemma {:induction false} EmittedOnce<K, V>(hash: K -> Word, t: HashTable<K, V>, c: map<K, V>, k: nat, n: nat, key: K)
    requires Holds(hash, t, c) && 2 <= k <= 63 && t.size == Pow2(k) && n <= t.size && key in c
    ensures Count(EmittedBy(t, n), key) == if Reversed(hash(key)[..k]) < n then 1 else 0
  {
    hide Holds, SizeMask, Index, Reversed, DistinctKeys;
    if n > 0 {
      BucketInRange(hash, t, c, CursorAfter(t.sizemask, n - 1));
      EmittedOnce(hash, t, c, k, n - 1, key);
      var cursor := CursorAfter(t.sizemask, n - 1);
      var bucket := t.table[Index(cursor, t.sizemask)];
      CountConcat(EmittedBy(t, n - 1), bucket, key);
      CursorCounts(k, n - 1);
      SameBucket(cursor, hash(key), k);
      BucketHasKey(hash, t, c, Index(cursor, t.sizemask), key);
      CountInChain(bucket, key);
    }
  }

  lemma BucketHasKey<K, V>(hash: K -> Word, t: HashTable<K, V>, c: map<K, V>, i: nat, key: K)
    requires Holds(hash, t, c) && i < |t.table| && key in c
    ensures DistinctKeys(t.table[i])
    ensures HasKey(t.table[i], key) <==> i == Index(hash(key), t.sizemask)
  {
  }

  /**
   On a dictionary that does not change and is not rehashing, a scan takes exactly as many calls as
   there are buckets and emits every entry exactly once.
   */
  lemma StaticScan<K, V>(hash: K -> Word, t: HashTable<K, V>, c: map<K, V>)
    requires Holds(hash, t, c) && t.size > 0
    ensures Shape(t) && CursorAfter(t.sizemask, t.size) == Zero()
    ensures forall n :: 0 < n < t.size ==> CursorAfter(t.sizemask, n) != Zero()
    ensures forall key :: key in c ==> Count(EmittedBy(t, t.size), key) == 1
  {
    hide Holds, SizeMask, Next, Reversed;
    var k := SizeExponent(hash, t, c);
    forall n | 0 < n < t.size
      ensures CursorAfter(t.sizemask, n) != Zero()
    {
      CursorCounts(k, n);
      ReversedZeros(k);
      assert Zero()[..k] == Constant(false, k);
    }
    CursorCounts(k, t.size - 1);
    WrapsAround(CursorAfter(t.sizemask, t.size - 1), k);
    forall key | key in c
      ensures Count(EmittedBy(t, t.size), key) == 1
    {
      EmittedOnce(hash, t, c, k, t.size, key);
      LessIsReversed(hash(key)[..k], hash(key)[..k]);
    }
  }

  lemma WrapsAround(v: Word, k: nat)
    requires k <= 64 && Reversed(v[..k]) == Pow2(k) - 1
    ensures Next(v, SizeMask(Pow2(k))) == Zero()
  {
    hide Next, SizeMask, Reversed, Bump;
    NextIsBump(v, k);
    ReversedBump(v[..k]);
    ReversedZeros(k);
    ReversedInjective(Bump(v[..k]), Constant(false, k));
  }
}
