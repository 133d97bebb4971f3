/**
 The keyspace of a cluster node: the main dictionary, the expires, and two indexes by hash slot, a
 counter and a tree of keys.  Every operation keeps them in agreement.
 */
module Keyspace {
  import opened Common
  import opened KeySlots

  // ---------- the index key: two bytes of slot, then the key ----------

  function SlotPrefix(slot: Slot): (p: Key)
    ensures |p| == 2
  {
    [slot / 256, slot % 256]
  }

  function Indexed(key: Key): Key {
    SlotPrefix(SlotOf(key)) + key
  }

  lemma IndexedKey(key: Key, slot: Slot)
    ensures |Indexed(key)| >= 2 && Indexed(key)[2..] == key && 256 * (Indexed(key)[0] as nat) + (Indexed(key)[1] as nat) == SlotOf(key)
    ensures SlotPrefix(slot) <= Indexed(key) <==> SlotOf(key) == slot
  {
    hide SlotOf;
    if SlotPrefix(slot) <= Indexed(key) {
      assert SlotPrefix(slot)[0] == Indexed(key)[0] && SlotPrefix(slot)[1] == Indexed(key)[1];
    }
  }

  // ---------- the order of the tree ----------

  /** Lexicographic order, byte by byte; a prefix comes first. */
  predicate AtLeast(s: Key, p: Key)
    decreases |p|
  {
    if p == [] then true
    else if s == [] then false
    else if s[0] == p[0] then AtLeast(s[1..], p[1..])
    else p[0] < s[0]
  }

  lemma {:induction false} AtLeastTotal(s: Key, p: Key)
    ensures AtLeast(s, p) || AtLeast(p, s)
    decreases |p|
  {
    if s != [] && p != [] {
      AtLeastTotal(s[1..], p[1..]);
    }
  }

  lemma {:induction false} AtLeastTransitive(s: Key, p: Key, q: Key)
    requires AtLeast(s, p) && AtLeast(p, q)
    ensures AtLeast(s, q)
    decreases |p|
  {
    if q != [] {
      if s[0] == p[0] == q[0] {
        AtLeastTransitive(s[1..], p[1..], q[1..]);
      }
    }
  }

  /** Whatever lies between a prefix and a key that starts with it starts with it too. */
  lemma {:induction false} BetweenHasPrefix(p: Key, s: Key, tail: Key)
    requires AtLeast(s, p) && AtLeast(p + tail, s)
    ensures p <= s
    decreases |p|
  {
    if p != [] {
      assert (p + tail)[1..] == p[1..] + tail;
      BetweenHasPrefix(p[1..], s[1..], tail);
    }
  }

  predicate IsLeast(s: Key, tree: set<Key>, p: Key) {
    s in tree && AtLeast(s, p) && forall t :: t in tree && AtLeast(t, p) ==> AtLeast(t, s)
  }

  /** Seeking with ">=" finds something whenever there is something. */
  lemma {:induction false} LeastExists(tree: set<Key>, p: Key, some: Key)
    requires some in tree && AtLeast(some, p)
    ensures exists s :: IsLeast(s, tree, p)
    decreases |tree|
  {
    hide AtLeast;
    var rest := tree - {some};
    if t :| t in rest && AtLeast(t, p) {
      LeastExists(rest, p, t);
      var s :| IsLeast(s, rest, p);
      AtLeastTotal(s, some);
      var least := if AtLeast(some, s) then s else some;
      forall u | u in tree && AtLeast(u, p) ensures AtLeast(u, least) {
        AtLeastTotal(u, u);
        if u in rest && AtLeast(u, s) && AtLeast(s, least) {
          AtLeastTransitive(u, s, least);
        }
      }
      AtLeastTotal(s, s);
      assert IsLeast(least, tree, p);
    } else {
      AtLeastTotal(some, some);
      assert IsLeast(some, tree, p);
    }
  }

  // ---------- the agreement ----------

  function KeysIn(keys: set<Key>, slot: Slot): set<Key> {
    set k | k in keys && SlotOf(k) == slot
  }

  function Tree(keys: set<Key>): set<Key> {
    set k | k in keys :: Indexed(k)
  }

  lemma KeysInAdd(keys: set<Key>, key: Key, slot: Slot)
    requires key !in keys
    ensures KeysIn(keys + {key}, slot) == KeysIn(keys, slot) + (if SlotOf(key) == slot then {key} else {})
    ensures |KeysIn(keys + {key}, slot)| == |KeysIn(keys, slot)| + if SlotOf(key) == slot then 1 else 0
  {
    hide SlotOf;
  }

  lemma TreeAdd(keys: set<Key>, key: Key)
    requires key !in keys
    ensures Indexed(key) !in Tree(keys) && Tree(keys + {key}) == Tree(keys) + {Indexed(key)}
  {
    hide Indexed;
    if Indexed(key) in Tree(keys) {
      var k :| k in keys && Indexed(k) == Indexed(key);
      IndexedKey(k, SlotOf(k));
      IndexedKey(key, SlotOf(k));
    }
  }

  ghost predicate Counted(keys: set<Key>, count: seq<nat>) {
    |count| == SLOTS && forall slot: Slot :: count[slot] == |KeysIn(keys, slot)|
  }

  ghost predicate Agree(keys: set<Key>, volatile: set<Key>, count: seq<nat>, tree: set<Key>) {
    volatile <= keys && Counted(keys, count) && tree == Tree(keys)
  }

  lemma CountedAt(keys: set<Key>, count: seq<nat>, slot: Slot)
    requires Counted(keys, count)
    ensures |count| == SLOTS && count[slot] == |KeysIn(keys, slot)|
  {
  }

  lemma AgreeAdd(keys: set<Key>, volatile: set<Key>, count: seq<nat>, tree: set<Key>, key: Key)
    requires Agree(keys, volatile, count, tree) && key !in keys
    ensures Agree(keys + {key}, volatile, count[SlotOf(key) := count[SlotOf(key)] + 1], tree + {Indexed(key)})
  {
    hide SlotOf, Indexed, KeysIn, Tree;
    TreeAdd(keys, key);
    var count' := count[SlotOf(key) := count[SlotOf(key)] + 1];
    forall slot: Slot ensures count'[slot] == |KeysIn(keys + {key}, slot)| {
      CountedAt(keys, count, slot);
      KeysInAdd(keys, key, slot);
    }
  }

  lemma AgreeRemove(keys: set<Key>, volatile: set<Key>, count: seq<nat>, tree: set<Key>, key: Key)
    requires Agree(keys, volatile, count, tree) && key in keys && key !in volatile
    ensures count[SlotOf(key)] > 0
    ensures Agree(keys - {key}, volatile, count[SlotOf(key) := count[SlotOf(key)] - 1], tree - {Indexed(key)})
  {
    hide SlotOf, Indexed, KeysIn, Tree;
    var rest := keys - {key};
    assert rest + {key} == keys;
    TreeAdd(rest, key);
    KeysInAdd(rest, key, SlotOf(key));
    var count' := count[SlotOf(key) := count[SlotOf(key)] - 1];
    forall slot: Slot ensures count'[slot] == |KeysIn(rest, slot)| {
      CountedAt(keys, count, slot);
      KeysInAdd(rest, key, slot);
    }
  }

  // ---------- the database ----------

  datatype RenameReply = NoSuchKey | Ok | Zero | One

  /** What the clock and the role of the server say about expiring: nothing expires on a slave or while loading. */
  datatype Clock = Clock(now: int, loading: bool, slave: bool)

  class Database<V> {
    var dict: map<Key, V>
    var expires: map<Key, int>
    var slotsKeysCount: seq<nat>
    var slotsToKeys: set<Key>

    ghost predicate Valid()
      reads this
    {
      Agree(dict.Keys, expires.Keys, slotsKeysCount, slotsToKeys)
    }

    constructor ()
      ensures Valid() && dict == map[] && expires == map[]
    {
      dict, expires, slotsToKeys := map[], map[], {};
      slotsKeysCount := seq(SLOTS, _ => 0);
      new;
      NoKeys();
    }

    /** `slotToKeyUpdateKey` */
    method SlotToKeyUpdateKey(key: Key, add: bool)
      requires |slotsKeysCount| == SLOTS && (!add ==> slotsKeysCount[SlotOf(key)] > 0)
      modifies this`slotsKeysCount, this`slotsToKeys
      ensures slotsKeysCount == old(slotsKeysCount)[SlotOf(key) := old(slotsKeysCount)[SlotOf(key)] + if add then 1 else -1]
      ensures slotsToKeys == if add then old(slotsToKeys) + {Indexed(key)} else old(slotsToKeys) - {Indexed(key)}
      ensures Indexed(key) == [SlotOf(key) / 256, SlotOf(key) % 256] + key
    {
      hide SlotOf;
      var hashslot := KeyHashSlot(key);
      slotsKeysCount := slotsKeysCount[hashslot := slotsKeysCount[hashslot] + if add then 1 else -1];
      var indexed: Key := [hashslot / 256, hashslot % 256] + key;
      if add {
        slotsToKeys := slotsToKeys + {indexed};
      } else {
        slotsToKeys := slotsToKeys - {indexed};
      }
    }

    /** `dbAdd`; the source aborts if the key exists. */
    method DbAdd(key: Key, val: V)
      requires Valid() && key !in dict
      modifies this
      ensures Valid() && dict == old(dict)[key := val] && expires == old(expires)
    {
      hide SlotOf, Indexed, KeysIn, Tree, Counted;
      AgreeAdd(dict.Keys, expires.Keys, slotsKeysCount, slotsToKeys, key);
      CountedLength(dict.Keys, slotsKeysCount);
      dict := dict[key := val];
      assert dict.Keys == old(dict.Keys) + {key};
      SlotToKeyUpdateKey(key, true);
    }

    /** `dbOverwrite`; the source aborts if the key does not exist.  The expire stays. */
    method DbOverwrite(key: Key, val: V)
      requires Valid() && key in dict
      modifies this`dict
      ensures Valid() && dict == old(dict)[key := val]
    {
      dict := dict[key := val];
      assert dict.Keys == old(dict.Keys);
    }

    /** `dbSyncDelete` */
    method DbSyncDelete(key: Key) returns (deleted: bool)
      requires Valid()
      modifies this
      ensures Valid() && dict == old(dict) - {key} && expires == old(expires) - {key}
      ensures deleted <==> key in old(dict)
    {
      hide SlotOf, Indexed, KeysIn, Tree, Counted;
      if |expires| > 0 {
        expires := expires - {key};
      }
      assert expires == old(expires) - {key} && expires.Keys == old(expires.Keys) - {key};
      CountedLength(dict.Keys, slotsKeysCount);
      if key in dict {
        AgreeRemove(dict.Keys, expires.Keys, slotsKeysCount, slotsToKeys, key);
        dict := dict - {key};
        assert dict.Keys == old(dict.Keys) - {key};
        SlotToKeyUpdateKey(key, false);
        deleted := true;
      } else {
        assert dict - {key} == dict;
        deleted := false;
      }
    }

    /** `removeExpire`; the source aborts if the key does not exist. */
    method RemoveExpire(key: Key) returns (removed: bool)
      requires Valid() && key in dict
      modifies this`expires
      ensures Valid() && expires == old(expires) - {key} && (removed <==> key in old(expires))
    {
      removed := key in expires;
      expires := expires - {key};
    }

    /** `setExpire`; the source aborts if the key does not exist. */
    method SetExpire(key: Key, when: int)
      requires Valid() && key in dict
      modifies this`expires
      ensures Valid() && expires == old(expires)[key := when]
    {
      expires := expires[key := when];
    }

    /** `getExpire`; its assertion that an expire has a key never fails. */
    method GetExpire(key: Key) returns (when: int)
      requires Valid()
      ensures when == if key in expires then expires[key] else -1
    {
      if |expires| == 0 || key !in expires {
        return -1;
      }
      assert key in dict;
      when := expires[key];
    }

    /** `expireIfNeeded` */
    method ExpireIfNeeded(key: Key, clock: Clock) returns (expired: bool)
      requires Valid()
      modifies this
      ensures Valid()
      ensures expired <==> !clock.loading && key in old(expires) && 0 <= old(expires)[key] < clock.now
      ensures dict == (if expired && !clock.slave then old(dict) - {key} else old(dict))
      ensures expires == (if expired && !clock.slave then old(expires) - {key} else old(expires))
    {
      hide Agree;
      var when := GetExpire(key);
      if when < 0 {
        return false;
      }
      if clock.loading {
        return false;
      }
      if clock.slave {
        return clock.now > when;
      }
      if clock.now <= when {
        return false;
      }
      assert key in dict by { VolatileHasKey(dict.Keys, expires.Keys, slotsKeysCount, slotsToKeys, key); }
      expired := DbSyncDelete(key);
    }

    /** `lookupKeyWrite` */
    method LookupKeyWrite(key: Key, clock: Clock) returns (val: Option<V>)
      requires Valid()
      modifies this
      ensures Valid() && dict == Live(old(dict), old(expires), key, clock)
      ensures expires == Live(old(expires), old(expires), key, clock)
      ensures val == if key in dict then Some(dict[key]) else None
    {
      hide Agree;
      var _ := ExpireIfNeeded(key, clock);
      val := if key in dict then Some(dict[key]) else None;
    }

    /** `setKey`: whether it existed or not, the key now holds the value and has no expire. */
    method SetKey(key: Key, val: V, clock: Clock)
      requires Valid()
      modifies this
      ensures Valid() && dict == old(dict)[key := val] && expires == old(expires) - {key}
    {
      hide Agree;
      var current := LookupKeyWrite(key, clock);
      if current == None {
        DbAdd(key, val);
      } else {
        DbOverwrite(key, val);
      }
      var _ := RemoveExpire(key);
    }

    /**
     `renameGenericCommand`: the value and the expire move together; with nx nothing happens when the
     destination exists.
     */
    method Rename(src: Key, dst: Key, nx: bool, clock: Clock) returns (reply: RenameReply)
      requires Valid()
      modifies this
      ensures Valid()
      ensures var dict0, expires0 := Live(old(dict), old(expires), src, clock), Live(old(expires), old(expires), src, clock);
        var dict1, expires1 := Live(dict0, expires0, dst, clock), Live(expires0, expires0, dst, clock);
        if src !in dict0 then reply == NoSuchKey && dict == dict0 && expires == expires0
        else if src == dst then reply == (if nx then Zero else Ok) && dict == dict0 && expires == expires0
        else if nx && dst in dict1 then reply == Zero && dict == dict1 && expires == expires1
        else
          && reply == (if nx then One else Ok)
          && dict == dict0[dst := dict0[src]] - {src}
          && expires == (if src in expires0 && expires0[src] != -1 then expires0[dst := expires0[src]] - {src}
                         else expires0 - {src, dst})
    {
      hide Agree;
      var val := LookupKeyWrite(src, clock);
      if val == None {
        return NoSuchKey;
      }
      if src == dst {
        return if nx then Zero else Ok;
      }
      var expire := GetExpire(src);
      var found := LookupKeyWrite(dst, clock);
      if found != None && nx {
        return Zero;
      }
      Move(src, dst, val.value, expire);
      reply := if nx then One else Ok;
    }

    method Move(src: Key, dst: Key, val: V, expire: int)
      requires Valid() && src in dict && dict[src] == val && expire == ExpireOf(expires, src) && src != dst
      modifies this
      ensures Valid() && dict == old(dict)[dst := val] - {src}
      ensures expires == (if expire != -1 then old(expires)[dst := expire] - {src} else old(expires) - {src, dst})
    {
      hide Agree;
      if dst in dict {
        var _ := DbSyncDelete(dst);
      }
      DstHasNoExpire(dst);
      DbAdd(dst, val);
      if expire != -1 {
        SetExpire(dst, expire);
      }
      var _ := DbSyncDelete(src);
    }

    /** `delKeysInSlot`: deletes the keys of the slot and no others, and returns how many there were. */
    method DelKeysInSlot(hashslot: Slot) returns (j: nat)
      requires Valid()
      modifies this
      ensures Valid() && j == |KeysIn(old(dict.Keys), hashslot)|
      ensures dict == old(dict) - KeysIn(old(dict.Keys), hashslot)
      ensures expires == old(expires) - KeysIn(old(dict.Keys), hashslot)
    {
      hide Valid, SlotOf, AtLeast, KeysIn;
      ghost var all := KeysIn(dict.Keys, hashslot);
      ghost var left := all;
      j := 0;
      CountAt(hashslot);
      assert dict == dict - (all - left) && expires == expires - (all - left);
      while slotsKeysCount[hashslot] > 0
        invariant Valid() && |slotsKeysCount| == SLOTS && slotsKeysCount[hashslot] == |left|
        invariant left == KeysIn(dict.Keys, hashslot) && left <= all && j + |left| == |all|
        invariant dict == old(dict) - (all - left) && expires == old(expires) - (all - left)
        decreases |left|
      {
        ghost var key := DelFirstKey(hashslot);
        MinusOne(old(dict), all, left, key);
        MinusOne(old(expires), all, left, key);
        left := left - {key};
        j := j + 1;
        CountAt(hashslot);
      }
      assert left == {} && all - left == all;
    }

    /** The body of the loop of `delKeysInSlot`. */
    method DelFirstKey(hashslot: Slot) returns (ghost key: Key)
      requires Valid() && KeysIn(dict.Keys, hashslot) != {}
      modifies this
      ensures Valid() && key in KeysIn(old(dict.Keys), hashslot)
      ensures KeysIn(dict.Keys, hashslot) == KeysIn(old(dict.Keys), hashslot) - {key}
      ensures dict == old(dict) - {key} && expires == old(expires) - {key}
    {
      hide Valid, SlotOf, AtLeast, KeysIn;
      var first := FirstKeyInSlot(hashslot);
      key := first;
      KeysInRemove(dict.Keys, key, hashslot);
      var _ := DbSyncDelete(first);
    }

    lemma CountAt(hashslot: Slot)
      requires Valid()
      ensures |slotsKeysCount| == SLOTS && slotsKeysCount[hashslot] == |KeysIn(dict.Keys, hashslot)|
    {
      CountedAt(dict.Keys, slotsKeysCount, hashslot);
    }

    /** The seek of `delKeysInSlot`: the first index key at or after the prefix belongs to the slot, if any key does. */
    method FirstKeyInSlot(hashslot: Slot) returns (key: Key)
      requires Valid() && KeysIn(dict.Keys, hashslot) != {}
      ensures key in KeysIn(dict.Keys, hashslot)
    {
      hide SlotOf, AtLeast, SlotPrefix, Indexed;
      ghost var some :| some in KeysIn(dict.Keys, hashslot);
      SlotIndexed(some, hashslot);
      LeastExists(slotsToKeys, SlotPrefix(hashslot), Indexed(some));
      var found :| IsLeast(found, slotsToKeys, SlotPrefix(hashslot));
      BetweenHasPrefix(SlotPrefix(hashslot), found, some);
      ghost var k :| k in dict && found == Indexed(k);
      IndexedKey(k, hashslot);
      key := found[2..];
    }

    /** `getKeysInSlot`: as many different keys of the slot as asked for, or all of them if there are fewer. */
    method GetKeysInSlot(hashslot: Slot, count: nat) returns (keys: seq<Key>)
      requires Valid()
      ensures (set k | k in keys) <= KeysIn(dict.Keys, hashslot)
      ensures |keys| == |set k | k in keys|
      ensures |keys| == (if count < |KeysIn(dict.Keys, hashslot)| then count else |KeysIn(dict.Keys, hashslot)|)
    {
      hide SlotOf, AtLeast, SlotPrefix, Indexed, KeysIn, Tree, IsLeast, Counted;
      var left := set t | t in slotsToKeys && AtLeast(t, SlotPrefix(hashslot));
      ghost var all := KeysIn(dict.Keys, hashslot);
      ghost var taken: set<Key> := {};
      keys := [];
      RestOfAll(slotsToKeys, hashslot);
      while |keys| < count && left != {}
        invariant |keys| <= count && taken == (set k | k in keys) && |taken| == |keys| && taken <= all
        invariant left == Rest(slotsToKeys, hashslot, taken)
        decreases left
      {
        var t := SeekNext(left, hashslot, taken);
        if !(SlotPrefix(hashslot) <= t) {
          NothingWaits(dict.Keys, hashslot, taken, t);
          break;
        }
        ghost var k := KeyAt(dict.Keys, hashslot, taken, t);
        RestTake(slotsToKeys, hashslot, taken, k);
        keys := keys + [t[2..]];
        left := left - {t};
        taken := taken + {k};
      }
      EmptyRest(dict.Keys, hashslot, taken);
      if |keys| < count {
        assert taken == all;
      } else {
        SubsetSize(taken, all);
      }
    }

    /** The iterator after a seek with ">=": the least of what is left. */
    method SeekNext(left: set<Key>, hashslot: Slot, ghost taken: set<Key>) returns (t: Key)
      requires left != {} && left == Rest(slotsToKeys, hashslot, taken)
      ensures t in left && IsLeast(t, left, SlotPrefix(hashslot))
    {
      hide SlotOf, AtLeast, SlotPrefix, Indexed, Tree;
      ghost var some :| some in left;
      LeastExists(left, SlotPrefix(hashslot), some);
      t :| t in left && IsLeast(t, left, SlotPrefix(hashslot));
    }

    lemma DstHasNoExpire(dst: Key)
      requires Valid() && dst !in dict
      ensures dst !in expires
    {
    }
  }

  lemma SlotIndexed(key: Key, slot: Slot)
    requires SlotOf(key) == slot
    ensures Indexed(key) == SlotPrefix(slot) + key && AtLeast(Indexed(key), SlotPrefix(slot))
  {
    hide SlotOf, SlotPrefix;
    PrefixAtLeast(SlotPrefix(slot), key);
  }

  lemma {:induction false} PrefixAtLeast(p: Key, tail: Key)
    ensures AtLeast(p + tail, p)
  {
    if p != [] {
      assert (p + tail)[1..] == p[1..] + tail;
      PrefixAtLeast(p[1..], tail);
    }
  }

  lemma KeysInRemove(keys: set<Key>, key: Key, slot: Slot)
    requires key in KeysIn(keys, slot)
    ensures KeysIn(keys - {key}, slot) == KeysIn(keys, slot) - {key}
  {
    hide SlotOf;
  }

  lemma MinusOne<T>(m: map<Key, T>, all: set<Key>, left: set<Key>, key: Key)
    requires key in left && left <= all
    ensures m - (all - (left - {key})) == m - (all - left) - {key} && |left - {key}| == |left| - 1
  {
  }

  /** What an iteration that started at the prefix of the slot has left after these keys. */
  ghost function Rest(tree: set<Key>, slot: Slot, taken: set<Key>): set<Key> {
    set t | t in tree && AtLeast(t, SlotPrefix(slot)) && t !in Tree(taken)
  }

  lemma RestOfAll(tree: set<Key>, slot: Slot)
    ensures Rest(tree, slot, {}) == set t | t in tree && AtLeast(t, SlotPrefix(slot))
  {
    hide AtLeast, SlotPrefix, Indexed;
  }

  lemma RestTake(tree: set<Key>, slot: Slot, taken: set<Key>, k: Key)
    requires k !in taken
    ensures Rest(tree, slot, taken + {k}) == Rest(tree, slot, taken) - {Indexed(k)}
  {
    hide AtLeast, SlotPrefix, Indexed;
    TreeAdd(taken, k);
  }

  lemma KeyAt(keys: set<Key>, slot: Slot, taken: set<Key>, t: Key) returns (k: Key)
    requires t in Rest(Tree(keys), slot, taken) && SlotPrefix(slot) <= t
    ensures k in KeysIn(keys, slot) && k !in taken && t == Indexed(k) && t[2..] == k
  {
    hide AtLeast, SlotPrefix, Indexed, SlotOf;
    k :| k in keys && t == Indexed(k);
    IndexedKey(k, slot);
  }

  lemma WaitsInRest(keys: set<Key>, slot: Slot, taken: set<Key>, k: Key)
    requires k in KeysIn(keys, slot) && k !in taken
    ensures Indexed(k) in Rest(Tree(keys), slot, taken) && Indexed(k) == SlotPrefix(slot) + k
  {
    hide AtLeast, SlotPrefix, SlotOf;
    SlotIndexed(k, slot);
    hide Indexed;
    TreeAdd(taken, k);
  }

  lemma EmptyRest(keys: set<Key>, slot: Slot, taken: set<Key>)
    ensures Rest(Tree(keys), slot, taken) == {} ==> KeysIn(keys, slot) <= taken
  {
    hide AtLeast, SlotPrefix, Indexed, SlotOf, Tree;
    if k :| k in KeysIn(keys, slot) && k !in taken {
      WaitsInRest(keys, slot, taken, k);
    }
  }

  /** Once the iteration has left the prefix, no key of the slot is to come. */
  lemma NothingWaits(keys: set<Key>, slot: Slot, taken: set<Key>, t: Key)
    requires IsLeast(t, Rest(Tree(keys), slot, taken), SlotPrefix(slot)) && !(SlotPrefix(slot) <= t)
    ensures KeysIn(keys, slot) <= taken
  {
    hide AtLeast, SlotPrefix, Indexed, SlotOf, Tree;
    if k :| k in KeysIn(keys, slot) && k !in taken {
      WaitsInRest(keys, slot, taken, k);
      BetweenHasPrefix(SlotPrefix(slot), t, k);
    }
  }

  lemma NoKeys()
    ensures Agree({}, {}, seq(SLOTS, _ => 0), {})
  {
    hide SlotOf;
  }

  lemma CountedLength(keys: set<Key>, count: seq<nat>)
    requires Counted(keys, count)
    ensures |count| == SLOTS
  {
  }

  lemma VolatileHasKey(keys: set<Key>, volatile: set<Key>, count: seq<nat>, tree: set<Key>, key: Key)
    requires Agree(keys, volatile, count, tree) && key in volatile
    ensures key in keys
  {
  }

  function ExpireOf(expires: map<Key, int>, key: Key): int {
    if key in expires then expires[key] else -1
  }

  /** The key is past its expire, as far as the clock tells. */
  predicate Expires(expires: map<Key, int>, key: Key, clock: Clock) {
    0 <= ExpireOf(expires, key) < clock.now && !clock.loading
  }

  /** What a lookup for writing leaves: on a master, a key past its expire is gone. */
  function Live<T>(m: map<Key, T>, expires: map<Key, int>, key: Key, clock: Clock): map<Key, T> {
    if Expires(expires, key, clock) && !clock.slave then m - {key} else m
  }
}
