/**
 The order in which `dictScan` walks words.  A cursor is incremented with its bits reversed, so
 words are ordered by their reversed value: the least significant bit counts most.  Written on
 bit sequences this is the lexicographic order, and one step with the mask of a table of 2^k
 buckets moves to the first word whose low k bits come after those of the cursor.
 */
module ScanOrder {
  import opened Words

  /** The mask `size - 1`: the bits worth less than the size. */
  function SizeMask(size: nat): Word {
    seq(64, i requires 0 <= i < 64 => WorthLess(i, size))
  }

  predicate WorthLess(i: nat, size: nat) {
    Pow2(i) < size
  }

  lemma SizeMaskBits(k: nat, i: nat)
    requires i < 64
    ensures SizeMask(Pow2(k))[i] <==> i < k
  {
    if i < k {
      Pow2Monotonic(i, k);
    } else if k < i {
      Pow2Monotonic(k, i);
    }
  }

  lemma MaskedEqual(a: Word, b: Word, k: nat)
    requires k <= 64
    ensures And(a, SizeMask(Pow2(k))) == And(b, SizeMask(Pow2(k))) <==> a[..k] == b[..k]
  {
    var m := SizeMask(Pow2(k));
    forall i | 0 <= i < 64
      ensures m[i] <==> i < k
    {
      SizeMaskBits(k, i);
    }
    if And(a, m) == And(b, m) {
      forall i | 0 <= i < k
        ensures a[i] == b[i]
      {
        assert And(a, m)[i] == And(b, m)[i];
      }
    }
  }

  /** `v |= ~m; v = rev(v); v++; v = rev(v);` */
  function Next(v: Word, m: Word): Word {
    Reverse(Increment(Reverse(Or(v, Not(m)))))
  }

  /** a comes before b: the first bit on which they differ is clear in a. */
  predicate Less(a: seq<bool>, b: seq<bool>)
    requires |a| == |b|
  {
    a != [] && (if a[0] == b[0] then Less(a[1..], b[1..]) else b[0])
  }

  /** The word h lies before the cursor v; cursor 0 stands for the end of a scan. */
  predicate Before(h: Word, v: Word) {
    v == Zero() || Less(h, v)
  }

  // ---------- incrementing from the other end ----------

  predicate AllTrue(s: seq<bool>) {
    forall i :: 0 <= i < |s| ==> s[i]
  }

  function Constant(b: bool, n: nat): seq<bool> {
    seq(n, _ => b)
  }

  /** The increment of a number written with its most significant bit first. */
  function Bump(s: seq<bool>): (r: seq<bool>)
    ensures |r| == |s|
  {
    if s == [] then []
    else if AllTrue(s[1..]) then [!s[0]] + Constant(false, |s| - 1)
    else [s[0]] + Bump(s[1..])
  }

  lemma {:induction false} BumpSnoc(s: seq<bool>, b: bool)
    ensures Bump(s + [b]) == if b then Bump(s) + [false] else s + [true]
  {
    if s == [] {
      assert s + [b] == [b];
    } else {
      assert (s + [b])[1..] == s[1..] + [b];
      BumpSnoc(s[1..], b);
      assert AllTrue(s[1..] + [b]) <==> AllTrue(s[1..]) && b by {
        assert forall i :: 0 <= i < |s[1..]| ==> (s[1..] + [b])[i] == s[1..][i];
        assert (s[1..] + [b])[|s| - 1] == b;
      }
    }
  }

  lemma ReverseSnoc(t: seq<bool>, b: bool)
    ensures Reverse(t + [b]) == [b] + Reverse(t)
    ensures Reverse([b] + t) == Reverse(t) + [b]
    ensures Reverse(Reverse(t)) == t
  {
  }

  lemma {:induction false} ReversedIncrement(s: seq<bool>)
    ensures Reverse(Increment(Reverse(s))) == Bump(s)
  {
    if s != [] {
      hide Reverse, Bump;
      var t, b := s[..|s| - 1], s[|s| - 1];
      assert s == t + [b];
      ReverseSnoc(t, b);
      assert Reverse(s)[1..] == Reverse(t);
      BumpSnoc(t, b);
      if b {
        ReversedIncrement(t);
        ReverseSnoc(Increment(Reverse(t)), false);
      } else {
        ReverseSnoc(Reverse(t), true);
      }
    }
  }

  lemma {:induction false} BumpFilled(s: seq<bool>, n: nat)
    ensures Bump(s + Constant(true, n)) == Bump(s) + Constant(false, n)
  {
    if n == 0 {
      assert s + Constant(true, 0) == s;
    } else {
      assert s + Constant(true, n) == (s + Constant(true, n - 1)) + [true];
      BumpFilled(s, n - 1);
      BumpSnoc(s + Constant(true, n - 1), true);
      assert Bump(s) + Constant(false, n - 1) + [false] == Bump(s) + Constant(false, n);
    }
  }

  /** A step with the mask of 2^k buckets increments the low k bits and clears the others. */
  lemma NextIsBump(v: Word, k: nat)
    requires k <= 64
    ensures Next(v, SizeMask(Pow2(k))) == Bump(v[..k]) + Constant(false, 64 - k)
  {
    var m := SizeMask(Pow2(k));
    forall i | 0 <= i < 64
      ensures m[i] <==> i < k
    {
      SizeMaskBits(k, i);
    }
    assert Or(v, Not(m)) == v[..k] + Constant(true, 64 - k);
    ReversedIncrement(Or(v, Not(m)));
    BumpFilled(v[..k], 64 - k);
  }

  // ---------- order ----------

  lemma {:induction false} LessPrefix(a: seq<bool>, b: seq<bool>, k: nat)
    requires k <= |a| == |b|
    ensures Less(a, b) <==> Less(a[..k], b[..k]) || (a[..k] == b[..k] && Less(a[k..], b[k..]))
  {
    if k == 0 {
      assert a[k..] == a && b[k..] == b;
    } else {
      LessPrefix(a[1..], b[1..], k - 1);
      assert a[..k][1..] == a[1..][..k - 1] && b[..k][1..] == b[1..][..k - 1];
      assert a[1..][k - 1..] == a[k..] && b[1..][k - 1..] == b[k..];
      assert a[..k] == [a[0]] + a[1..][..k - 1] && b[..k] == [b[0]] + b[1..][..k - 1];
    }
  }

  lemma {:induction false} LessZeros(a: seq<bool>, n: nat)
    requires |a| == n
    ensures !Less(a, Constant(false, n))
  {
    if n > 0 {
      assert Constant(false, n)[1..] == Constant(false, n - 1);
      LessZeros(a[1..], n - 1);
    }
  }

  lemma {:induction false} LessOnes(a: seq<bool>, b: seq<bool>)
    requires |a| == |b| && AllTrue(b)
    ensures Less(a, b) || a == b
  {
    if a != [] {
      LessOnes(a[1..], b[1..]);
    }
  }

  lemma {:induction false} BumpIsNext(p: seq<bool>)
    requires !AllTrue(p)
    ensures Less(p, Bump(p))
    ensures forall q | |q| == |p| && Less(q, Bump(p)) :: Less(q, p) || q == p
  {
    if AllTrue(p[1..]) {
      forall q | |q| == |p| && Less(q, Bump(p))
        ensures Less(q, p) || q == p
      {
        assert Bump(p)[1..] == Constant(false, |p| - 1);
        LessZeros(q[1..], |p| - 1);
        LessOnes(q[1..], p[1..]);
      }
    } else {
      BumpIsNext(p[1..]);
      assert Bump(p)[1..] == Bump(p[1..]);
    }
  }

  // ---------- the two properties every scan rests on ----------

  /** The cursor moves strictly forward or comes back to 0. */
  lemma NextAdvances(v: Word, k: nat)
    requires k <= 64
    ensures Before(v, Next(v, SizeMask(Pow2(k))))
  {
    var next := Next(v, SizeMask(Pow2(k)));
    NextIsBump(v, k);
    if AllTrue(v[..k]) {
      BumpOnes(v[..k]);
      assert next == Zero();
    } else {
      BumpIsNext(v[..k]);
      LessPrefix(v, next, k);
      assert next[..k] == Bump(v[..k]);
    }
  }

  lemma BumpOnes(s: seq<bool>)
    requires AllTrue(s)
    ensures Bump(s) == Constant(false, |s|)
  {
  }

  /** Every word from the cursor up to the next cursor falls in the cursor's bucket. */
  lemma NextCoversBucket(h: Word, v: Word, k: nat)
    requires k <= 64
    requires !Less(h, v) && Before(h, Next(v, SizeMask(Pow2(k))))
    ensures And(h, SizeMask(Pow2(k))) == And(v, SizeMask(Pow2(k)))
  {
    hide Next, SizeMask;
    var p, q := v[..k], h[..k];
    var next := Next(v, SizeMask(Pow2(k)));
    NextIsBump(v, k);
    LessPrefix(h, v, k);
    if AllTrue(p) {
      LessOnes(q, p);
    } else {
      BumpIsNext(p);
      BumpNotZero(p);
      var i :| 0 <= i < k && Bump(p)[i];
      assert next[i];
      BeforeBump(h, next, p);
    }
    MaskedEqual(h, v, k);
  }

  lemma BeforeBump(h: Word, next: Word, p: seq<bool>)
    requires |p| <= 64 && next == Bump(p) + Constant(false, 64 - |p|) && Less(h, next)
    ensures Less(h[..|p|], Bump(p))
  {
    hide Bump, Less, Constant;
    var k := |p|;
    assert next[..k] == Bump(p) && next[k..] == Constant(false, 64 - k);
    LessPrefix(h, next, k);
    LessZeros(h[k..], 64 - k);
  }

  lemma BumpNotZero(p: seq<bool>)
    requires !AllTrue(p)
    ensures exists i :: 0 <= i < |p| && Bump(p)[i]
  {
    BumpIsNext(p);
    if forall i :: 0 <= i < |p| ==> !Bump(p)[i] {
      assert Bump(p) == Constant(false, |p|);
      LessZeros(p, |p|);
    }
  }

  // ---------- walking a larger table inside one bucket of a smaller one ----------

  lemma {:induction false} BumpTail(a: seq<bool>, b: seq<bool>)
    requires !AllTrue(b)
    ensures Bump(a + b) == a + Bump(b)
  {
    if a == [] {
      assert a + b == b;
    } else {
      var i :| 0 <= i < |b| && !b[i];
      assert (a + b)[1..] == a[1..] + b;
      assert !(a[1..] + b)[|a| - 1 + i];
      BumpTail(a[1..], b);
    }
  }

  lemma BumpSplit(p: seq<bool>, k: nat)
    requires k <= |p|
    ensures Bump(p) == if AllTrue(p[k..]) then Bump(p[..k]) + Constant(false, |p| - k) else p[..k] + Bump(p[k..])
  {
    hide Bump, AllTrue, Constant;
    SplitAt(p, k);
    BumpJoined(p, p[..k], p[k..]);
  }

  lemma SplitAt(p: seq<bool>, k: nat)
    requires k <= |p|
    ensures p == p[..k] + p[k..]
  {
  }

  lemma BumpJoined(p: seq<bool>, a: seq<bool>, b: seq<bool>)
    requires p == a + b
    ensures Bump(p) == if AllTrue(b) then Bump(a) + Constant(false, |b|) else a + Bump(b)
  {
    hide Bump, AllTrue, Constant;
    BumpConcat(a, b);
  }

  lemma BumpConcat(a: seq<bool>, b: seq<bool>)
    ensures Bump(a + b) == if AllTrue(b) then Bump(a) + Constant(false, |b|) else a + Bump(b)
  {
    hide Bump;
    if AllTrue(b) {
      assert b == Constant(true, |b|);
      BumpFilled(a, |b|);
    } else {
      BumpTail(a, b);
    }
  }

  /** The test `v & (m0 ^ m1)` that keeps the expansion loop running. */
  predicate InsideBlock(v: Word, m0: Word, m1: Word) {
    And(v, Xor(m0, m1)) != Zero()
  }

  lemma InsideBlockBits(v: Word, j: nat, k: nat)
    requires j < k <= 64
    ensures InsideBlock(v, SizeMask(Pow2(j)), SizeMask(Pow2(k))) <==> exists i :: j <= i < k && v[i]
  {
    var m0, m1 := SizeMask(Pow2(j)), SizeMask(Pow2(k));
    forall i | 0 <= i < 64
      ensures m0[i] == (i < j) && m1[i] == (i < k)
    {
      SizeMaskBits(j, i);
      SizeMaskBits(k, i);
    }
    var w := And(v, Xor(m0, m1));
    assert forall i :: 0 <= i < 64 ==> w[i] == (v[i] && j <= i < k);
    if w != Zero() {
      var i :| 0 <= i < 64 && w[i];
      assert v[i];
    }
  }

  /**
   One step with the larger mask either stays in the block of the smaller one, or leaves it at the
   same place as one step with the smaller mask.
   */
  lemma StepInBlock(v: Word, j: nat, k: nat)
    requires j < k <= 64
    ensures var m0, m1 := SizeMask(Pow2(j)), SizeMask(Pow2(k)); var next := Next(v, m1);
      if InsideBlock(next, m0, m1) then next[..j] == v[..j] && Less(v, next) else next == Next(v, m0)
  {
    hide Next, SizeMask, InsideBlock;
    var m0, m1 := SizeMask(Pow2(j)), SizeMask(Pow2(k));
    var next := Next(v, m1);
    var p := v[..k];
    assert p[..j] == v[..j];
    NextIsBump(v, k);
    NextIsBump(v, j);
    NextAdvances(v, k);
    InsideBlockBits(next, j, k);
    BumpSplit(p, j);
    if AllTrue(p[j..]) {
      assert next == Bump(v[..j]) + Constant(false, 64 - j);
    } else {
      BumpNotZero(p[j..]);
      var i :| 0 <= i < k - j && Bump(p[j..])[i];
      assert next[j + i];
    }
  }

  lemma NextOfBlock(v: Word, w: Word, k: nat)
    requires k <= 64 && v[..k] == w[..k]
    ensures Next(v, SizeMask(Pow2(k))) == Next(w, SizeMask(Pow2(k)))
  {
    NextIsBump(v, k);
    NextIsBump(w, k);
  }

  // ---------- scan order is the order of the reversed numbers ----------

  /** The number `rev(v)`. */
  function Reversed(v: seq<bool>): nat {
    Value(Reverse(v))
  }

  lemma {:induction false} ReversedCons(b: bool, s: seq<bool>)
    ensures Reversed([b] + s) == Reversed(s) + (if b then Pow2(|s|) else 0)
  {
    ReverseSnoc(s, b);
    ValueSnoc(Reverse(s), b);
  }

  lemma {:induction false} ValueSnoc(s: seq<bool>, b: bool)
    ensures Value(s + [b]) == Value(s) + (if b then Pow2(|s|) else 0)
  {
    if s == [] {
      assert s + [b] == [b] && [b][1..] == [];
    } else {
      assert (s + [b])[1..] == s[1..] + [b];
      ValueSnoc(s[1..], b);
    }
  }

  lemma {:induction false} LessIsReversed(a: seq<bool>, b: seq<bool>)
    requires |a| == |b|
    ensures Less(a, b) <==> Reversed(a) < Reversed(b)
    ensures Reversed(a) < Pow2(|a|) && Reversed(b) < Pow2(|b|)
  {
    IncrementValue(Reverse(a));
    IncrementValue(Reverse(b));
    if a != [] {
      LessIsReversed(a[1..], b[1..]);
      assert a == [a[0]] + a[1..] && b == [b[0]] + b[1..];
      ReversedCons(a[0], a[1..]);
      ReversedCons(b[0], b[1..]);
    }
  }
}
