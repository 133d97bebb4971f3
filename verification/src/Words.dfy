/**
 Unsigned 64-bit words, as the bits that C's bitwise operators work on.  Bit i of a word is
 element i, so element 0 is the least significant bit.
 */
module Words {

  type Word = w: seq<bool> | |w| == 64 witness seq(64, _ => false)

  function Zero(): Word { seq(64, _ => false) }

  function And(a: Word, b: Word): Word { seq(64, i requires 0 <= i < 64 => a[i] && b[i]) }

  function Or(a: Word, b: Word): Word { seq(64, i requires 0 <= i < 64 => a[i] || b[i]) }

  function Xor(a: Word, b: Word): Word { seq(64, i requires 0 <= i < 64 => a[i] != b[i]) }

  function Not(a: Word): Word { seq(64, i requires 0 <= i < 64 => !a[i]) }

  function Reverse(s: seq<bool>): (r: seq<bool>)
    ensures |r| == |s|
  {
    seq(|s|, i requires 0 <= i < |s| => s[|s| - 1 - i])
  }

  // ---------- numbers ----------

  function Pow2(k: nat): (p: nat)
    ensures p >= 1
  {
    if k == 0 then 1 else 2 * Pow2(k - 1)
  }

  lemma {:induction false} Pow2Monotonic(j: nat, k: nat)
    requires j < k
    ensures Pow2(j) < Pow2(k)
    decreases k
  {
    if j < k - 1 {
      Pow2Monotonic(j, k - 1);
    }
  }

  lemma {:induction false} Pow2Add(j: nat, k: nat)
    ensures Pow2(j + k) == Pow2(j) * Pow2(k)
  {
    if k > 0 {
      Pow2Add(j, k - 1);
    }
  }

  lemma SmallPowers()
    ensures Pow2(1) == 2 && Pow2(2) == 4 && Pow2(3) == 8
  {
  }

  lemma Pow2Values()
    ensures Pow2(2) == 4 && Pow2(3) == 8 && Pow2(8) == 0x100 && Pow2(16) == 0x1_0000 && Pow2(32) == 0x1_0000_0000
    ensures Pow2(63) == 0x8000_0000_0000_0000 && Pow2(64) == 0x1_0000_0000_0000_0000
  {
    hide Pow2;
    SmallPowers();
    Pow2Add(2, 2);
    Pow2Add(4, 4);
    Pow2Add(8, 8);
    Pow2Add(16, 16);
    Pow2Add(32, 32);
    Pow2Add(63, 1);
  }

  /** The number whose binary digits are s, least significant first. */
  function Value(s: seq<bool>): nat {
    if s == [] then 0 else (if s[0] then 1 else 0) + 2 * Value(s[1..])
  }

  /** `s + 1`, losing a carry out of the last digit as unsigned arithmetic does. */
  function Increment(s: seq<bool>): (r: seq<bool>)
    ensures |r| == |s|
  {
    if s == [] then [] else if !s[0] then [true] + s[1..] else [false] + Increment(s[1..])
  }

  lemma {:induction false} IncrementValue(s: seq<bool>)
    ensures Value(s) < Pow2(|s|)
    ensures Value(Increment(s)) == if Value(s) + 1 == Pow2(|s|) then 0 else Value(s) + 1
  {
    if s != [] {
      IncrementValue(s[1..]);
    }
  }
}
