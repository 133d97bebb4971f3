/** A string as a sequence of bits: bit 0 is the highest bit of the first byte. */
module BitStrings {
  import opened BitBytes
  import opened Words

  predicate BitAt(s: seq<bv8>, i: nat)
    requires i < 8 * |s|
  {
    TestByte(s[i / 8], 7 - i % 8)
  }

  function Bits(s: seq<bv8>): (b: seq<bool>)
    ensures |b| == 8 * |s|
  {
    seq(8 * |s|, i requires 0 <= i < 8 * |s| => BitAt(s, i))
  }

  /** Clear the bit, then set it to v. */
  function WriteBit(s: seq<bv8>, i: nat, v: bool): (r: seq<bv8>)
    requires i < 8 * |s|
    ensures |r| == |s|
  {
    var cleared := ClearByte(s[i / 8], 7 - i % 8);
    s[i / 8 := if v then SetByte(cleared, 7 - i % 8) else cleared]
  }

  lemma WriteBitAt(s: seq<bv8>, i: nat, v: bool, k: nat)
    requires i < 8 * |s| && k < 8 * |s|
    ensures BitAt(WriteBit(s, i, v), k) == if k == i then v else BitAt(s, k)
  {
    hide TestByte, SetByte, ClearByte;
    assert i == 8 * (i / 8) + i % 8 && k == 8 * (k / 8) + k % 8;
    BitEffects(s[i / 8], 7 - i % 8, 7 - k % 8);
    BitEffects(ClearByte(s[i / 8], 7 - i % 8), 7 - i % 8, 7 - k % 8);
  }

  lemma WriteBitBits(s: seq<bv8>, i: nat, v: bool)
    requires i < 8 * |s|
    ensures Bits(WriteBit(s, i, v)) == Bits(s)[i := v]
  {
    hide WriteBit, BitAt;
    forall k | 0 <= k < 8 * |s|
      ensures Bits(WriteBit(s, i, v))[k] == Bits(s)[i := v][k]
    {
      WriteBitAt(s, i, v, k);
    }
  }

  // ---------- numbers, highest bit first ----------

  /** The lowest n bits of a number. */
  function ToBits(v: nat, n: nat): (b: seq<bool>)
    ensures |b| == n
    decreases n
  {
    if n == 0 then [] else ToBits(v / 2, n - 1) + [v % 2 == 1]
  }

  function FromBits(b: seq<bool>): nat {
    if b == [] then 0 else 2 * FromBits(b[..|b| - 1]) + if b[|b| - 1] then 1 else 0
  }

  lemma {:induction false} FromToBits(v: nat, n: nat)
    ensures FromBits(ToBits(v, n)) == v % Pow2(n)
    decreases n
  {
    if n > 0 {
      FromToBits(v / 2, n - 1);
      assert ToBits(v, n)[..n - 1] == ToBits(v / 2, n - 1);
      ModTwice(v, Pow2(n - 1));
    }
  }

  lemma ModTwice(v: nat, p: nat)
    requires p > 0
    ensures v % (2 * p) == 2 * (v / 2 % p) + v % 2
  {
    var q := v / 2 / p;
    assert v / 2 == q * p + v / 2 % p;
    assert v == 2 * (v / 2) + v % 2;
    ModUnique(v, 2 * p, q, 2 * (v / 2 % p) + v % 2);
  }

  lemma ModUnique(v: int, p: nat, q: int, r: nat)
    requires p > 0 && v == q * p + r && r < p
    ensures v % p == r && v / p == q
  {
    SameQuotient(q, r, v / p, v % p, p);
  }

  lemma SameQuotient(q: int, r: nat, q': int, r': nat, p: nat)
    requires r < p && r' < p && q * p + r == q' * p + r'
    ensures q == q' && r == r'
  {
    if q < q' {
      Apart(q, q', p);
    } else if q' < q {
      Apart(q', q, p);
    }
  }

  lemma {:induction false} Apart(q: int, q': int, p: nat)
    requires q < q'
    ensures q * p + p <= q' * p
    decreases q' - q
  {
    assert q' * p == (q' - 1) * p + p;
    if q < q' - 1 {
      Apart(q, q' - 1, p);
    }
  }

  lemma {:induction false} FromBitsBound(b: seq<bool>)
    ensures FromBits(b) < Pow2(|b|)
  {
    if b != [] {
      FromBitsBound(b[..|b| - 1]);
    }
  }

  lemma {:induction false} ToFromBits(b: seq<bool>)
    ensures ToBits(FromBits(b), |b|) == b
  {
    if b != [] {
      ToFromBits(b[..|b| - 1]);
      assert b == b[..|b| - 1] + [b[|b| - 1]];
    }
  }

  /** Shifting down and masking finds the bits of a number. */
  lemma {:induction false} ToBitsAt(v: nat, n: nat, j: nat)
    requires j < n
    ensures ToBits(v, n)[j] == (v / Pow2(n - 1 - j) % 2 == 1)
    decreases n
  {
    if j < n - 1 {
      ToBitsAt(v / 2, n - 1, j);
      DivTwice(v, Pow2(n - 2 - j));
    } else {
      assert Pow2(0) == 1;
    }
  }

  lemma DivTwice(v: nat, p: nat)
    requires p > 0
    ensures v / 2 / p == v / (2 * p)
  {
    ModTwice(v, p);
    var q := v / 2 / p;
    assert v / 2 == q * p + v / 2 % p;
    ModUnique(v, 2 * p, q, 2 * (v / 2 % p) + v % 2);
  }

  // ---------- bytes as numbers ----------

  lemma LowestDigit(x: bv8)
    ensures x & 1 != 0 <==> x as nat % 2 == 1
  {
  }

  lemma HalfByte(x: bv8)
    ensures (x >> 1) as nat == x as nat / 2
  {
  }

  lemma MaskDown(x: bv8, mask: bv8)
    requires mask & 0x80 == 0
    ensures (x >> 1) & mask != 0 <==> x & (mask << 1) != 0
  {
  }

  lemma MaskTwice(bit: nat)
    requires 0 < bit < 8
    ensures UnitMask(bit - 1) & 0x80 == 0 && UnitMask(bit - 1) << 1 == UnitMask(bit)
  {
  }

  /** Bit number `bit` of a byte is the binary digit worth 2^bit. */
  lemma {:induction false} TestByteIsDigit(x: bv8, bit: nat)
    requires bit < 8
    ensures TestByte(x, bit) <==> x as nat / Pow2(bit) % 2 == 1
    decreases bit
  {
    if bit == 0 {
      LowestDigit(x);
      assert Pow2(0) == 1;
    } else {
      TestByteIsDigit(x >> 1, bit - 1);
      hide UnitMask;
      MaskTwice(bit);
      MaskDown(x, UnitMask(bit - 1));
      HalfByte(x);
      DivTwice(x as nat, Pow2(bit - 1));
    }
  }

  /** Bit i of a string is bit number 7 - i % 8, counted from the lowest, of its byte i / 8. */
  lemma BitAtIsDigit(s: seq<bv8>, i: nat)
    requires i < 8 * |s|
    ensures Bits(s)[i] <==> s[i / 8] as nat / Pow2(7 - i % 8) % 2 == 1
  {
    hide TestByte, Pow2;
    TestByteIsDigit(s[i / 8], 7 - i % 8);
  }
}
