/**
 Integers of any width from 1 to 63 bits at any bit offset of a string: reading, writing, and what
 happens when a value does not fit.
 */
module Bitfields {
  import opened Words
  import opened BitBytes
  import opened BitStrings

  const TWO_TO_63: int := 0x8000_0000_0000_0000
  const TWO_TO_64: int := 0x1_0000_0000_0000_0000

  /** What is stored in an int64_t and in a uint64_t. */
  function Int64(x: int): (r: int)
    ensures -TWO_TO_63 <= r < TWO_TO_63
  {
    (x + TWO_TO_63) % TWO_TO_64 - TWO_TO_63
  }

  function UInt64(x: int): (r: nat)
    ensures r < TWO_TO_64
  {
    x % TWO_TO_64
  }

  // ---------- fields ----------

  /** The bits with the ones from offset on replaced by a field. */
  function Replaced(bits: seq<bool>, offset: nat, field: seq<bool>): (r: seq<bool>)
    requires offset + |field| <= |bits|
    ensures |r| == |bits|
  {
    bits[..offset] + field + bits[offset + |field|..]
  }

  /** The number in a field. */
  function Field(bits: seq<bool>, offset: nat, width: nat): nat
    requires offset + width <= |bits|
  {
    FromBits(bits[offset..offset + width])
  }

  /** A number of some width read as two's complement. */
  function Signed(v: nat, width: nat): int
    requires width > 0
  {
    if v < Pow2(width - 1) then v else v - Pow2(width)
  }

  lemma FieldOfReplaced(bits: seq<bool>, offset: nat, v: nat, width: nat)
    requires offset + width <= |bits|
    ensures Field(Replaced(bits, offset, ToBits(v, width)), offset, width) == v % Pow2(width)
  {
    assert Replaced(bits, offset, ToBits(v, width))[offset..offset + width] == ToBits(v, width);
    FromToBits(v, width);
  }

  /** Reading a field after writing it gives the value modulo two to the width, and a disjoint field is as before. */
  lemma GetAfterSet(bits: seq<bool>, offset: nat, v: nat, width: nat, offset': nat, width': nat)
    requires offset + width <= |bits| && offset' + width' <= |bits|
    ensures Field(Replaced(bits, offset, ToBits(v, width)), offset, width) == v % Pow2(width)
    ensures offset' + width' <= offset || offset + width <= offset' ==>
      Field(Replaced(bits, offset, ToBits(v, width)), offset', width') == Field(bits, offset', width')
  {
    FieldOfReplaced(bits, offset, v, width);
    if offset' + width' <= offset || offset + width <= offset' {
      hide ToBits, Replaced;
      Untouched(bits, offset, ToBits(v, width), offset', width');
    }
  }

  lemma Untouched(bits: seq<bool>, offset: nat, field: seq<bool>, offset': nat, width': nat)
    requires offset + |field| <= |bits| && offset' + width' <= |bits|
    requires offset' + width' <= offset || offset + |field| <= offset'
    ensures Replaced(bits, offset, field)[offset'..offset' + width'] == bits[offset'..offset' + width']
  {
    var r := Replaced(bits, offset, field);
    var a, b := r[offset'..offset' + width'], bits[offset'..offset' + width'];
    forall i | 0 <= i < width' ensures a[i] == b[i] {
      if offset + |field| <= offset' {
        assert r[offset' + i] == bits[offset + |field|..][offset' + i - offset - |field|];
      }
    }
  }

  /** Writing what is there changes nothing. */
  lemma SetAfterGet(bits: seq<bool>, offset: nat, width: nat)
    requires offset + width <= |bits|
    ensures Replaced(bits, offset, ToBits(Field(bits, offset, width), width)) == bits
  {
    ToFromBits(bits[offset..offset + width]);
  }

  /** A signed value that fits comes back as it was written. */
  lemma SignedGetAfterSet(bits: seq<bool>, offset: nat, value: int, width: nat)
    requires offset + width <= |bits| && 0 < width <= 63
    requires 0 <= value + Pow2(width - 1) < Pow2(width)
    ensures Signed(Field(Replaced(bits, offset, ToBits(UInt64(value), width)), offset, width), width) == value
  {
    hide Pow2, Field, Replaced;
    FieldOfReplaced(bits, offset, UInt64(value), width);
    UnsignedModulo(value, width);
    Twice(width);
    if value >= 0 {
      SmallMod(value, Pow2(width));
    } else {
      SmallMod(value + Pow2(width), Pow2(width));
      AddModulus(value, Pow2(width));
    }
  }

  lemma Twice(width: nat)
    requires 0 < width <= 63
    ensures Pow2(width) == 2 * Pow2(width - 1) && 1 <= Pow2(width - 1) && Pow2(width) <= TWO_TO_63
  {
    if width < 63 {
      Pow2Monotonic(width, 63);
    }
    Pow2Values();
  }

  lemma SmallMod(v: int, p: nat)
    requires 0 <= v < p
    ensures v % p == v
  {
  }

  lemma AddModulus(v: int, p: nat)
    requires p > 0
    ensures (v + p) % p == v % p
  {
    ModUnique(v + p, p, v / p + 1, v % p);
  }

  /** Conversion to uint64_t keeps a value modulo two to the width. */
  lemma UnsignedModulo(value: int, width: nat)
    requires width <= 64
    ensures UInt64(value) % Pow2(width) == value % Pow2(width)
  {
    hide Pow2;
    Pow2Add(width, 64 - width);
    Pow2Values();
    assert TWO_TO_64 == Pow2(width) * Pow2(64 - width);
    ModMod(value, Pow2(width), Pow2(64 - width));
  }

  lemma ModMod(x: int, a: nat, b: nat)
    requires a > 0 && b > 0 && a * b > 0
    ensures x % (a * b) % a == x % a
  {
    var q, r := x / (a * b), x % (a * b);
    assert x == q * (a * b) + r;
    assert q * (a * b) == (q * b) * a;
    AddMultiple(r, q * b, a);
  }

  lemma AddMultiple(r: int, k: int, a: nat)
    requires a > 0
    ensures (k * a + r) % a == r % a
  {
    assert k * a + (r / a) * a == (k + r / a) * a;
    ModUnique(k * a + r, a, k + r / a, r % a);
  }

  // ---------- reading and writing ----------

  /** `setUnsignedBitfield` */
  method SetUnsignedBitfield(p: array<bv8>, offset: nat, bits: nat, value: nat)
    requires offset + bits <= 8 * p.Length && bits <= 64 && value < TWO_TO_64
    modifies p
    ensures Bits(p[..]) == Replaced(old(Bits(p[..])), offset, ToBits(value, bits))
  {
    hide Bits, ToBits, Pow2, SetByte, ClearByte, TestByte;
    ghost var before := Bits(p[..]);
    var off := offset;
    NothingReplaced(before, offset, ToBits(value, bits));
    for j := 0 to bits
      invariant off == offset + j
      invariant Bits(p[..]) == Replaced(before, offset, ToBits(value, bits)[..j])
    {
      var bitval := value / Pow2(bits - 1 - j) % 2 != 0;
      ToBitsAt(value, bits, j);
      ghost var s := p[..];
      WriteBitBits(s, off, bitval);
      var byteval := ClearByte(p[off / 8], 7 - off % 8);
      p[off / 8] := if bitval then SetByte(byteval, 7 - off % 8) else byteval;
      assert p[..] == WriteBit(s, off, bitval);
      OneMoreReplaced(before, offset, ToBits(value, bits), j);
      off := off + 1;
    }
    assert ToBits(value, bits)[..bits] == ToBits(value, bits);
  }

  lemma NothingReplaced(bits: seq<bool>, offset: nat, field: seq<bool>)
    requires offset + |field| <= |bits|
    ensures Replaced(bits, offset, field[..0]) == bits
  {
  }

  lemma OneMoreReplaced(bits: seq<bool>, offset: nat, field: seq<bool>, j: nat)
    requires offset + |field| <= |bits| && j < |field|
    ensures Replaced(bits, offset, field[..j])[offset + j := field[j]] == Replaced(bits, offset, field[..j + 1])
  {
  }

  /** `setSignedBitfield` */
  method SetSignedBitfield(p: array<bv8>, offset: nat, bits: nat, value: int)
    requires offset + bits <= 8 * p.Length && bits <= 64 && -TWO_TO_63 <= value < TWO_TO_63
    modifies p
    ensures Bits(p[..]) == Replaced(old(Bits(p[..])), offset, ToBits(UInt64(value), bits))
  {
    SetUnsignedBitfield(p, offset, bits, UInt64(value));
  }

  /** `getUnsignedBitfield` */
  method GetUnsignedBitfield(p: seq<bv8>, offset: nat, bits: nat) returns (value: nat)
    requires offset + bits <= 8 * |p| && bits <= 64
    ensures value == Field(Bits(p), offset, bits) && value < Pow2(bits)
  {
    hide Pow2, TestByte;
    var off := offset;
    value := 0;
    for j := 0 to bits
      invariant off == offset + j
      invariant value == Field(Bits(p), offset, j)
    {
      var bitval := TestByte(p[off / 8], 7 - off % 8);
      assert Bits(p)[offset..offset + j + 1][..j] == Bits(p)[offset..offset + j];
      assert Bits(p)[offset..offset + j + 1][j] == bitval;
      value := value * 2 + if bitval then 1 else 0;
      off := off + 1;
    }
    FromBitsBound(Bits(p)[offset..offset + bits]);
  }

  /** `getSignedBitfield` */
  method GetSignedBitfield(p: seq<bv8>, offset: nat, bits: nat) returns (value: int)
    requires offset + bits <= 8 * |p| && 0 < bits <= 63
    ensures value == Signed(Field(Bits(p), offset, bits), bits)
    ensures 0 <= value + Pow2(bits - 1) < Pow2(bits)
    ensures value == Field(Bits(p), offset, bits) || value == Field(Bits(p), offset, bits) - Pow2(bits)
  {
    hide Pow2, Bits, Field;
    var u := GetUnsignedBitfield(p, offset, bits);
    Twice(bits);
    if u >= Pow2(bits - 1) {
      // the bits from the width up are set, which adds 2^64 - 2^bits to a number below 2^bits
      value := Int64(u + (TWO_TO_64 - Pow2(bits)));
    } else {
      value := Int64(u);
    }
  }

  /**
   The GET of BITFIELD reads through a window of nine bytes copied from the string and padded with
   zeros; the result is the field of the string padded with zeros without end.
   */
  method GetThroughWindow(src: seq<bv8>, offset: nat, bits: nat, signed: bool) returns (value: int)
    requires 0 < bits <= 63
    ensures var u := Field(Bits(Padded(src, offset / 8 + 9)), offset, bits);
      value == if signed then Signed(u, bits) else u
  {
    hide Bits, Field, Signed;
    var buf := new bv8[9](_ => 0);
    var first := offset / 8;
    var i := 0;
    while i < 9
      invariant 0 <= i <= 9
      invariant forall k :: 0 <= k < 9 ==> buf[k] == if k < i && k + first < |src| then src[k + first] else 0
      invariant i + first <= |src| || i == 0
    {
      if i + first >= |src| {
        break;
      }
      buf[i] := src[i + first];
      i := i + 1;
    }
    ghost var padded := Padded(src, first + 9);
    forall k | 0 <= k < 9 ensures buf[k] == padded[first + k] {
      assert padded[first + k] == if first + k < |src| then src[first + k] else 0;
    }
    assert buf[..] == padded[first..first + 9];
    WindowField(Padded(src, first + 9), first, offset, bits);
    if signed {
      value := GetSignedBitfield(buf[..], offset - first * 8, bits);
    } else {
      value := GetUnsignedBitfield(buf[..], offset - first * 8, bits);
    }
  }

  /** The first n bytes of the string followed by zeros. */
  function Padded(s: seq<bv8>, n: nat): (r: seq<bv8>)
    ensures |r| == n
  {
    seq(n, i requires 0 <= i < n => if i < |s| then s[i] else 0)
  }

  lemma WindowField(s: seq<bv8>, first: nat, offset: nat, bits: nat)
    requires |s| == first + 9 && first == offset / 8 && bits <= 64
    ensures offset - 8 * first + bits <= 72 && offset + bits <= 8 * |s|
    ensures Field(Bits(s[first..first + 9]), offset - 8 * first, bits) == Field(Bits(s), offset, bits)
  {
    hide TestByte, FromBits;
    var w, o := s[first..first + 9], offset - 8 * first;
    var a, b := Bits(w)[o..o + bits], Bits(s)[offset..offset + bits];
    forall i | 0 <= i < bits ensures a[i] == b[i] {
      var k := o + i;
      assert offset + i == 8 * first + k;
      assert (offset + i) / 8 == first + k / 8 && (offset + i) % 8 == k % 8;
      assert a[i] == TestByte(w[k / 8], 7 - k % 8) && b[i] == TestByte(s[(offset + i) / 8], 7 - (offset + i) % 8);
    }
    assert a == b;
  }

  lemma ZerosRead()
    ensures forall bit :: 0 <= bit < 8 ==> !TestByte(0, bit)
  {
  }

  /** The padding reads as zeros, and more of it does not change what is read. */
  lemma PaddingIsZero(src: seq<bv8>, n: nat, m: nat, offset: nat, bits: nat)
    requires offset + bits <= 8 * n && n <= m
    ensures Field(Bits(Padded(src, n)), offset, bits) == Field(Bits(Padded(src, m)), offset, bits)
    ensures forall i :: 0 <= i < 8 * n ==> Bits(Padded(src, n))[i] == (i < 8 * |src| && Bits(src)[i])
  {
    ZerosRead();
    hide TestByte, FromBits;
    forall i | offset <= i < offset + bits
      ensures Bits(Padded(src, n))[i] == Bits(Padded(src, m))[i]
    {
    }
    assert Bits(Padded(src, n))[offset..offset + bits] == Bits(Padded(src, m))[offset..offset + bits];
  }
}
