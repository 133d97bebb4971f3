/**
 The footer of a serialized value: two bytes of version and the CRC64 of everything before, lowest
 byte first.  What is created verifies, and no change confined to 64 consecutive bits does.
 */
module DumpPayload {
  import opened Polynomials
  import opened Crc64

  const RDB_VERSION: bv16 := 8

  // ---------- words and bytes ----------

  /** The low k bytes of a word, lowest first. */
  function LittleEndian(c: bv64, k: nat): (s: seq<bv8>)
    ensures |s| == k
    decreases k
  {
    if k == 0 then [] else [LowOf(c)] + LittleEndian(Byte(c), k - 1)
  }

  function LowOf(c: bv64): bv8 {
    (c & 0xFF) as bv8
  }

  lemma LowOfBits(c: bv64)
    ensures ByteBits(LowOf(c)) == Bits(c, 8)
  {
    assert Wide(LowOf(c)) == c & 0xFF;
    hide Bits;
    LowByte(c);
  }

  lemma {:induction false} LittleEndianBits(c: bv64, k: nat)
    ensures MessageBits(LittleEndian(c, k)) == Bits(c, 8 * k)
    decreases k
  {
    if k > 0 {
      hide Bits, Byte, LowOf, ByteBits;
      LowOfBits(c);
      BitsSplit(c, 8, 8 * (k - 1));
      ShrByte(c);
      LittleEndianBits(Byte(c), k - 1);
      assert LittleEndian(c, k)[1..] == LittleEndian(Byte(c), k - 1);
    } else {
      assert Bits(c, 0) == [];
    }
  }

  lemma SameHalves(a: bv64, b: bv64)
    requires Odd(a) == Odd(b) && Half(a) == Half(b)
    ensures a == b
  {
  }

  lemma {:induction false} BitsInjective(a: bv64, b: bv64, n: nat)
    requires Bits(a, n) == Bits(b, n) && Shr(a, n) == Shr(b, n)
    ensures a == b
    decreases n
  {
    hide Odd, Half;
    if n > 0 {
      assert Bits(a, n)[0] == Bits(b, n)[0] && Bits(a, n)[1..] == Bits(b, n)[1..];
      BitsInjective(Half(a), Half(b), n - 1);
      SameHalves(a, b);
    }
  }

  lemma WordInjective(a: bv64, b: bv64)
    requires Bits(a, 64) == Bits(b, 64)
    ensures a == b
  {
    hide Bits, Shr;
    ShrBytes(a, 8);
    NothingLeft(a);
    ShrBytes(b, 8);
    NothingLeft(b);
    BitsInjective(a, b, 64);
  }

  lemma ByteInjective(a: bv8, b: bv8)
    requires ByteBits(a) == ByteBits(b)
    ensures a == b
  {
    assert Wide(a) == Wide(b) ==> a == b;
    hide Bits, Shr, Wide, Byte;
    ShrByte(Wide(a));
    WideIsShort(a);
    ShrByte(Wide(b));
    WideIsShort(b);
    BitsInjective(Wide(a), Wide(b), 8);
  }

  lemma {:induction false} MessageInjective(s: seq<bv8>, t: seq<bv8>)
    requires |s| == |t| && MessageBits(s) == MessageBits(t)
    ensures s == t
  {
    hide ByteBits;
    if s != [] {
      assert MessageBits(s)[..8] == ByteBits(s[0]) && MessageBits(t)[..8] == ByteBits(t[0]);
      assert MessageBits(s)[8..] == MessageBits(s[1..]) && MessageBits(t)[8..] == MessageBits(t[1..]);
      ByteInjective(s[0], t[0]);
      MessageInjective(s[1..], t[1..]);
      assert s == [s[0]] + s[1..] && t == [t[0]] + t[1..];
    }
  }

  // ---------- creating and verifying ----------

  function Version(low: bv8, high: bv8): bv16 {
    ((high as bv16) << 8) | (low as bv16)
  }

  predicate Supported(low: bv8, high: bv8) {
    Version(low, high) <= RDB_VERSION
  }

  function Number(v: bv16): nat {
    v as nat
  }

  lemma JoinedNumber(low: bv8, high: bv8)
    ensures Number(((high as bv16) << 8) | (low as bv16)) == low as nat + 256 * (high as nat)
  {
  }

  lemma AtMostVersion(v: bv16)
    ensures v <= RDB_VERSION <==> Number(v) <= RDB_VERSION as nat
  {
  }

  /** The version is a number of two bytes, the low one first. */
  lemma SupportedMeans(low: bv8, high: bv8)
    ensures Supported(low, high) <==> low as nat + 256 * (high as nat) <= 8
  {
    hide Number;
    JoinedNumber(low, high);
    AtMostVersion(Version(low, high));
  }

  predicate Verifies(p: seq<bv8>) {
    && |p| >= 10
    && Supported(p[|p| - 10], p[|p| - 9])
    && LittleEndian(CrcOf(0, p[..|p| - 8]), 8) == p[|p| - 8..]
  }

  /** `createDumpPayload`, after the value has been serialized. */
  method CreateDumpPayload(serialized: seq<bv8>) returns (payload: seq<bv8>)
    ensures serialized <= payload && |payload| == |serialized| + 10
    ensures Verifies(payload) && Version(payload[|serialized|], payload[|serialized| + 1]) == RDB_VERSION
    ensures payload[|serialized|] as nat + 256 * (payload[|serialized| + 1] as nat) == RDB_VERSION as nat
  {
    hide LittleEndian, CrcOf;
    var footer: seq<bv8> := [(RDB_VERSION & 0xFF) as bv8, ((RDB_VERSION >> 8) & 0xFF) as bv8];
    assert Version(footer[0], footer[1]) == RDB_VERSION;
    hide Version;
    payload := serialized + footer;
    var crc := Compute(0, payload);
    ghost var body := payload;
    payload := payload + LittleEndian(crc, 8);
    assert payload[..|payload| - 8] == body;
  }

  /** `verifyDumpPayload` */
  method VerifyDumpPayload(p: seq<bv8>) returns (ok: bool)
    ensures ok <==> Verifies(p)
    ensures ok <==> |p| >= 10 && p[|p| - 10] as nat + 256 * (p[|p| - 9] as nat) <= 8 && CrcOf(0, p) == 0
  {
    if |p| >= 10 {
      VerifiesIsCodeword(p);
      SupportedMeans(p[|p| - 10], p[|p| - 9]);
    }
    hide LittleEndian, CrcOf, Version;
    var len := |p|;
    if len < 10 {
      return false;
    }
    var footer := p[len - 10..];
    var rdbver := Version(footer[0], footer[1]);
    if rdbver > RDB_VERSION {
      return false;
    }
    var crc := Compute(0, p[..len - 8]);
    assert footer[2..] == p[len - 8..];
    return LittleEndian(crc, 8) == footer[2..];
  }

  // ---------- the checksum as a codeword ----------

  lemma JonesEndsInOne()
    ensures JonesTail()[63]
  {
    assert Odd(Byte(Byte(Byte(Byte(Byte(Byte(Byte(JONES)))))))) == Odd(JONES >> 56);
    assert Bytes(JONES, 7) == JONES >> 56;
    hide Bits, Bytes;
    ShrBytes(JONES, 7);
    TopBit(JONES >> 56);
    BitsSplit(JONES, 56, 8);
  }

  lemma TopBit(c: bv64)
    requires c == 0x95
    ensures Bits(c, 8)[7]
  {
    assert Shr(c, 4) == 9;
    BitsSplit(c, 4, 4);
    Bits4(9);
  }

  /** The checksum bytes are the only ones that bring the CRC to zero. */
  lemma Residue(c: bv64, footer: seq<bv8>)
    requires |footer| == 8
    ensures CrcOf(c, footer) == 0 <==> footer == LittleEndian(c, 8)
  {
    hide Bits, CrcOf, LittleEndian, ShiftAll, JonesTail, MessageBits, AddTop;
    var own := LittleEndian(c, 8);
    CrcShifts(c, footer);
    CrcShifts(c, own);
    LittleEndianBits(c, 8);
    SelfFeedAll(Bits(c, 64), JonesTail());
    BitsZero(64);
    WordInjectiveAt0(CrcOf(c, own));
    if CrcOf(c, footer) == 0 {
      JonesEndsInOne();
      ShiftAllInjective(Bits(c, 64), MessageBits(footer), Bits(c, 64), MessageBits(own), JonesTail());
      SameRegister(Bits(c, 64), MessageBits(footer), MessageBits(own));
      MessageInjective(footer, own);
    }
  }

  lemma WordInjectiveAt0(a: bv64)
    requires Bits(a, 64) == Zeros(64)
    ensures a == 0
  {
    hide Bits;
    BitsZero(64);
    WordInjective(a, 0);
  }

  /** A payload verifies exactly when its version is not too new and the CRC of all of it is zero. */
  lemma VerifiesIsCodeword(p: seq<bv8>)
    requires |p| >= 10
    ensures Verifies(p) <==> Supported(p[|p| - 10], p[|p| - 9]) && CrcOf(0, p) == 0
  {
    hide CrcOf, LittleEndian, Supported;
    var body, footer := p[..|p| - 8], p[|p| - 8..];
    assert p == body + footer;
    CrcConcat(0, body, footer);
    Residue(CrcOf(0, body), footer);
  }

  /** Any change to a payload that verifies is rejected if it is confined to 64 consecutive bits, wherever they are. */
  lemma BurstRejected(p: seq<bv8>, q: seq<bv8>, k: nat, e: nat)
    requires Verifies(p) && |q| == |p| && q != p
    requires k <= e <= 8 * |p| && e - k <= 64
    requires MessageBits(p)[..k] == MessageBits(q)[..k] && MessageBits(p)[e..] == MessageBits(q)[e..]
    ensures !Verifies(q)
  {
    hide Verifies, CrcOf, MessageBits, Bits, JonesTail, ShiftAll;
    assert |p| >= 10 by { VerifyingIsLong(p); }
    VerifiesIsCodeword(p);
    VerifiesIsCodeword(q);
    if MessageBits(p) == MessageBits(q) {
      MessageInjective(p, q);
    }
    JonesEndsInOne();
    BurstChanges(Bits(0, 64), MessageBits(p), MessageBits(q), k, e, JonesTail());
    CrcShifts(0, p);
    CrcShifts(0, q);
  }

  lemma VerifyingIsLong(p: seq<bv8>)
    requires Verifies(p)
    ensures |p| >= 10
  {
  }

  lemma {:induction false} MessageConcat(s: seq<bv8>, t: seq<bv8>)
    ensures MessageBits(s + t) == MessageBits(s) + MessageBits(t)
  {
    hide ByteBits;
    if s == [] {
      assert s + t == t;
    } else {
      assert (s + t)[1..] == s[1..] + t;
      MessageConcat(s[1..], t);
    }
  }

  lemma Window(before: seq<bv8>, w: seq<bv8>, after: seq<bv8>)
    ensures MessageBits(before + w + after)[..8 * |before|] == MessageBits(before)
    ensures MessageBits(before + w + after)[8 * (|before| + |w|)..] == MessageBits(after)
  {
    hide MessageBits;
    MessageConcat(before + w, after);
    MessageConcat(before, w);
  }

  /** In particular, any change to at most eight consecutive bytes of a payload that verifies is rejected. */
  lemma ChangeRejected(before: seq<bv8>, w: seq<bv8>, w': seq<bv8>, after: seq<bv8>)
    requires Verifies(before + w + after) && |w| == |w'| <= 8 && w != w'
    ensures !Verifies(before + w' + after)
  {
    hide Verifies, MessageBits;
    var p, q := before + w + after, before + w' + after;
    assert p[|before|..|before| + |w|] == w && q[|before|..|before| + |w|] == w';
    Window(before, w, after);
    Window(before, w', after);
    BurstRejected(p, q, 8 * |before|, 8 * (|before| + |w|));
  }
}
