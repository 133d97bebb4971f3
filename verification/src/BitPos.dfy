/**
 The position of the first bit of a value in a string: equal words are skipped, and the bits of the
 first word that differs are looked at one by one.
 */
module BitPos {
  import opened BitBytes
  import opened BitStrings
  import opened WordBytes

  // ---------- words, highest bit first ----------

  const HIGHEST: bv64 := 0x8000_0000_0000_0000

  predicate Top(w: bv64) {
    w & HIGHEST != 0
  }

  function Up(w: bv64): bv64 {
    w << 1
  }

  function TopBits(w: bv64, n: nat): (b: seq<bool>)
    ensures |b| == n
    decreases n
  {
    if n == 0 then [] else [Top(w)] + TopBits(Up(w), n - 1)
  }

  function UpBy(w: bv64, n: nat): bv64
    decreases n
  {
    if n == 0 then w else UpBy(Up(w), n - 1)
  }

  lemma {:induction false} TopBitsSplit(w: bv64, n: nat, m: nat)
    ensures TopBits(w, n + m) == TopBits(w, n) + TopBits(UpBy(w, n), m)
    decreases n
  {
    hide Top, Up;
    if n > 0 {
      TopBitsSplit(Up(w), n - 1, m);
    }
  }

  lemma {:induction false} TopBitsAt(w: bv64, n: nat, k: nat)
    requires k < n
    ensures TopBits(w, n)[k] == Top(UpBy(w, k))
    decreases n
  {
    hide Top, Up;
    if k > 0 {
      TopBitsAt(Up(w), n - 1, k - 1);
    }
  }

  /** The highest bit, shifted down k times. */
  function Probe(k: nat): bv64 {
    if k == 0 then HIGHEST else Down(Probe(k - 1))
  }

  function Down(w: bv64): bv64 {
    w >> 1
  }

  predicate Hits(one: bv64, w: bv64) {
    one & w != 0
  }

  lemma DownUp(one: bv64, w: bv64)
    ensures (one >> 1) & w != 0 <==> one & (w << 1) != 0
  {
  }

  lemma HitsDown(one: bv64, w: bv64)
    ensures Hits(Down(one), w) <==> Hits(one, Up(w))
  {
    DownUp(one, w);
  }

  lemma {:induction false} ProbeHits(k: nat, w: bv64)
    ensures Hits(Probe(k), w) <==> Top(UpBy(w, k))
  {
    hide Up, Down;
    if k > 0 {
      HitsDown(Probe(k - 1), w);
      ProbeHits(k - 1, Up(w));
    }
  }

  // ---------- the bits of a byte ----------

  function ByteBits(b: bv8): (r: seq<bool>)
    ensures |r| == 8
  {
    [TestByte(b, 7), TestByte(b, 6), TestByte(b, 5), TestByte(b, 4),
     TestByte(b, 3), TestByte(b, 2), TestByte(b, 1), TestByte(b, 0)]
  }

  lemma TopEight(w: bv64)
    ensures Top(w) == TestByte(TopByte(w), 7) && Top(Up(w)) == TestByte(TopByte(w), 6)
    ensures Top(Up(Up(w))) == TestByte(TopByte(w), 5) && Top(Up(Up(Up(w)))) == TestByte(TopByte(w), 4)
  {
  }

  function Nibble(w: bv64): bv64 {
    w << 4
  }

  lemma FourUp(w: bv64)
    ensures Up(Up(Up(Up(w)))) == Nibble(w)
  {
  }

  lemma TwoNibbles(w: bv64)
    ensures Nibble(Nibble(w)) == Octet(w)
  {
  }

  lemma LowDigit(w: bv64)
    ensures TestByte(TopByte(Nibble(w)), 7) == TestByte(TopByte(w), 3) && TestByte(TopByte(Nibble(w)), 6) == TestByte(TopByte(w), 2)
    ensures TestByte(TopByte(Nibble(w)), 5) == TestByte(TopByte(w), 1) && TestByte(TopByte(Nibble(w)), 4) == TestByte(TopByte(w), 0)
  {
  }

  lemma TopFour(w: bv64)
    ensures TopBits(w, 4) == [TestByte(TopByte(w), 7), TestByte(TopByte(w), 6), TestByte(TopByte(w), 5), TestByte(TopByte(w), 4)]
    ensures UpBy(w, 4) == Nibble(w)
  {
    hide Top, Up, TestByte, TopByte, Nibble;
    TopEight(w);
    FourUp(w);
    assert TopBits(w, 4) == [Top(w), Top(Up(w))] + TopBits(Up(Up(w)), 2);
    assert UpBy(w, 4) == UpBy(Up(Up(w)), 2);
  }

  /** The first eight bits are those of the top byte. */
  lemma TopOctet(w: bv64)
    ensures TopBits(w, 8) == ByteBits(TopByte(w)) && UpBy(w, 8) == Octet(w)
  {
    hide Top, Up, TestByte, TopByte, Nibble, TopBits, UpBy, Octet;
    TopFour(w);
    TopFour(Nibble(w));
    LowDigit(w);
    TopBitsSplit(w, 4, 4);
    UpByAdd(w, 4, 4);
    TwoNibbles(w);
  }

  lemma {:induction false} UpByAdd(w: bv64, n: nat, m: nat)
    ensures UpBy(w, n + m) == UpBy(UpBy(w, n), m)
    decreases n
  {
    hide Up;
    if n > 0 {
      UpByAdd(Up(w), n - 1, m);
    }
  }

  lemma {:induction false} UpByOctets(w: bv64, i: nat)
    ensures UpBy(w, 8 * i) == Octets(w, i)
  {
    hide UpBy, Octet;
    if i == 0 {
      UpByNothing(w);
    } else {
      UpByOctets(w, i - 1);
      UpByAdd(w, 8 * (i - 1), 8);
      TopOctet(Octets(w, i - 1));
    }
  }

  lemma UpByNothing(w: bv64)
    ensures UpBy(w, 0) == w
  {
  }

  /** Probing the word of eight bytes reads their bits in order. */
  lemma WordBit(c: seq<bv8>, k: nat)
    requires |c| == 8 && k < 64
    ensures Hits(Probe(k), Assemble(c)) == Bits(c)[k]
  {
    hide Hits, Probe, Assemble, Top, UpBy, TopBits, TopByte, TestByte, Octets;
    var w, i, r := Assemble(c), k / 8, k % 8;
    ProbeHits(k, w);
    UpByAdd(w, 8 * i, r);
    UpByOctets(w, i);
    ByteOf(c, i);
    TopOctet(Octets(w, i));
    TopBitsAt(Octets(w, i), 8, r);
    assert Bits(c)[k] == TestByte(c[i], 7 - r);
    assert ByteBits(c[i])[r] == TestByte(c[i], 7 - r);
  }

  function SkipByte(bit: bool): bv8 {
    if bit then 0 else 0xFF
  }

  function SkipWord(bit: bool): bv64 {
    if bit then 0 else 0xFFFF_FFFF_FFFF_FFFF
  }

  function SkipBytes(bit: bool): seq<bv8> {
    var b := SkipByte(bit);
    [b, b, b, b, b, b, b, b]
  }

  lemma SkipAssembled(bit: bool)
    ensures Assemble(SkipBytes(bit)) == SkipWord(bit)
  {
  }

  lemma SkipBits(bit: bool, r: nat)
    requires r < 8
    ensures TestByte(SkipByte(bit), r) == !bit
  {
  }

  /** A byte that is not skipped has a bit of the value sought. */
  lemma NotSkipped(b: bv8, bit: bool)
    requires b != SkipByte(bit)
    ensures exists r :: 0 <= r < 8 && TestByte(b, r) == bit
  {
    assert TestByte(b, 0) == bit || TestByte(b, 1) == bit || TestByte(b, 2) == bit || TestByte(b, 3) == bit
        || TestByte(b, 4) == bit || TestByte(b, 5) == bit || TestByte(b, 6) == bit || TestByte(b, 7) == bit;
  }

  lemma NotSkippedBit(c: seq<bv8>, j: nat, bit: bool)
    requires j < |c| && c[j] != SkipByte(bit)
    ensures exists k :: 8 * j <= k < 8 * j + 8 && Bits(c)[k] == bit
  {
    hide TestByte, SkipByte;
    NotSkipped(c[j], bit);
    var r :| 0 <= r < 8 && TestByte(c[j], r) == bit;
    assert Bits(c)[8 * j + (7 - r)] == TestByte(c[j], r);
  }

  lemma SkippedBits(s: seq<bv8>, i: nat, bit: bool, k: nat)
    requires i <= |s| && (forall j :: 0 <= j < i ==> s[j] == SkipByte(bit)) && k < 8 * i
    ensures Bits(s)[k] == !bit
  {
    hide TestByte, SkipByte;
    SkipBits(bit, 7 - k % 8);
  }

  // ---------- the search ----------

  /** The word at a byte position, in either byte order. */
  function NativeWord(s: seq<bv8>, i: nat, bigEndian: bool): bv64
    requires i + 8 <= |s|
  {
    if bigEndian then Assemble([s[i], s[i + 1], s[i + 2], s[i + 3], s[i + 4], s[i + 5], s[i + 6], s[i + 7]])
    else Assemble([s[i + 7], s[i + 6], s[i + 5], s[i + 4], s[i + 3], s[i + 2], s[i + 1], s[i]])
  }

  ghost predicate AllSkipped(s: seq<bv8>, i: nat, n: nat, bit: bool)
    requires i + n <= |s|
  {
    forall j :: i <= j < i + n ==> s[j] == SkipByte(bit)
  }

  lemma NativeSkips(s: seq<bv8>, i: nat, bigEndian: bool, bit: bool)
    requires i + 8 <= |s|
    ensures NativeWord(s, i, bigEndian) == SkipWord(bit) <==> AllSkipped(s, i, 8, bit)
  {
    hide Assemble, SkipByte, SkipWord;
    SkipAssembled(bit);
    var c: seq<bv8> := if bigEndian then [s[i], s[i + 1], s[i + 2], s[i + 3], s[i + 4], s[i + 5], s[i + 6], s[i + 7]]
             else [s[i + 7], s[i + 6], s[i + 5], s[i + 4], s[i + 3], s[i + 2], s[i + 1], s[i]];
    if NativeWord(s, i, bigEndian) == SkipWord(bit) {
      SameWord(c, SkipBytes(bit));
      assert forall j :: 0 <= j < 8 ==> c[j] == SkipByte(bit);
      assert s[i] == s[i + 1] == s[i + 2] == s[i + 3] == s[i + 4] == s[i + 5] == s[i + 6] == s[i + 7] == SkipByte(bit);
    }
    if AllSkipped(s, i, 8, bit) {
      assert c == SkipBytes(bit);
    }
  }

  /** Eight bytes from i on, padded with zeros. */
  function Window(s: seq<bv8>, i: nat): (c: seq<bv8>)
    ensures |c| == 8
  {
    seq(8, j requires 0 <= j < 8 => if i + j < |s| then s[i + j] else 0)
  }

  lemma WindowBits(s: seq<bv8>, i: nat, k: nat)
    requires k < 64
    ensures Bits(Window(s, i))[k] == (8 * i + k < 8 * |s| && Bits(s)[8 * i + k])
  {
    hide TestByte;
    ZeroBit(7 - k % 8);
    assert (8 * i + k) / 8 == i + k / 8 && (8 * i + k) % 8 == k % 8;
    assert Window(s, i)[k / 8] == if i + k / 8 < |s| then s[i + k / 8] else 0;
  }

  lemma ZeroBit(r: nat)
    requires r < 8
    ensures !TestByte(0, r)
  {
  }

  /** pos is the first position of the bit; with none, it is the length for a zero bit and -1 for a one. */
  ghost predicate IsFirst(b: seq<bool>, bit: bool, pos: int) {
    if pos == -1 then bit && forall k :: 0 <= k < |b| ==> !b[k]
    else
      && 0 <= pos <= |b|
      && (forall k :: 0 <= k < pos ==> b[k] == !bit)
      && (if pos < |b| then b[pos] == bit else !bit)
  }

  /** Either fewer than eight bytes are left, or one of the next eight is not skipped. */
  ghost predicate StopsAt(s: seq<bv8>, i: nat, bit: bool) {
    i <= |s| && AllSkipped(s, 0, i, bit) && (|s| - i < 8 || !AllSkipped(s, i, 8, bit))
  }

  lemma ZeroWord(c: seq<bv8>)
    requires |c| == 8
    ensures Assemble(c) == 0 <==> forall k :: 0 <= k < 64 ==> !Bits(c)[k]
  {
    hide Bits, Assemble, SkipByte;
    assert SkipWord(true) == 0;
    SkipAssembled(true);
    if Assemble(c) == 0 {
      forall k | 0 <= k < 64 ensures !Bits(c)[k] {
        WordBit(c, k);
        NothingHits(Probe(k));
      }
    }
    if forall k :: 0 <= k < 64 ==> !Bits(c)[k] {
      forall j | 0 <= j < 8 ensures c[j] == SkipByte(true) {
        if c[j] != SkipByte(true) {
          NotSkippedBit(c, j, true);
        }
      }
      assert c == SkipBytes(true);
    }
  }

  lemma NothingHits(one: bv64)
    ensures !Hits(one, 0)
  {
  }

  /** The word that ends the skipping holds what is sought, unless there is none. */
  lemma WindowHit(s: seq<bv8>, i: nat, bit: bool)
    requires StopsAt(s, i, bit) && (bit ==> Assemble(Window(s, i)) != 0)
    ensures exists k :: 0 <= k < 64 && Bits(Window(s, i))[k] == bit
  {
    hide Bits, Assemble, SkipByte;
    var c := Window(s, i);
    if bit {
      ZeroWord(c);
    } else if |s| - i < 8 {
      assert c[7] == 0 && SkipByte(false) == 0xFF by { PaddedByte(s, i); }
      NotSkippedBit(c, 7, false);
    } else {
      var j :| i <= j < i + 8 && s[j] != SkipByte(false);
      assert c[j - i] == s[j];
      NotSkippedBit(c, j - i, false);
    }
  }

  lemma PaddedByte(s: seq<bv8>, i: nat)
    requires i <= |s| && |s| - i < 8
    ensures Window(s, i)[7] == 0 && SkipByte(false) == 0xFF
  {
  }

  lemma NoOnes(s: seq<bv8>, i: nat)
    requires StopsAt(s, i, true) && Assemble(Window(s, i)) == 0
    ensures forall k :: 0 <= k < 8 * |s| ==> !Bits(s)[k]
  {
    hide Bits, Assemble, SkipByte;
    ZeroWord(Window(s, i));
    if |s| - i >= 8 {
      var j :| i <= j < i + 8 && s[j] != SkipByte(true);
      assert Window(s, i)[j - i] == s[j];
      NotSkippedBit(Window(s, i), j - i, true);
    }
    forall k | 0 <= k < 8 * |s| ensures !Bits(s)[k] {
      if k < 8 * i {
        SkippedBits(s, i, true, k);
      } else {
        WindowBits(s, i, k - 8 * i);
      }
    }
  }

  lemma ProbeNonzero(k: nat)
    requires k < 64
    ensures Probe(k) != 0
  {
    hide Assemble, Probe, TestByte, SkipByte;
    var c := SkipBytes(false);
    WordBit(c, k);
    SkipBits(false, 7 - k % 8);
    assert c[k / 8] == SkipByte(false);
  }

  lemma FoundFirst(s: seq<bv8>, i: nat, bit: bool, k: nat)
    requires StopsAt(s, i, bit) && k < 64
    requires (forall j :: 0 <= j < k ==> Bits(Window(s, i))[j] == !bit) && Bits(Window(s, i))[k] == bit
    ensures IsFirst(Bits(s), bit, 8 * i + k)
  {
    hide Bits, SkipByte;
    var pos := 8 * i + k;
    WindowBits(s, i, k);
    if !bit && pos > 8 * |s| {
      WindowBits(s, i, 8 * |s| - 8 * i);
    }
    forall j | 0 <= j < pos && j < 8 * |s| ensures Bits(s)[j] == !bit {
      if j < 8 * i {
        SkippedBits(s, i, bit, j);
      } else {
        WindowBits(s, i, j - 8 * i);
      }
    }
  }

  /** The scan of the last word, from its highest bit down. */
  method ScanWord(s: seq<bv8>, i: nat, word: bv64, bit: bool) returns (pos: int)
    requires StopsAt(s, i, bit) && word == Assemble(Window(s, i)) && (bit ==> word != 0)
    ensures IsFirst(Bits(s), bit, pos)
  {
    hide Bits, Assemble, Window, StopsAt, IsFirst, Probe;
    WindowHit(s, i, bit);
    ghost var hit :| 0 <= hit < 64 && Bits(Window(s, i))[hit] == bit;
    var one := HIGHEST;
    pos := 8 * i;
    ghost var k := 0;
    ProbeStep(0);
    while one != 0
      invariant pos == 8 * i + k && one == Probe(k) && k <= hit
      invariant forall j :: 0 <= j < k ==> Bits(Window(s, i))[j] == !bit
      decreases 64 - k
    {
      WordBit(Window(s, i), k);
      if Hits(one, word) == bit {
        FoundFirst(s, i, bit, k);
        return;
      }
      pos := pos + 1;
      ProbeStep(k);
      one := Down(one);
      k := k + 1;
    }
    ProbeNonzero(k);
    assert false;
  }

  lemma ProbeStep(k: nat)
    ensures Probe(0) == HIGHEST && Probe(k + 1) == Down(Probe(k))
  {
  }

  /** `redisBitpos` of the string at some address. */
  method RedisBitpos(s: seq<bv8>, address: nat, bigEndian: bool, bit: bool) returns (pos: int)
    ensures pos == -1 <==> bit && forall k :: 0 <= k < 8 * |s| ==> !Bits(s)[k]
    ensures pos != -1 ==> 0 <= pos <= 8 * |s| && forall k :: 0 <= k < pos ==> Bits(s)[k] != bit
    ensures pos != -1 ==> if pos < 8 * |s| then Bits(s)[pos] == bit else !bit
  {
    hide Bits, IsFirst;
    pos := FindBit(s, address, bigEndian, bit);
    FirstMeans(Bits(s), bit, pos);
  }

  lemma FirstMeans(b: seq<bool>, bit: bool, pos: int)
    requires IsFirst(b, bit, pos)
    ensures pos == -1 <==> bit && forall k :: 0 <= k < |b| ==> !b[k]
    ensures pos != -1 ==> 0 <= pos <= |b| && forall k :: 0 <= k < pos ==> b[k] != bit
    ensures pos != -1 ==> if pos < |b| then b[pos] == bit else !bit
  {
  }

  method FindBit(s: seq<bv8>, address: nat, bigEndian: bool, bit: bool) returns (pos: int)
    ensures IsFirst(Bits(s), bit, pos)
  {
    hide Bits, Assemble, NativeWord, SkipByte, SkipWord, Push, IsFirst;
    var i, found := 0, false;
    while (address + i) % 8 != 0 && i < |s|
      invariant i <= |s| && AllSkipped(s, 0, i, bit)
      decreases |s| - i
    {
      if s[i] != SkipByte(bit) {
        found := true;
        break;
      }
      i := i + 1;
    }
    if !found {
      while |s| - i >= 8
        invariant i <= |s| && AllSkipped(s, 0, i, bit)
      {
        NativeSkips(s, i, bigEndian, bit);
        if NativeWord(s, i, bigEndian) != SkipWord(bit) {
          break;
        }
        i := i + 8;
      }
    }
    assert StopsAt(s, i, bit);
    var word: bv64 := 0;
    for j := 0 to 8
      invariant word == Pushed(Window(s, i), j)
    {
      word := Push(word, if i + j < |s| then s[i + j] else 0);
    }
    PushedAll(Window(s, i));
    if bit && word == 0 {
      NoOnes(s, i);
      NoneIsFirst(s);
      return -1;
    }
    pos := ScanWord(s, i, word, bit);
  }

  lemma NoneIsFirst(s: seq<bv8>)
    requires forall k :: 0 <= k < 8 * |s| ==> !Bits(s)[k]
    ensures IsFirst(Bits(s), true, -1)
  {
  }
}
