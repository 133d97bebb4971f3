/**
 A 16-bit word and its 14 lowest bits as numbers: masking is a remainder, and the binary digits of the
 result are coefficients of the polynomial.
 */
module SlotNumbers {
  import opened Crc16
  import BitStrings

  function LowByte(c: bv16): bv8 {
    (c & 0xFF) as bv8
  }

  function HighByte(c: bv16): bv8 {
    (c >> 8) as bv8
  }

  function Low14(c: bv16): nat {
    (c & 0x3FFF) as nat
  }

  function One(b: bool): nat {
    if b then 1 else 0
  }

  /** The bit that a mask of one bit selects, as a number. */
  function BitOf(c: bv16, mask: bv16): nat {
    One(c & mask != 0)
  }

  function ByteBit(x: bv8, mask: bv8): nat {
    One(x & mask != 0)
  }

  // ---------- bytes ----------

  lemma ByteDigits(x: bv8)
    ensures x as nat ==
      128 * ByteBit(x, 128) + 64 * ByteBit(x, 64) + 32 * ByteBit(x, 32) + 16 * ByteBit(x, 16) +
      8 * ByteBit(x, 8) + 4 * ByteBit(x, 4) + 2 * ByteBit(x, 2) + ByteBit(x, 1)
  {
  }

  lemma JoinedBytes(low: bv8, high: bv8)
    ensures (((high as bv16) << 8) | (low as bv16)) as nat == low as nat + 256 * (high as nat)
  {
  }

  lemma SplitWord(c: bv16)
    ensures c == ((HighByte(c) as bv16) << 8) | (LowByte(c) as bv16)
    ensures c & 0x3FFF == (((HighByte(c) & 0x3F) as bv16) << 8) | (LowByte(c) as bv16)
  {
  }

  lemma LowSix(x: bv8)
    ensures (x & 0x3F) as nat == x as nat % 64
  {
  }

  lemma WordNumber(c: bv16)
    ensures c as nat == LowByte(c) as nat + 256 * (HighByte(c) as nat)
    ensures Low14(c) == LowByte(c) as nat + 256 * ((HighByte(c) & 0x3F) as nat)
  {
    SplitWord(c);
    hide LowByte, HighByte;
    JoinedBytes(LowByte(c), HighByte(c));
    JoinedBytes(LowByte(c), HighByte(c) & 0x3F);
  }

  /** The mask takes the remainder modulo the number of slots. */
  lemma Low14IsModulo(c: bv16)
    ensures Low14(c) == c as nat % 16384
  {
    hide Low14, LowByte, HighByte;
    WordNumber(c);
    LowSix(HighByte(c));
    Modulo(LowByte(c) as nat, HighByte(c) as nat);
  }

  lemma Modulo(low: nat, high: nat)
    requires low < 256
    ensures (low + 256 * high) % 16384 == low + 256 * (high % 64)
  {
  }

  lemma HighBits(c: bv16)
    ensures ByteBit(HighByte(c) & 0x3F, 128) == 0 && ByteBit(HighByte(c) & 0x3F, 64) == 0
    ensures ByteBit(HighByte(c) & 0x3F, 32) == BitOf(c, 0x2000) && ByteBit(HighByte(c) & 0x3F, 16) == BitOf(c, 0x1000)
    ensures ByteBit(HighByte(c) & 0x3F, 8) == BitOf(c, 0x800) && ByteBit(HighByte(c) & 0x3F, 4) == BitOf(c, 0x400)
    ensures ByteBit(HighByte(c) & 0x3F, 2) == BitOf(c, 0x200) && ByteBit(HighByte(c) & 0x3F, 1) == BitOf(c, 0x100)
  {
  }

  lemma LowBits(c: bv16)
    ensures ByteBit(LowByte(c), 128) == BitOf(c, 0x80) && ByteBit(LowByte(c), 64) == BitOf(c, 0x40)
    ensures ByteBit(LowByte(c), 32) == BitOf(c, 0x20) && ByteBit(LowByte(c), 16) == BitOf(c, 0x10)
    ensures ByteBit(LowByte(c), 8) == BitOf(c, 8) && ByteBit(LowByte(c), 4) == BitOf(c, 4)
    ensures ByteBit(LowByte(c), 2) == BitOf(c, 2) && ByteBit(LowByte(c), 1) == BitOf(c, 1)
  {
  }

  // ---------- coefficients ----------

  lemma TopBit(c: bv16)
    ensures One(Top(c)) == BitOf(c, 0x8000)
  {
  }

  lemma TwiceBit(c: bv16, mask: bv16)
    requires mask & 0x8000 == 0
    ensures BitOf(Twice(c), mask << 1) == BitOf(c, mask)
  {
  }

  lemma NibbleBit(c: bv16, mask: bv16)
    requires mask & 0xF000 == 0
    ensures BitOf(Nibble(c), mask << 4) == BitOf(c, mask)
  {
  }

  lemma UpBit(c: bv16, mask: bv16)
    requires mask & 0xFF00 == 0
    ensures BitOf(Up(c), mask << 8) == BitOf(c, mask)
  {
  }

  lemma FourBits(c: bv16)
    ensures One(Bits(c, 4)[0]) == BitOf(c, 0x8000) && One(Bits(c, 4)[1]) == BitOf(c, 0x4000)
    ensures One(Bits(c, 4)[2]) == BitOf(c, 0x2000) && One(Bits(c, 4)[3]) == BitOf(c, 0x1000)
  {
    hide Bits, Top, Twice, BitOf, One;
    Bits4(c);
    TopBit(c);
    TopBit(Twice(c));
    TopBit(Twice(Twice(c)));
    TopBit(Twice(Twice(Twice(c))));
    TwiceBit(c, 0x4000);
    TwiceBit(c, 0x2000);
    TwiceBit(c, 0x1000);
    TwiceBit(Twice(c), 0x4000);
    TwiceBit(Twice(c), 0x2000);
    TwiceBit(Twice(Twice(c)), 0x4000);
  }

  lemma SecondFour(c: bv16)
    ensures One(Bits(Nibble(c), 4)[0]) == BitOf(c, 0x800) && One(Bits(Nibble(c), 4)[1]) == BitOf(c, 0x400)
    ensures One(Bits(Nibble(c), 4)[2]) == BitOf(c, 0x200) && One(Bits(Nibble(c), 4)[3]) == BitOf(c, 0x100)
  {
    hide Bits, Nibble, BitOf, One;
    FourBits(Nibble(c));
    NibbleBit(c, 0x800);
    NibbleBit(c, 0x400);
    NibbleBit(c, 0x200);
    NibbleBit(c, 0x100);
  }

  lemma LastEight(c: bv16)
    ensures One(Bits(Up(c), 4)[0]) == BitOf(c, 0x80) && One(Bits(Up(c), 4)[1]) == BitOf(c, 0x40)
    ensures One(Bits(Up(c), 4)[2]) == BitOf(c, 0x20) && One(Bits(Up(c), 4)[3]) == BitOf(c, 0x10)
    ensures One(Bits(Nibble(Up(c)), 4)[0]) == BitOf(c, 8) && One(Bits(Nibble(Up(c)), 4)[1]) == BitOf(c, 4)
    ensures One(Bits(Nibble(Up(c)), 4)[2]) == BitOf(c, 2) && One(Bits(Nibble(Up(c)), 4)[3]) == BitOf(c, 1)
  {
    hide Bits, Nibble, Up, BitOf, One;
    FourBits(Up(c));
    SecondFour(Up(c));
    UpBit(c, 0x80);
    UpBit(c, 0x40);
    UpBit(c, 0x20);
    UpBit(c, 0x10);
    UpBit(c, 8);
    UpBit(c, 4);
    UpBit(c, 2);
    UpBit(c, 1);
  }

  lemma Quarters(c: bv16)
    ensures Bits(c, 16)[2..] == [Bits(c, 4)[2], Bits(c, 4)[3]] + Bits(Nibble(c), 4) + Bits(Up(c), 4) + Bits(Nibble(Up(c)), 4)
  {
    hide Bits, Shl, Nibble, Up;
    BitsSplit(c, 8, 8);
    BitsSplit(c, 4, 4);
    ShlByte(c);
    ShlNibble(c);
    BitsSplit(Up(c), 4, 4);
    ShlNibble(Up(c));
  }

  // ---------- numbers ----------

  lemma NumberSnoc(a: seq<bool>, x: bool)
    ensures BitStrings.FromBits(a + [x]) == 2 * BitStrings.FromBits(a) + One(x)
  {
    assert (a + [x])[..|a|] == a;
  }

  lemma NumberTwo(a: seq<bool>, x: bool, y: bool)
    ensures BitStrings.FromBits(a + [x, y]) == 4 * BitStrings.FromBits(a) + 2 * One(x) + One(y)
  {
    hide BitStrings.FromBits, One;
    NumberSnoc(a, x);
    NumberSnoc(a + [x], y);
    assert a + [x] + [y] == a + [x, y];
  }

  lemma NumberFour(a: seq<bool>, b: seq<bool>)
    requires |b| == 4
    ensures BitStrings.FromBits(a + b) == 16 * BitStrings.FromBits(a) + 8 * One(b[0]) + 4 * One(b[1]) + 2 * One(b[2]) + One(b[3])
  {
    hide BitStrings.FromBits, One;
    NumberTwo(a, b[0], b[1]);
    NumberTwo(a + [b[0], b[1]], b[2], b[3]);
    assert a + [b[0], b[1]] + [b[2], b[3]] == a + b;
  }

  lemma NumberFourteen(x: bool, y: bool, a: seq<bool>, b: seq<bool>, c: seq<bool>)
    requires |a| == |b| == |c| == 4
    ensures BitStrings.FromBits([x, y] + a + b + c) ==
      8192 * One(x) + 4096 * One(y) + 2048 * One(a[0]) + 1024 * One(a[1]) + 512 * One(a[2]) + 256 * One(a[3]) +
      128 * One(b[0]) + 64 * One(b[1]) + 32 * One(b[2]) + 16 * One(b[3]) + 8 * One(c[0]) + 4 * One(c[1]) + 2 * One(c[2]) + One(c[3])
  {
    assert BitStrings.FromBits([]) == 0;
    hide BitStrings.FromBits, One;
    var none: seq<bool> := [];
    assert none + [x, y] == [x, y];
    NumberTwo(none, x, y);
    NumberFour([x, y], a);
    NumberFour([x, y] + a, b);
    NumberFour([x, y] + a + b, c);
  }

  function Sum14(c: bv16): nat {
    8192 * BitOf(c, 0x2000) + 4096 * BitOf(c, 0x1000) +
    2048 * BitOf(c, 0x800) + 1024 * BitOf(c, 0x400) + 512 * BitOf(c, 0x200) + 256 * BitOf(c, 0x100) +
    128 * BitOf(c, 0x80) + 64 * BitOf(c, 0x40) + 32 * BitOf(c, 0x20) + 16 * BitOf(c, 0x10) +
    8 * BitOf(c, 8) + 4 * BitOf(c, 4) + 2 * BitOf(c, 2) + BitOf(c, 1)
  }

  lemma Low14IsSum(c: bv16)
    ensures Low14(c) == Sum14(c)
  {
    hide Low14, LowByte, HighByte, BitOf, ByteBit;
    WordNumber(c);
    ByteDigits(HighByte(c) & 0x3F);
    ByteDigits(LowByte(c));
    HighBits(c);
    LowBits(c);
  }

  lemma DigitsAreSum(p: seq<bool>, q: seq<bool>, r: seq<bool>, t: seq<bool>, c: bv16)
    requires |p| == |q| == |r| == |t| == 4
    requires One(p[2]) == BitOf(c, 0x2000) && One(p[3]) == BitOf(c, 0x1000)
    requires One(q[0]) == BitOf(c, 0x800) && One(q[1]) == BitOf(c, 0x400) && One(q[2]) == BitOf(c, 0x200) && One(q[3]) == BitOf(c, 0x100)
    requires One(r[0]) == BitOf(c, 0x80) && One(r[1]) == BitOf(c, 0x40) && One(r[2]) == BitOf(c, 0x20) && One(r[3]) == BitOf(c, 0x10)
    requires One(t[0]) == BitOf(c, 8) && One(t[1]) == BitOf(c, 4) && One(t[2]) == BitOf(c, 2) && One(t[3]) == BitOf(c, 1)
    ensures BitStrings.FromBits([p[2], p[3]] + q + r + t) == Sum14(c)
  {
    hide BitOf, One, BitStrings.FromBits;
    NumberFourteen(p[2], p[3], q, r, t);
  }

  lemma CoefficientsAreSum(c: bv16)
    ensures BitStrings.FromBits(Bits(c, 16)[2..]) == Sum14(c)
  {
    hide BitOf, One, Bits, Nibble, Up, BitStrings.FromBits, Sum14;
    Quarters(c);
    FourBits(c);
    SecondFour(c);
    LastEight(c);
    DigitsAreSum(Bits(c, 4), Bits(Nibble(c), 4), Bits(Up(c), 4), Bits(Nibble(Up(c)), 4), c);
  }

  /** The 14 lowest coefficients, highest first, are the binary digits of the low 14 bits. */
  lemma Low14IsNumber(c: bv16)
    ensures Low14(c) == BitStrings.FromBits(Bits(c, 16)[2..])
  {
    hide Low14, Sum14, Bits;
    Low14IsSum(c);
    CoefficientsAreSum(c);
  }
}
