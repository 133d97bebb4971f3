/**
 The 16-bit cyclic redundancy check CRC-16/XMODEM: the table-driven loop computes the remainder of
 polynomial division by x^16 + x^12 + x^5 + 1.
 */
module Crc16 {
  import opened Polynomials

  // ---------- words as polynomials ----------

  /** The top n bits of a word, highest first: the coefficients of a polynomial. */
  function Bits(c: bv16, n: nat): (p: Poly)
    ensures |p| == n
    decreases n
  {
    if n == 0 then [] else [Top(c)] + Bits(Twice(c), n - 1)
  }

  predicate Top(c: bv16) {
    c & 0x8000 != 0
  }

  function Twice(c: bv16): bv16 {
    c << 1
  }

  function Xor(a: bv16, b: bv16): bv16 {
    a ^ b
  }

  lemma TopXor(a: bv16, b: bv16)
    ensures Top(Xor(a, b)) == (Top(a) != Top(b))
  {
  }

  lemma TwiceXor(a: bv16, b: bv16)
    ensures Twice(Xor(a, b)) == Xor(Twice(a), Twice(b))
  {
  }

  lemma {:induction false} BitsXor(a: bv16, b: bv16, n: nat)
    ensures Bits(Xor(a, b), n) == AddTop(Bits(a, n), Bits(b, n))
    decreases n
  {
    hide Top, Twice, Xor;
    if n > 0 {
      TopXor(a, b);
      TwiceXor(a, b);
      BitsXor(Twice(a), Twice(b), n - 1);
    }
  }

  lemma {:induction false} BitsZero(n: nat)
    ensures Bits(0, n) == Zeros(n)
  {
    if n > 0 {
      BitsZero(n - 1);
    }
  }

  /** n doublings. */
  function Shl(c: bv16, n: nat): bv16
    decreases n
  {
    if n == 0 then c else Shl(Twice(c), n - 1)
  }

  lemma {:induction false} BitsSplit(c: bv16, n: nat, m: nat)
    ensures Bits(c, n + m) == Bits(c, n) + Bits(Shl(c, n), m)
    decreases n
  {
    hide Top, Twice;
    if n > 0 {
      BitsSplit(Twice(c), n - 1, m);
    }
  }

  lemma {:induction false} ShlAdd(c: bv16, n: nat, m: nat)
    ensures Shl(c, n + m) == Shl(Shl(c, n), m)
    decreases n
  {
    hide Twice;
    if n > 0 {
      ShlAdd(Twice(c), n - 1, m);
    }
  }

  function Up(c: bv16): bv16 {
    c << 8
  }

  function Nibble(c: bv16): bv16 {
    c << 4
  }

  lemma ShlNibble(c: bv16)
    ensures Shl(c, 4) == Nibble(c)
  {
    assert Nibble(c) == Twice(Twice(Twice(Twice(c))));
    hide Twice, Nibble;
    assert Shl(c, 4) == Shl(Twice(Twice(c)), 2);
  }

  lemma ShlByte(c: bv16)
    ensures Shl(c, 8) == Up(c)
  {
    assert Up(c) == Nibble(Nibble(c));
    hide Shl, Nibble, Up;
    ShlNibble(c);
    ShlNibble(Nibble(c));
    ShlAdd(c, 4, 4);
  }

  lemma NothingLeft(c: bv16)
    ensures Shl(c, 16) == 0
  {
    assert Up(Up(c)) == 0;
    hide Shl, Up;
    ShlByte(c);
    ShlByte(Up(c));
    ShlAdd(c, 8, 8);
  }

  // ---------- one bit, one byte ----------

  /** x^12 + x^5 + 1, the divisor below its leading coefficient. */
  const XMODEM: bv16 := 0x1021

  /** Division by one coefficient. */
  function Step(c: bv16): bv16 {
    if c & 0x8000 != 0 then (c << 1) ^ XMODEM else c << 1
  }

  function Step8(c: bv16): bv16 {
    Step(Step(Step(Step(Step(Step(Step(Step(c))))))))
  }

  function XmodemTail(): (p: Poly)
    ensures |p| == 16
  {
    Bits(XMODEM, 16)
  }

  lemma BitsTwice(c: bv16, n: nat)
    requires n > 0 && Shl(c, n) == 0
    ensures Bits(c, n)[0] == Top(c) && Bits(Twice(c), n) == Bits(c, n)[1..] + [false]
  {
    hide Top, Twice;
    assert Bits(c, n) == [Top(c)] + Bits(Twice(c), n - 1);
    assert Shl(Twice(c), n - 1) == 0;
    hide Bits, Shl;
    BitsSplit(Twice(c), n - 1, 1);
    BitsZero(1);
    assert Zeros(1) == [false];
  }

  lemma StepShifts(c: bv16)
    ensures Bits(Step(c), 16) == Shift(Bits(c, 16), false, XmodemTail())
  {
    assert Step(c) == if Top(c) then Xor(Twice(c), XMODEM) else Twice(c);
    hide Bits, Top, Twice, Xor, Shl, Step;
    NothingLeft(c);
    BitsTwice(c, 16);
    BitsXor(Twice(c), XMODEM, 16);
  }

  lemma StepsShift(c: bv16)
    ensures Bits(Step(Step(c)), 16) == ShiftAll(Bits(c, 16), Zeros(2), XmodemTail())
  {
    hide Bits, Step, Shift, XmodemTail;
    StepShifts(c);
    StepShifts(Step(c));
    assert Zeros(2)[1..] == Zeros(1) && Zeros(1)[1..] == Zeros(0);
  }

  lemma Step8Shifts(c: bv16)
    ensures Bits(Step8(c), 16) == ShiftAll(Bits(c, 16), Zeros(8), XmodemTail())
  {
    hide Bits, Step, Shift, XmodemTail;
    StepsShift(c);
    StepsShift(Step(Step(c)));
    StepsShift(Step(Step(Step(Step(c)))));
    StepsShift(Step(Step(Step(Step(Step(Step(c)))))));
    ShiftAllConcat(Bits(c, 16), Zeros(2), Zeros(2), XmodemTail());
    ShiftAllConcat(Bits(c, 16), Zeros(4), Zeros(2), XmodemTail());
    ShiftAllConcat(Bits(c, 16), Zeros(6), Zeros(2), XmodemTail());
    assert Zeros(2) + Zeros(2) == Zeros(4) && Zeros(4) + Zeros(2) == Zeros(6) && Zeros(6) + Zeros(2) == Zeros(8);
  }

  // ---------- the table ----------

  /** A row of `crc16tab`. */
  datatype Row = Row(
    x0: bv16, x1: bv16, x2: bv16, x3: bv16, x4: bv16, x5: bv16, x6: bv16, x7: bv16,
    x8: bv16, x9: bv16, xA: bv16, xB: bv16, xC: bv16, xD: bv16, xE: bv16, xF: bv16)

  function At(row: Row, k: nat): bv16
    requires k < 16
  {
    match k
    case 0 => row.x0 case 1 => row.x1 case 2 => row.x2 case 3 => row.x3
    case 4 => row.x4 case 5 => row.x5 case 6 => row.x6 case 7 => row.x7
    case 8 => row.x8 case 9 => row.x9 case 10 => row.xA case 11 => row.xB
    case 12 => row.xC case 13 => row.xD case 14 => row.xE case _ => row.xF
  }

  function Row0(): Row {
    Row(0x0000, 0x1021, 0x2042, 0x3063, 0x4084, 0x50a5, 0x60c6, 0x70e7,
        0x8108, 0x9129, 0xa14a, 0xb16b, 0xc18c, 0xd1ad, 0xe1ce, 0xf1ef)
  }

  function Row1(): Row {
    Row(0x1231, 0x0210, 0x3273, 0x2252, 0x52b5, 0x4294, 0x72f7, 0x62d6,
        0x9339, 0x8318, 0xb37b, 0xa35a, 0xd3bd, 0xc39c, 0xf3ff, 0xe3de)
  }

  function Row2(): Row {
    Row(0x2462, 0x3443, 0x0420, 0x1401, 0x64e6, 0x74c7, 0x44a4, 0x5485,
        0xa56a, 0xb54b, 0x8528, 0x9509, 0xe5ee, 0xf5cf, 0xc5ac, 0xd58d)
  }

  function Row3(): Row {
    Row(0x3653, 0x2672, 0x1611, 0x0630, 0x76d7, 0x66f6, 0x5695, 0x46b4,
        0xb75b, 0xa77a, 0x9719, 0x8738, 0xf7df, 0xe7fe, 0xd79d, 0xc7bc)
  }

  function Row4(): Row {
    Row(0x48c4, 0x58e5, 0x6886, 0x78a7, 0x0840, 0x1861, 0x2802, 0x3823,
        0xc9cc, 0xd9ed, 0xe98e, 0xf9af, 0x8948, 0x9969, 0xa90a, 0xb92b)
  }

  function Row5(): Row {
    Row(0x5af5, 0x4ad4, 0x7ab7, 0x6a96, 0x1a71, 0x0a50, 0x3a33, 0x2a12,
        0xdbfd, 0xcbdc, 0xfbbf, 0xeb9e, 0x9b79, 0x8b58, 0xbb3b, 0xab1a)
  }

  function Row6(): Row {
    Row(0x6ca6, 0x7c87, 0x4ce4, 0x5cc5, 0x2c22, 0x3c03, 0x0c60, 0x1c41,
        0xedae, 0xfd8f, 0xcdec, 0xddcd, 0xad2a, 0xbd0b, 0x8d68, 0x9d49)
  }

  function Row7(): Row {
    Row(0x7e97, 0x6eb6, 0x5ed5, 0x4ef4, 0x3e13, 0x2e32, 0x1e51, 0x0e70,
        0xff9f, 0xefbe, 0xdfdd, 0xcffc, 0xbf1b, 0xaf3a, 0x9f59, 0x8f78)
  }

  function Row8(): Row {
    Row(0x9188, 0x81a9, 0xb1ca, 0xa1eb, 0xd10c, 0xc12d, 0xf14e, 0xe16f,
        0x1080, 0x00a1, 0x30c2, 0x20e3, 0x5004, 0x4025, 0x7046, 0x6067)
  }

  function Row9(): Row {
    Row(0x83b9, 0x9398, 0xa3fb, 0xb3da, 0xc33d, 0xd31c, 0xe37f, 0xf35e,
        0x02b1, 0x1290, 0x22f3, 0x32d2, 0x4235, 0x5214, 0x6277, 0x7256)
  }

  function RowA(): Row {
    Row(0xb5ea, 0xa5cb, 0x95a8, 0x8589, 0xf56e, 0xe54f, 0xd52c, 0xc50d,
        0x34e2, 0x24c3, 0x14a0, 0x0481, 0x7466, 0x6447, 0x5424, 0x4405)
  }

  function RowB(): Row {
    Row(0xa7db, 0xb7fa, 0x8799, 0x97b8, 0xe75f, 0xf77e, 0xc71d, 0xd73c,
        0x26d3, 0x36f2, 0x0691, 0x16b0, 0x6657, 0x7676, 0x4615, 0x5634)
  }

  function RowC(): Row {
    Row(0xd94c, 0xc96d, 0xf90e, 0xe92f, 0x99c8, 0x89e9, 0xb98a, 0xa9ab,
        0x5844, 0x4865, 0x7806, 0x6827, 0x18c0, 0x08e1, 0x3882, 0x28a3)
  }

  function RowD(): Row {
    Row(0xcb7d, 0xdb5c, 0xeb3f, 0xfb1e, 0x8bf9, 0x9bd8, 0xabbb, 0xbb9a,
        0x4a75, 0x5a54, 0x6a37, 0x7a16, 0x0af1, 0x1ad0, 0x2ab3, 0x3a92)
  }

  function RowE(): Row {
    Row(0xfd2e, 0xed0f, 0xdd6c, 0xcd4d, 0xbdaa, 0xad8b, 0x9de8, 0x8dc9,
        0x7c26, 0x6c07, 0x5c64, 0x4c45, 0x3ca2, 0x2c83, 0x1ce0, 0x0cc1)
  }

  function RowF(): Row {
    Row(0xef1f, 0xff3e, 0xcf5d, 0xdf7c, 0xaf9b, 0xbfba, 0x8fd9, 0x9ff8,
        0x6e17, 0x7e36, 0x4e55, 0x5e74, 0x2e93, 0x3eb2, 0x0ed1, 0x1ef0)
  }

  /** `crc16tab`, in rows of sixteen: the row is the high hexadecimal digit of the index. */
  function Table(): (t: seq<Row>)
    ensures |t| == 16
  {
    [Row0(), Row1(), Row2(), Row3(), Row4(), Row5(), Row6(), Row7(),
     Row8(), Row9(), RowA(), RowB(), RowC(), RowD(), RowE(), RowF()]
  }

  function Entry(b: bv8): bv16 {
    At(Table()[(b >> 4) as nat], (b & 15) as nat)
  }

  /** A row is the sum of its first entry and the first row. */
  ghost predicate Regular(row: Row) {
    && row.x0 == Xor(row.x0, Row0().x0) && row.x1 == Xor(row.x0, Row0().x1)
    && row.x2 == Xor(row.x0, Row0().x2) && row.x3 == Xor(row.x0, Row0().x3)
    && row.x4 == Xor(row.x0, Row0().x4) && row.x5 == Xor(row.x0, Row0().x5)
    && row.x6 == Xor(row.x0, Row0().x6) && row.x7 == Xor(row.x0, Row0().x7)
    && row.x8 == Xor(row.x0, Row0().x8) && row.x9 == Xor(row.x0, Row0().x9)
    && row.xA == Xor(row.x0, Row0().xA) && row.xB == Xor(row.x0, Row0().xB)
    && row.xC == Xor(row.x0, Row0().xC) && row.xD == Xor(row.x0, Row0().xD)
    && row.xE == Xor(row.x0, Row0().xE) && row.xF == Xor(row.x0, Row0().xF)
  }

  lemma RegularAt(row: Row, k: nat)
    requires Regular(row) && k < 16
    ensures At(row, k) == Xor(row.x0, At(Row0(), k))
  {
    hide Row0, Xor;
    match k
    case 0 => case 1 => case 2 => case 3 =>
    case 4 => case 5 => case 6 => case 7 =>
    case 8 => case 9 => case 10 => case 11 =>
    case 12 => case 13 => case 14 => case _ =>
  }

  lemma RowsRegular(h: nat)
    requires h < 16
    ensures Regular(Table()[h])
  {
    hide Regular, At, Row0, Row1, Row2, Row3, Row4, Row5, Row6, Row7, Row8, Row9, RowA, RowB, RowC, RowD, RowE, RowF;
    Regular0();
    Regular1();
    Regular2();
    Regular3();
    Regular4();
    Regular5();
    Regular6();
    Regular7();
    Regular8();
    Regular9();
    RegularA();
    RegularB();
    RegularC();
    RegularD();
    RegularE();
    RegularF();
  }

  lemma Regular0()
    ensures Regular(Row0())
  {
  }

  lemma Regular1()
    ensures Regular(Row1())
  {
  }

  lemma Regular2()
    ensures Regular(Row2())
  {
  }

  lemma Regular3()
    ensures Regular(Row3())
  {
  }

  lemma Regular4()
    ensures Regular(Row4())
  {
  }

  lemma Regular5()
    ensures Regular(Row5())
  {
  }

  lemma Regular6()
    ensures Regular(Row6())
  {
  }

  lemma Regular7()
    ensures Regular(Row7())
  {
  }

  lemma Regular8()
    ensures Regular(Row8())
  {
  }

  lemma Regular9()
    ensures Regular(Row9())
  {
  }

  lemma RegularA()
    ensures Regular(RowA())
  {
  }

  lemma RegularB()
    ensures Regular(RowB())
  {
  }

  lemma RegularC()
    ensures Regular(RowC())
  {
  }

  lemma RegularD()
    ensures Regular(RowD())
  {
  }

  lemma RegularE()
    ensures Regular(RowE())
  {
  }

  lemma RegularF()
    ensures Regular(RowF())
  {
  }

  lemma LowDigits()
    ensures Step8(0x000) == 0x0000 && Step8(0x100) == 0x1021 && Step8(0x200) == 0x2042 && Step8(0x300) == 0x3063
    && Step8(0x400) == 0x4084 && Step8(0x500) == 0x50a5 && Step8(0x600) == 0x60c6 && Step8(0x700) == 0x70e7
    && Step8(0x800) == 0x8108 && Step8(0x900) == 0x9129 && Step8(0xa00) == 0xa14a && Step8(0xb00) == 0xb16b
    && Step8(0xc00) == 0xc18c && Step8(0xd00) == 0xd1ad && Step8(0xe00) == 0xe1ce && Step8(0xf00) == 0xf1ef
   
  {
  }

  /** A byte at the top of a word. */
  function Wide(b: bv8): bv16 {
    (b as bv16) << 8
  }

  function High(b: bv8): bv16 {
    Wide(b >> 4) << 4
  }

  function Low(b: bv8): bv16 {
    Wide(b & 15)
  }

  lemma FirstRow(k: bv8)
    requires k < 16
    ensures At(Row0(), k as nat) == Step8(Wide(k))
  {
    hide Step8;
    LowDigits();
    match k as nat
    case 0 => case 1 => case 2 => case 3 =>
    case 4 => case 5 => case 6 => case 7 =>
    case 8 => case 9 => case 10 => case 11 =>
    case 12 => case 13 => case 14 => case _ =>
  }

  lemma HighDigits()
    ensures Step8(0x0000) == 0x0000 && Step8(0x1000) == 0x1231 && Step8(0x2000) == 0x2462 && Step8(0x3000) == 0x3653
    && Step8(0x4000) == 0x48c4 && Step8(0x5000) == 0x5af5 && Step8(0x6000) == 0x6ca6 && Step8(0x7000) == 0x7e97
    && Step8(0x8000) == 0x9188 && Step8(0x9000) == 0x83b9 && Step8(0xa000) == 0xb5ea && Step8(0xb000) == 0xa7db
    && Step8(0xc000) == 0xd94c && Step8(0xd000) == 0xcb7d && Step8(0xe000) == 0xfd2e && Step8(0xf000) == 0xef1f
   
  {
  }

  /** The first column of the table. */
  function Start(h: nat): bv16
    requires h < 16
  {
    match h
    case 0 => 0x0000 case 1 => 0x1231 case 2 => 0x2462 case 3 => 0x3653
    case 4 => 0x48c4 case 5 => 0x5af5 case 6 => 0x6ca6 case 7 => 0x7e97
    case 8 => 0x9188 case 9 => 0x83b9 case 10 => 0xb5ea case 11 => 0xa7db
    case 12 => 0xd94c case 13 => 0xcb7d case 14 => 0xfd2e case _ => 0xef1f
  }

  lemma TableStarts(h: nat)
    requires h < 16
    ensures Table()[h].x0 == Start(h)
  {
    match h
    case 0 => case 1 => case 2 => case 3 =>
    case 4 => case 5 => case 6 => case 7 =>
    case 8 => case 9 => case 10 => case 11 =>
    case 12 => case 13 => case 14 => case _ =>
  }

  lemma StartSteps(h: bv8)
    requires h < 16
    ensures Start(h as nat) == Step8(Wide(h) << 4)
  {
    hide Step8;
    HighDigits();
    match h as nat
    case 0 => case 1 => case 2 => case 3 =>
    case 4 => case 5 => case 6 => case 7 =>
    case 8 => case 9 => case 10 => case 11 =>
    case 12 => case 13 => case 14 => case _ =>
  }

  lemma FirstColumn(h: bv8)
    requires h < 16
    ensures Table()[h as nat].x0 == Step8(Wide(h) << 4)
  {
    hide Step8, Start, Table, Wide;
    TableStarts(h as nat);
    StartSteps(h);
  }

  lemma Digits(b: bv8)
    ensures b >> 4 < 16 && b & 15 < 16 && Wide(b) == Xor(High(b), Low(b))
  {
  }

  lemma EntryIsSum(b: bv8)
    ensures Entry(b) == Xor(Step8(High(b)), Step8(Low(b)))
  {
    Digits(b);
    var h, k := b >> 4, b & 15;
    hide Row0, At, Table, Step8, Wide, Xor, Regular;
    FirstRow(k);
    FirstColumn(h);
    RowsRegular(h as nat);
    RegularAt(Table()[h as nat], k as nat);
  }

  /** Every entry of the table is the division of its index by eight coefficients. */
  lemma EntryDivides(b: bv8)
    ensures Bits(Entry(b), 16) == ShiftAll(Bits(Wide(b), 16), Zeros(8), XmodemTail())
  {
    hide *;
    Digits(b);
    EntryIsSum(b);
    BitsXor(Step8(High(b)), Step8(Low(b)), 16);
    Step8Shifts(High(b));
    Step8Shifts(Low(b));
    ShiftAllSum(Bits(High(b), 16), Bits(Low(b), 16), 8, XmodemTail());
    BitsXor(High(b), Low(b), 16);
  }

  // ---------- the loop ----------

  /** The index into the table. */
  function Index(crc: bv16, b: bv8): bv8 {
    ((crc >> 8) as bv8) ^ b
  }

  function Update(crc: bv16, b: bv8): bv16 {
    Xor(Up(crc), Entry(Index(crc, b)))
  }

  /** The bits of a byte, highest first. */
  function ByteBits(b: bv8): (p: Poly)
    ensures |p| == 8
  {
    Bits(Wide(b), 8)
  }

  lemma Bits4(c: bv16)
    ensures Bits(c, 4) == [Top(c), Top(Twice(c)), Top(Twice(Twice(c))), Top(Twice(Twice(Twice(c))))]
  {
    hide Top, Twice;
    assert Bits(c, 4) == [Top(c), Top(Twice(c))] + Bits(Twice(Twice(c)), 2);
  }

  lemma HighNibble(c: bv16, d: bv16)
    requires c & 0xF000 == d & 0xF000
    ensures Bits(c, 4) == Bits(d, 4)
  {
    assert Top(c) == Top(d) && Top(Twice(c)) == Top(Twice(d));
    assert Top(Twice(Twice(c))) == Top(Twice(Twice(d))) && Top(Twice(Twice(Twice(c)))) == Top(Twice(Twice(Twice(d))));
    hide Top, Twice, Bits;
    Bits4(c);
    Bits4(d);
  }

  lemma MaskedByte(c: bv16)
    ensures (c & 0xFF00) & 0xF000 == c & 0xF000 && Nibble(c & 0xFF00) & 0xF000 == Nibble(c) & 0xF000
  {
  }

  lemma HighByte(c: bv16)
    ensures Bits(c & 0xFF00, 8) == Bits(c, 8)
  {
    hide Bits, Shl, Nibble;
    var d := c & 0xFF00;
    BitsSplit(c, 4, 4);
    BitsSplit(d, 4, 4);
    ShlNibble(c);
    ShlNibble(d);
    MaskedByte(c);
    HighNibble(c, d);
    HighNibble(Nibble(c), Nibble(d));
  }

  lemma WideIsShort(b: bv8)
    ensures Up(Wide(b)) == 0
  {
  }

  lemma WideIndex(crc: bv16, b: bv8)
    ensures Wide(Index(crc, b)) == Xor(crc & 0xFF00, Wide(b))
  {
  }

  lemma IndexBits(crc: bv16, b: bv8)
    ensures Bits(Wide(Index(crc, b)), 16) == AddTop(Bits(crc, 8), ByteBits(b)) + Zeros(8)
  {
    hide Bits, Shl, Index, Wide, Xor, Up;
    WideIndex(crc, b);
    HighByte(crc);
    BitsXor(crc & 0xFF00, Wide(b), 8);
    BitsSplit(Wide(Index(crc, b)), 8, 8);
    ShlByte(Wide(Index(crc, b)));
    WideIsShort(Index(crc, b));
    BitsZero(8);
  }

  lemma ByteUp(crc: bv16)
    ensures Bits(crc, 16) == Bits(crc, 8) + Bits(Up(crc), 8)
    ensures Bits(Up(crc), 16) == Bits(Up(crc), 8) + Zeros(8)
  {
    hide Bits, Up, Shl;
    BitsSplit(crc, 8, 8);
    ShlByte(crc);
    BitsSplit(Up(crc), 8, 8);
    ShlAdd(crc, 8, 8);
    NothingLeft(crc);
    BitsZero(8);
  }

  lemma AddTopCommutes(p: Poly, q: Poly)
    requires |p| == |q|
    ensures AddTop(p, q) == AddTop(q, p)
  {
  }

  /** One turn of the loop divides by the eight bits of a byte. */
  lemma UpdateShifts(crc: bv16, b: bv8)
    ensures Bits(Update(crc, b), 16) == ShiftAll(Bits(crc, 16), ByteBits(b), XmodemTail())
  {
    hide Bits, Up, Entry, Index, Wide, Xor, ShiftAll, AddTop, Zeros, XmodemTail;
    ByteUp(crc);
    IndexBits(crc, b);
    EntryDivides(Index(crc, b));
    BitsXor(Up(crc), Entry(Index(crc, b)), 16);
    AddTopCommutes(Bits(Up(crc), 16), Bits(Entry(Index(crc, b)), 16));
    ShiftAllByTable(Bits(crc, 16), Bits(crc, 8), Bits(Up(crc), 8), ByteBits(b),
                    Bits(Wide(Index(crc, b)), 16), XmodemTail());
  }

  /** The coefficients of a message, the highest bit of each byte first. */
  function MessageBits(s: seq<bv8>): (p: Poly)
    ensures |p| == 8 * |s|
  {
    if s == [] then [] else ByteBits(s[0]) + MessageBits(s[1..])
  }

  function CrcFrom(crc: bv16, s: seq<bv8>): bv16
    decreases |s|
  {
    if s == [] then crc else CrcFrom(Update(crc, s[0]), s[1..])
  }

  function CrcOf(s: seq<bv8>): bv16 {
    CrcFrom(0, s)
  }

  lemma {:induction false} CrcShifts(crc: bv16, s: seq<bv8>)
    ensures Bits(CrcFrom(crc, s), 16) == ShiftAll(Bits(crc, 16), MessageBits(s), XmodemTail())
    decreases |s|
  {
    hide Bits, Update, ByteBits, XmodemTail, Shift;
    if s != [] {
      UpdateShifts(crc, s[0]);
      CrcShifts(Update(crc, s[0]), s[1..]);
      ShiftAllConcat(Bits(crc, 16), ByteBits(s[0]), MessageBits(s[1..]), XmodemTail());
    }
  }

  /** `crc16` is the remainder of the message times x^16 on division by x^16 + x^12 + x^5 + 1. */
  lemma CrcIsRemainder(s: seq<bv8>)
    ensures Bits(CrcOf(s), 16) == Remainder(MessageBits(s) + Zeros(16), XmodemTail())
  {
    hide Bits, CrcFrom, XmodemTail, Remainder, Zeros;
    CrcShifts(0, s);
    BitsZero(16);
    DivisionOfMessage(MessageBits(s), XmodemTail());
  }

  /** `crc16` */
  method Compute(buf: seq<bv8>) returns (crc: bv16)
    ensures crc == CrcOf(buf)
    ensures Bits(crc, 16) == Remainder(MessageBits(buf) + Zeros(16), XmodemTail())
  {
    hide Bits, Update, Table;
    crc := 0;
    for counter := 0 to |buf|
      invariant CrcFrom(crc, buf[counter..]) == CrcOf(buf)
    {
      assert buf[counter..][1..] == buf[counter + 1..];
      crc := Update(crc, buf[counter]);
    }
    CrcIsRemainder(buf);
  }
}
