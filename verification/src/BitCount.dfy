/**
 Counting the bits of a string: seven words at a time with sums inside words, the rest with a table.
 */
module BitCount {
  import opened BitBytes
  import opened BitStrings

  // ---------- what is counted ----------

  function Trues(b: seq<bool>): nat {
    if b == [] then 0 else (if b[0] then 1 else 0) + Trues(b[1..])
  }

  lemma {:induction false} TruesConcat(a: seq<bool>, b: seq<bool>)
    ensures Trues(a + b) == Trues(a) + Trues(b)
  {
    if a == [] {
      assert a + b == b;
    } else {
      assert (a + b)[1..] == a[1..] + b;
      TruesConcat(a[1..], b);
    }
  }

  function One(b: bool): nat {
    if b then 1 else 0
  }

  /** The number of bits set in a byte. */
  function Ones(b: bv8): nat {
    One(TestByte(b, 0)) + One(TestByte(b, 1)) + One(TestByte(b, 2)) + One(TestByte(b, 3)) +
    One(TestByte(b, 4)) + One(TestByte(b, 5)) + One(TestByte(b, 6)) + One(TestByte(b, 7))
  }

  function Count(s: seq<bv8>): nat {
    if s == [] then 0 else Ones(s[0]) + Count(s[1..])
  }

  lemma {:induction false} CountConcat(s: seq<bv8>, t: seq<bv8>)
    ensures Count(s + t) == Count(s) + Count(t)
  {
    hide Ones;
    if s == [] {
      assert s + t == t;
    } else {
      assert (s + t)[1..] == s[1..] + t;
      CountConcat(s[1..], t);
    }
  }

  lemma BitsOfByte(b: bv8)
    ensures Bits([b]) == [TestByte(b, 7), TestByte(b, 6), TestByte(b, 5), TestByte(b, 4)]
                       + [TestByte(b, 3), TestByte(b, 2), TestByte(b, 1), TestByte(b, 0)]
  {
    hide TestByte;
  }

  lemma TruesOfByte(b: bv8)
    ensures Trues(Bits([b])) == Ones(b)
  {
    hide TestByte, Trues, Bits;
    var high := [TestByte(b, 7), TestByte(b, 6), TestByte(b, 5), TestByte(b, 4)];
    var low := [TestByte(b, 3), TestByte(b, 2), TestByte(b, 1), TestByte(b, 0)];
    BitsOfByte(b);
    TruesConcat(high, low);
    TruesOfFour(high);
    TruesOfFour(low);
  }

  lemma TruesOfFour(b: seq<bool>)
    requires |b| == 4
    ensures Trues(b) == One(b[0]) + One(b[1]) + One(b[2]) + One(b[3])
  {
    assert b[1..][1..] == b[2..] && b[2..][1..] == [b[3]] && [b[3]][1..] == [];
    assert Trues(b) == One(b[0]) + (One(b[1]) + Trues(b[2..]));
    assert Trues(b[2..]) == One(b[2]) + Trues([b[3]]);
  }

  /** Counting byte by byte counts the bits of the string. */
  lemma {:induction false} CountIsTrues(s: seq<bv8>)
    ensures Count(s) == Trues(Bits(s))
  {
    hide Ones, TestByte;
    if s != [] {
      CountIsTrues(s[1..]);
      TruesOfByte(s[0]);
      assert Bits(s) == Bits([s[0]]) + Bits(s[1..]);
      TruesConcat(Bits([s[0]]), Bits(s[1..]));
    }
  }

  // ---------- the table ----------

  /** `bitsinbyte`, in rows of sixteen. */
  function BitsInByte(): (t: seq<seq<nat>>)
    ensures |t| == 16 && forall h :: 0 <= h < 16 ==> |t[h]| == 16
  {
    [[0, 1, 1, 2, 1, 2, 2, 3, 1, 2, 2, 3, 2, 3, 3, 4],
     [1, 2, 2, 3, 2, 3, 3, 4, 2, 3, 3, 4, 3, 4, 4, 5],
     [1, 2, 2, 3, 2, 3, 3, 4, 2, 3, 3, 4, 3, 4, 4, 5],
     [2, 3, 3, 4, 3, 4, 4, 5, 3, 4, 4, 5, 4, 5, 5, 6],
     [1, 2, 2, 3, 2, 3, 3, 4, 2, 3, 3, 4, 3, 4, 4, 5],
     [2, 3, 3, 4, 3, 4, 4, 5, 3, 4, 4, 5, 4, 5, 5, 6],
     [2, 3, 3, 4, 3, 4, 4, 5, 3, 4, 4, 5, 4, 5, 5, 6],
     [3, 4, 4, 5, 4, 5, 5, 6, 4, 5, 5, 6, 5, 6, 6, 7],
     [1, 2, 2, 3, 2, 3, 3, 4, 2, 3, 3, 4, 3, 4, 4, 5],
     [2, 3, 3, 4, 3, 4, 4, 5, 3, 4, 4, 5, 4, 5, 5, 6],
     [2, 3, 3, 4, 3, 4, 4, 5, 3, 4, 4, 5, 4, 5, 5, 6],
     [3, 4, 4, 5, 4, 5, 5, 6, 4, 5, 5, 6, 5, 6, 6, 7],
     [2, 3, 3, 4, 3, 4, 4, 5, 3, 4, 4, 5, 4, 5, 5, 6],
     [3, 4, 4, 5, 4, 5, 5, 6, 4, 5, 5, 6, 5, 6, 6, 7],
     [3, 4, 4, 5, 4, 5, 5, 6, 4, 5, 5, 6, 5, 6, 6, 7],
     [4, 5, 5, 6, 5, 6, 6, 7, 5, 6, 6, 7, 6, 7, 7, 8]]
  }

  /** The number of bits in a hexadecimal digit. */
  function OnesInDigit(d: bv8): nat {
    One(TestByte(d, 0)) + One(TestByte(d, 1)) + One(TestByte(d, 2)) + One(TestByte(d, 3))
  }

  lemma OnesOfDigits(b: bv8)
    ensures b >> 4 < 16 && b & 15 < 16 && Ones(b) == OnesInDigit(b >> 4) + OnesInDigit(b & 15)
  {
  }

  function InDigit(): (r: seq<nat>)
    ensures |r| == 16
  {
    [0, 1, 1, 2, 1, 2, 2, 3, 1, 2, 2, 3, 2, 3, 3, 4]
  }

  lemma InDigitCounts(d: bv8)
    requires d < 16
    ensures InDigit()[d as nat] == OnesInDigit(d)
  {
  }

  lemma LowRowCounts(h: nat, k: nat)
    requires h < 8 && k < 16
    ensures BitsInByte()[h][k] == InDigit()[h] + InDigit()[k]
  {
  }

  lemma HighRowCounts(h: nat, k: nat)
    requires 8 <= h < 16 && k < 16
    ensures BitsInByte()[h][k] == InDigit()[h] + InDigit()[k]
  {
  }

  function TableCount(b: bv8): nat {
    BitsInByte()[(b >> 4) as nat][(b & 15) as nat]
  }

  lemma TableCounts(b: bv8)
    ensures TableCount(b) == Ones(b)
  {
    hide BitsInByte, InDigit, Ones, OnesInDigit;
    OnesOfDigits(b);
    InDigitCounts(b >> 4);
    InDigitCounts(b & 15);
    if (b >> 4) as nat < 8 {
      LowRowCounts((b >> 4) as nat, (b & 15) as nat);
    } else {
      HighRowCounts((b >> 4) as nat, (b & 15) as nat);
    }
  }

  // ---------- sums inside a word ----------

  /** Each pair of bits becomes their number. */
  function Pairs(x: bv32): bv32 {
    x - ((x >> 1) & 0x5555_5555)
  }

  function Nibbles(x: bv32): bv32 {
    (x & 0x3333_3333) + ((x >> 2) & 0x3333_3333)
  }

  function Octets(x: bv32): bv32 {
    (x + (x >> 4)) & 0x0F0F_0F0F
  }

  /** Each byte becomes its number of bits. */
  function Fold(x: bv32): bv32 {
    Octets(Nibbles(Pairs(x)))
  }

  function Low(x: bv32): bv32 {
    x & 0xFF
  }

  function Drop(x: bv32): bv32 {
    x >> 8
  }

  function PairSums(x: bv32): bv32 {
    (x & 0x5555_5555) + ((x >> 1) & 0x5555_5555)
  }

  lemma PairsAreSums(x: bv32)
    ensures Pairs(x) == PairSums(x)
  {
  }

  lemma PairSumsLocal(x: bv32)
    ensures Low(PairSums(x)) == PairSums(Low(x)) && Drop(PairSums(x)) == PairSums(Drop(x))
  {
  }

  lemma NibblesLocal(x: bv32)
    ensures Low(Nibbles(x)) == Nibbles(Low(x)) && Drop(Nibbles(x)) == Nibbles(Drop(x))
  {
  }

  predicate ThreeBits(x: bv32) {
    x & 0x8888_8888 == 0
  }

  lemma OctetsLocal(x: bv32)
    requires ThreeBits(x)
    ensures Low(Octets(x)) == Octets(Low(x)) && Drop(Octets(x)) == Octets(Drop(x))
  {
  }

  predicate NoThrees(x: bv32) {
    x & (x >> 1) & 0x5555_5555 == 0
  }

  lemma PairsAtMostTwo(x: bv32)
    ensures NoThrees(PairSums(x))
  {
  }

  lemma NibblesAtMostFour(x: bv32)
    requires NoThrees(x)
    ensures ThreeBits(Nibbles(x))
  {
  }

  /** Folding works byte by byte. */
  lemma FoldLocal(x: bv32)
    ensures Low(Fold(x)) == Fold(Low(x)) && Drop(Fold(x)) == Fold(Drop(x))
  {
    hide Pairs, PairSums, Nibbles, Octets, Low, Drop, NoThrees, ThreeBits;
    PairsAreSums(x);
    PairsAreSums(Low(x));
    PairsAreSums(Drop(x));
    PairSumsLocal(x);
    NibblesLocal(PairSums(x));
    PairsAtMostTwo(x);
    NibblesAtMostFour(PairSums(x));
    OctetsLocal(Nibbles(PairSums(x)));
  }

  /** The bits of a byte, added up. */
  function Added(b: bv32): bv32 {
    (b & 1) + ((b >> 1) & 1) + ((b >> 2) & 1) + ((b >> 3) & 1)
    + ((b >> 4) & 1) + ((b >> 5) & 1) + ((b >> 6) & 1) + ((b >> 7) & 1)
  }

  lemma FoldOfByte(b: bv32)
    requires b < 256
    ensures Fold(b) == Added(b) && Added(b) <= 8
  {
  }

  // ---------- words as numbers ----------

  function Nat(x: bv32): nat {
    x as nat
  }

  function Plus(x: bv32, y: bv32): bv32 {
    x + y
  }

  function Pred(x: bv32): bv32 {
    x - 1
  }

  lemma Counting(x: bv32, y: bv32)
    requires x <= 256 && 0 < y <= 256
    ensures Pred(y) <= 256 && Plus(x, Pred(y)) <= 512 && Plus(x, y) == Plus(Plus(x, Pred(y)), 1) && y == Plus(Pred(y), 1)
  {
  }

  lemma Succ(x: bv32)
    requires x <= 512
    ensures Nat(Plus(x, 1)) == Nat(x) + 1
  {
  }

  lemma Zero(x: bv32)
    ensures Plus(x, 0) == x && Nat(0) == 0
  {
  }

  lemma {:induction false} NatPlus(x: bv32, y: bv32)
    requires x <= 256 && y <= 256
    ensures Nat(Plus(x, y)) == Nat(x) + Nat(y)
    decreases Nat(y)
  {
    hide Nat, Plus, Pred;
    if y == 0 {
      Zero(x);
    } else {
      Counting(x, y);
      Succ(Pred(y));
      NatPlus(x, Pred(y));
      Succ(Plus(x, Pred(y)));
    }
  }

  // ---------- the bytes of a word ----------

  function Wide(b: bv8): bv32 {
    b as bv32
  }

  /** Four bytes as a word, the first one lowest. */
  function Load(b0: bv8, b1: bv8, b2: bv8, b3: bv8): bv32 {
    Wide(b0) | (Wide(b1) << 8) | (Wide(b2) << 16) | (Wide(b3) << 24)
  }

  lemma LanesOfLoad(b0: bv8, b1: bv8, b2: bv8, b3: bv8)
    ensures var w := Load(b0, b1, b2, b3);
      && Low(w) == Wide(b0) && Low(Drop(w)) == Wide(b1) && Low(Drop(Drop(w))) == Wide(b2) && Low(Drop(Drop(Drop(w)))) == Wide(b3)
  {
  }

  function Digit(b: bv8, i: nat): bv32
    requires i < 8
  {
    if TestByte(b, i) then 1 else 0
  }

  lemma AddedDigits(b: bv8)
    ensures Wide(b) < 256
    ensures Added(Wide(b)) == Plus(Plus(Plus(Digit(b, 0), Digit(b, 1)), Plus(Digit(b, 2), Digit(b, 3))),
                                   Plus(Plus(Digit(b, 4), Digit(b, 5)), Plus(Digit(b, 6), Digit(b, 7))))
  {
  }

  lemma NatDigits(b: bv8, i: nat, j: nat)
    requires i < 8 && j < 8
    ensures Nat(Plus(Digit(b, i), Digit(b, j))) == One(TestByte(b, i)) + One(TestByte(b, j)) && Plus(Digit(b, i), Digit(b, j)) <= 2
  {
    hide TestByte;
  }

  lemma SmallSum(x: bv32, y: bv32)
    requires x <= 64 && y <= 64
    ensures Plus(x, y) <= 128 && (x <= 2 && y <= 2 ==> Plus(x, y) <= 4)
  {
  }

  lemma FoldCounts(b: bv8)
    ensures Nat(Fold(Wide(b))) == Ones(b) && Fold(Wide(b)) <= 8
  {
    hide TestByte, Digit, Nat, Plus, Fold, Added, Wide;
    AddedDigits(b);
    FoldOfByte(Wide(b));
    NatDigits(b, 0, 1);
    NatDigits(b, 2, 3);
    NatDigits(b, 4, 5);
    NatDigits(b, 6, 7);
    var p, q, r, t := Plus(Digit(b, 0), Digit(b, 1)), Plus(Digit(b, 2), Digit(b, 3)), Plus(Digit(b, 4), Digit(b, 5)), Plus(Digit(b, 6), Digit(b, 7));
    NatPlus(p, q);
    NatPlus(r, t);
    SmallSum(p, q);
    SmallSum(r, t);
    NatPlus(Plus(p, q), Plus(r, t));
  }

  // ---------- seven words ----------

  lemma FoldMask(x: bv32)
    ensures Fold(x) & 0xF0F0_F0F0 == 0
  {
  }

  lemma Halves(x: bv32)
    requires x & 0xF0F0_F0F0 == 0
    ensures Nat(x) == Nat(x & 0xFFFF) + 0x1_0000 * Nat(x >> 16)
    ensures x & 0xFFFF < 0x1_0000 && x >> 16 < 0x1_0000
  {
  }

  lemma HalfBytes(x: bv32)
    requires x < 0x1_0000
    ensures Nat(x) == Nat(x & 0xFF) + 0x100 * Nat(x >> 8)
  {
  }

  lemma FourLanes(x: bv32)
    ensures Low(x) == (x & 0xFFFF) & 0xFF && Low(Drop(x)) == (x & 0xFFFF) >> 8
    ensures Low(Drop(Drop(x))) == (x >> 16) & 0xFF && Low(Drop(Drop(Drop(x)))) == (x >> 16) >> 8
  {
  }

  /** A folded word as a number. */
  lemma FoldedValue(x: bv32)
    requires x & 0xF0F0_F0F0 == 0
    ensures Nat(x) == Nat(Low(x)) + 0x100 * Nat(Low(Drop(x))) + 0x1_0000 * Nat(Low(Drop(Drop(x)))) + 0x100_0000 * Nat(Low(Drop(Drop(Drop(x)))))
  {
    hide Low, Drop, Nat;
    Halves(x);
    HalfBytes(x & 0xFFFF);
    HalfBytes(x >> 16);
    FourLanes(x);
  }

  /** The four numbers a folded word holds, each at most eight. */
  datatype Quad = Quad(a: nat, b: nat, c: nat, d: nat) {
    predicate AtMost(k: nat) {
      a <= k && b <= k && c <= k && d <= k
    }

    function Value(): nat {
      a + 0x100 * b + 0x1_0000 * c + 0x100_0000 * d
    }

    function Sum(): nat {
      a + b + c + d
    }

    function Plus(q: Quad): Quad {
      Quad(a + q.a, b + q.b, c + q.c, d + q.d)
    }
  }

  lemma OnesBound(b: bv8)
    ensures Ones(b) <= 8
  {
    hide TestByte;
  }

  /** Folding a word of four bytes leaves the number of bits of each. */
  lemma FoldedQuad(b0: bv8, b1: bv8, b2: bv8, b3: bv8)
    ensures var q := Quad(Ones(b0), Ones(b1), Ones(b2), Ones(b3));
      Nat(Fold(Load(b0, b1, b2, b3))) == q.Value() && q.AtMost(8)
  {
    hide Fold, Load, Low, Drop, Nat, Ones, Wide;
    var w := Load(b0, b1, b2, b3);
    LanesOfLoad(b0, b1, b2, b3);
    FoldLocal(w);
    FoldLocal(Drop(w));
    FoldLocal(Drop(Drop(w)));
    FoldLocal(Drop(Drop(Drop(w))));
    FoldCounts(b0);
    FoldCounts(b1);
    FoldCounts(b2);
    FoldCounts(b3);
    OnesBound(b0);
    OnesBound(b1);
    OnesBound(b2);
    OnesBound(b3);
    FoldMask(w);
    FoldedValue(Fold(w));
  }

  /** The multiplication and the shift that add up the bytes of a 32-bit word. */
  function TopSum(s: nat): nat {
    s % 0x1_0000_0000 * 0x0101_0101 % 0x1_0000_0000 / 0x100_0000
  }

  /** Bytes of at most 56 add up to at most 224, so nothing is lost. */
  lemma TopSumAdds(q: Quad)
    requires q.AtMost(56)
    ensures TopSum(q.Value()) == q.Sum()
  {
    var s, t := q.Value(), q.Sum();
    var low := q.a + 0x100 * (q.a + q.b) + 0x1_0000 * (q.a + q.b + q.c);
    var high := (q.b + q.c + q.d) + 0x100 * (q.c + q.d) + 0x1_0000 * q.d;
    assert s * 0x0101_0101 == 0x1_0000_0000 * high + (low + 0x100_0000 * t);
    ModUnique(s * 0x0101_0101, 0x1_0000_0000, high, low + 0x100_0000 * t);
    ModUnique(low + 0x100_0000 * t, 0x100_0000, t, low);
    ModUnique(s, 0x1_0000_0000, 0, s);
  }

  // ---------- the loop ----------

  /** The word at a byte position, in either byte order. */
  function WordAt(s: seq<bv8>, i: nat, bigEndian: bool): bv32
    requires i + 4 <= |s|
  {
    if bigEndian then Load(s[i + 3], s[i + 2], s[i + 1], s[i]) else Load(s[i], s[i + 1], s[i + 2], s[i + 3])
  }

  function Folded(s: seq<bv8>, i: nat, bigEndian: bool): nat
    requires i + 4 <= |s|
  {
    Nat(Fold(WordAt(s, i, bigEndian)))
  }

  function QuadAt(s: seq<bv8>, i: nat, bigEndian: bool): Quad
    requires i + 4 <= |s|
  {
    if bigEndian then Quad(Ones(s[i + 3]), Ones(s[i + 2]), Ones(s[i + 1]), Ones(s[i]))
    else Quad(Ones(s[i]), Ones(s[i + 1]), Ones(s[i + 2]), Ones(s[i + 3]))
  }

  lemma FoldedAt(s: seq<bv8>, i: nat, bigEndian: bool)
    requires i + 4 <= |s|
    ensures Folded(s, i, bigEndian) == QuadAt(s, i, bigEndian).Value() && QuadAt(s, i, bigEndian).AtMost(8)
  {
    hide Fold, Load, Nat, Ones;
    if bigEndian {
      FoldedQuad(s[i + 3], s[i + 2], s[i + 1], s[i]);
    } else {
      FoldedQuad(s[i], s[i + 1], s[i + 2], s[i + 3]);
    }
  }

  lemma CountOne(s: seq<bv8>, i: nat)
    requires i < |s|
    ensures Count(s[..i + 1]) == Count(s[..i]) + Ones(s[i])
  {
    hide Ones;
    assert s[..i + 1] == s[..i] + [s[i]];
    CountConcat(s[..i], [s[i]]);
    assert Count([s[i]]) == Ones(s[i]) + Count([]);
  }

  lemma CountFour(s: seq<bv8>, i: nat, bigEndian: bool)
    requires i + 4 <= |s|
    ensures Count(s[..i + 4]) == Count(s[..i]) + QuadAt(s, i, bigEndian).Sum()
  {
    hide Ones, Count;
    CountOne(s, i);
    CountOne(s, i + 1);
    CountOne(s, i + 2);
    CountOne(s, i + 3);
  }

  /** The quads of the words from i on, added up. */
  function Quads(s: seq<bv8>, i: nat, n: nat, bigEndian: bool): Quad
    requires i + 4 * n <= |s|
    decreases n
  {
    if n == 0 then Quad(0, 0, 0, 0) else Quads(s, i, n - 1, bigEndian).Plus(QuadAt(s, i + 4 * (n - 1), bigEndian))
  }

  lemma {:induction false} QuadsCount(s: seq<bv8>, i: nat, n: nat, bigEndian: bool)
    requires i + 4 * n <= |s|
    ensures Quads(s, i, n, bigEndian).AtMost(8 * n)
    ensures Count(s[..i + 4 * n]) == Count(s[..i]) + Quads(s, i, n, bigEndian).Sum()
    decreases n
  {
    hide QuadAt, Count;
    if n > 0 {
      QuadsCount(s, i, n - 1, bigEndian);
      FoldedAt(s, i + 4 * (n - 1), bigEndian);
      CountFour(s, i + 4 * (n - 1), bigEndian);
    }
  }

  function FoldedSum(s: seq<bv8>, i: nat, n: nat, bigEndian: bool): nat
    requires i + 4 * n <= |s|
    decreases n
  {
    if n == 0 then 0 else FoldedSum(s, i, n - 1, bigEndian) + Folded(s, i + 4 * (n - 1), bigEndian)
  }

  lemma {:induction false} QuadsValue(s: seq<bv8>, i: nat, n: nat, bigEndian: bool)
    requires i + 4 * n <= |s|
    ensures Quads(s, i, n, bigEndian).Value() == FoldedSum(s, i, n, bigEndian)
    decreases n
  {
    hide QuadAt, Folded;
    if n > 0 {
      QuadsValue(s, i, n - 1, bigEndian);
      FoldedAt(s, i + 4 * (n - 1), bigEndian);
    }
  }

  /** The 28 bytes from i on, as seven words. */
  method CountBlock(s: seq<bv8>, i: nat, bigEndian: bool) returns (bits: nat)
    requires i + 28 <= |s|
    ensures Count(s[..i + 28]) == Count(s[..i]) + bits
  {
    hide Count, Folded, TopSum, Quads;
    var sum := Folded(s, i, bigEndian) + Folded(s, i + 4, bigEndian) + Folded(s, i + 8, bigEndian) + Folded(s, i + 12, bigEndian)
             + Folded(s, i + 16, bigEndian) + Folded(s, i + 20, bigEndian) + Folded(s, i + 24, bigEndian);
    assert sum == FoldedSum(s, i, 7, bigEndian);
    hide FoldedSum;
    QuadsValue(s, i, 7, bigEndian);
    QuadsCount(s, i, 7, bigEndian);
    TopSumAdds(Quads(s, i, 7, bigEndian));
    bits := TopSum(sum);
  }

  /** `redisPopcount` of the string at some address. */
  method RedisPopcount(s: seq<bv8>, address: nat, bigEndian: bool) returns (bits: nat)
    ensures bits == Trues(Bits(s))
  {
    hide Ones, Count, TableCount, Trues, Bits;
    bits := 0;
    var i := 0;
    assert s[..0] == [] && Count([]) == 0 by { CountNothing(); }
    while (address + i) % 4 != 0 && i < |s|
      invariant i <= |s| && bits == Count(s[..i])
      decreases |s| - i
    {
      TableCounts(s[i]);
      CountOne(s, i);
      bits := bits + TableCount(s[i]);
      i := i + 1;
    }
    while |s| - i >= 28
      invariant i <= |s| && bits == Count(s[..i])
    {
      var block := CountBlock(s, i, bigEndian);
      bits := bits + block;
      i := i + 28;
    }
    while i < |s|
      invariant i <= |s| && bits == Count(s[..i])
    {
      TableCounts(s[i]);
      CountOne(s, i);
      bits := bits + TableCount(s[i]);
      i := i + 1;
    }
    assert s[..i] == s;
    CountIsTrues(s);
  }

  lemma CountNothing()
    ensures Count([]) == 0
  {
  }
}
