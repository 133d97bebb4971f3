/**
 BITOP: the operation on whole words, as long as every input has data, and byte by byte after that,
 is the operation on each byte of the inputs padded with zeros.
 */
module BitOps {
  import opened BitBytes
  import opened WordBytes

  datatype Op = And | Or | Xor | Not

  function And8(a: bv8, b: bv8): bv8 {
    a & b
  }

  function Or8(a: bv8, b: bv8): bv8 {
    a | b
  }

  function Xor8(a: bv8, b: bv8): bv8 {
    a ^ b
  }

  function Not8(a: bv8): bv8 {
    !a
  }

  function ByteOp(op: Op, a: bv8, b: bv8): bv8 {
    match op
    case And => And8(a, b)
    case Or => Or8(a, b)
    case Xor => Xor8(a, b)
    case Not => a
  }

  function ByteAt(s: seq<bv8>, j: nat): bv8 {
    if j < |s| then s[j] else 0
  }

  /** The result of the first n inputs at a byte position. */
  function Folded(op: Op, srcs: seq<seq<bv8>>, j: nat, n: nat): bv8
    requires 1 <= n <= |srcs|
  {
    if n == 1 then (if op.Not? then Not8(ByteAt(srcs[0], j)) else ByteAt(srcs[0], j))
    else ByteOp(op, Folded(op, srcs, j, n - 1), ByteAt(srcs[n - 1], j))
  }

  /** How many of the first n inputs have a bit set. */
  function Setters(srcs: seq<seq<bv8>>, j: nat, r: nat, n: nat): (m: nat)
    requires n <= |srcs| && r < 8
    ensures m <= n
  {
    if n == 0 then 0
    else Setters(srcs, j, r, n - 1) + if j < |srcs[n - 1]| && TestByte(srcs[n - 1][j], r) then 1 else 0
  }

  predicate OneBit(m: bv8) {
    m == 1 || m == 2 || m == 4 || m == 8 || m == 16 || m == 32 || m == 64 || m == 128
  }

  lemma UnitMaskIsOneBit(r: nat)
    requires r < 8
    ensures OneBit(UnitMask(r))
  {
  }

  lemma TestAnd(a: bv8, b: bv8, m: bv8)
    requires OneBit(m)
    ensures (And8(a, b) & m != 0) == ((a & m != 0) && (b & m != 0))
  {
  }

  lemma TestOr(a: bv8, b: bv8, m: bv8)
    requires OneBit(m)
    ensures (Or8(a, b) & m != 0) == ((a & m != 0) || (b & m != 0))
  {
  }

  lemma TestXor(a: bv8, b: bv8, m: bv8)
    requires OneBit(m)
    ensures (Xor8(a, b) & m != 0) == ((a & m != 0) != (b & m != 0))
  {
  }

  lemma TestNot(a: bv8, m: bv8)
    requires OneBit(m)
    ensures (Not8(a) & m != 0) == (a & m == 0)
  {
  }

  lemma TestOps(a: bv8, b: bv8, r: nat)
    requires r < 8
    ensures TestByte(And8(a, b), r) == (TestByte(a, r) && TestByte(b, r))
    ensures TestByte(Or8(a, b), r) == (TestByte(a, r) || TestByte(b, r))
    ensures TestByte(Xor8(a, b), r) == (TestByte(a, r) != TestByte(b, r))
    ensures TestByte(Not8(a), r) == !TestByte(a, r)
  {
    hide *;
    BitOfAnd(a, b, r);
    BitOfOr(a, b, r);
    BitOfXor(a, b, r);
    BitOfNot(a, r);
  }

  lemma BitOfAnd(a: bv8, b: bv8, r: nat)
    requires r < 8
    ensures TestByte(And8(a, b), r) == (TestByte(a, r) && TestByte(b, r))
  {
    hide OneBit, UnitMask, And8;
    UnitMaskIsOneBit(r);
    TestAnd(a, b, UnitMask(r));
  }

  lemma BitOfOr(a: bv8, b: bv8, r: nat)
    requires r < 8
    ensures TestByte(Or8(a, b), r) == (TestByte(a, r) || TestByte(b, r))
  {
    hide OneBit, UnitMask, Or8;
    UnitMaskIsOneBit(r);
    TestOr(a, b, UnitMask(r));
  }

  lemma BitOfXor(a: bv8, b: bv8, r: nat)
    requires r < 8
    ensures TestByte(Xor8(a, b), r) == (TestByte(a, r) != TestByte(b, r))
  {
    hide OneBit, UnitMask, Xor8;
    UnitMaskIsOneBit(r);
    TestXor(a, b, UnitMask(r));
  }

  lemma BitOfNot(a: bv8, r: nat)
    requires r < 8
    ensures TestByte(Not8(a), r) == !TestByte(a, r)
  {
    hide OneBit, UnitMask, Not8;
    UnitMaskIsOneBit(r);
    TestNot(a, UnitMask(r));
  }

  /** A bit of the result is set by all inputs, by some, by an odd number, or not by the one input. */
  lemma {:induction false} FoldedBit(op: Op, srcs: seq<seq<bv8>>, j: nat, n: nat, r: nat)
    requires 1 <= n <= |srcs| && r < 8 && (op.Not? ==> n == 1)
    ensures var m := Setters(srcs, j, r, n);
      TestByte(Folded(op, srcs, j, n), r) <==>
        match op
        case And => m == n
        case Or => m > 0
        case Xor => m % 2 == 1
        case Not => m == 0
    decreases n
  {
    hide TestByte, And8, Or8, Xor8, Not8;
    TestOps(ByteAt(srcs[0], j), 0, r);
    ZeroHasNoBit(r);
    if n > 1 {
      FoldedBit(op, srcs, j, n - 1, r);
      TestOps(Folded(op, srcs, j, n - 1), ByteAt(srcs[n - 1], j), r);
    } else {
      assert Setters(srcs, j, r, 1) == if TestByte(ByteAt(srcs[0], j), r) then 1 else 0;
    }
  }

  // ---------- words ----------

  function And64(a: bv64, b: bv64): bv64 {
    a & b
  }

  function Or64(a: bv64, b: bv64): bv64 {
    a | b
  }

  function Xor64(a: bv64, b: bv64): bv64 {
    a ^ b
  }

  function Not64(a: bv64): bv64 {
    !a
  }

  function WordOp(op: Op, a: bv64, b: bv64): bv64 {
    match op
    case And => And64(a, b)
    case Or => Or64(a, b)
    case Xor => Xor64(a, b)
    case Not => a
  }

  lemma OctetAnd(a: bv64, b: bv64)
    ensures Octet(And64(a, b)) == And64(Octet(a), Octet(b))
  {
  }

  lemma TopAnd(a: bv64, b: bv64)
    ensures TopByte(And64(a, b)) == And8(TopByte(a), TopByte(b))
  {
  }

  lemma OctetOr(a: bv64, b: bv64)
    ensures Octet(Or64(a, b)) == Or64(Octet(a), Octet(b))
  {
  }

  lemma TopOr(a: bv64, b: bv64)
    ensures TopByte(Or64(a, b)) == Or8(TopByte(a), TopByte(b))
  {
  }

  lemma OctetXor(a: bv64, b: bv64)
    ensures Octet(Xor64(a, b)) == Xor64(Octet(a), Octet(b))
  {
  }

  lemma TopXor(a: bv64, b: bv64)
    ensures TopByte(Xor64(a, b)) == Xor8(TopByte(a), TopByte(b))
  {
  }

  lemma OctetOp(op: Op, a: bv64, b: bv64)
    ensures Octet(WordOp(op, a, b)) == WordOp(op, Octet(a), Octet(b))
    ensures TopByte(WordOp(op, a, b)) == ByteOp(op, TopByte(a), TopByte(b))
  {
    hide Octet, TopByte, And8, Or8, Xor8, And64, Or64, Xor64;
    match op
    case And =>
      OctetAnd(a, b);
      TopAnd(a, b);
    case Or =>
      OctetOr(a, b);
      TopOr(a, b);
    case Xor =>
      OctetXor(a, b);
      TopXor(a, b);
    case Not =>
  }

  lemma {:induction false} OctetsOp(op: Op, a: bv64, b: bv64, i: nat)
    ensures Octets(WordOp(op, a, b), i) == WordOp(op, Octets(a, i), Octets(b, i))
  {
    hide Octet, WordOp;
    if i > 0 {
      OctetsOp(op, a, b, i - 1);
      OctetOp(op, Octets(a, i - 1), Octets(b, i - 1));
    }
  }

  /** An operation on words is the operation on each of their bytes. */
  lemma ByteOfOp(op: Op, c: seq<bv8>, d: seq<bv8>, i: nat)
    requires |c| == |d| == 8 && i < 8
    ensures TopByte(Octets(WordOp(op, Assemble(c), Assemble(d)), i)) == ByteOp(op, c[i], d[i])
  {
    hide Octets, WordOp, Assemble, TopByte, ByteOp;
    var a, b := Assemble(c), Assemble(d);
    OctetsOp(op, a, b, i);
    OctetOp(op, Octets(a, i), Octets(b, i));
    ByteOf(c, i);
    ByteOf(d, i);
  }

  const FULL: bv8 := 0xFF

  lemma NotIsXor(a: bv64, b: bv8)
    ensures Not64(a) == WordOp(Xor, a, Assemble([FULL, FULL, FULL, FULL, FULL, FULL, FULL, FULL]))
    ensures ByteOp(Xor, b, FULL) == Not8(b)
  {
    assert Assemble([FULL, FULL, FULL, FULL, FULL, FULL, FULL, FULL]) == 0xFFFF_FFFF_FFFF_FFFF;
    hide Assemble;
  }

  lemma ByteOfNot(c: seq<bv8>, i: nat)
    requires |c| == 8 && i < 8
    ensures TopByte(Octets(Not64(Assemble(c)), i)) == Not8(c[i])
  {
    hide Octets, WordOp, Assemble, TopByte, ByteOp, Not8, Not64;
    NotIsXor(Assemble(c), c[i]);
    ByteOfOp(Xor, c, [FULL, FULL, FULL, FULL, FULL, FULL, FULL, FULL], i);
  }

  // ---------- in place ----------

  function Eight(s: seq<bv8>, k: nat): (c: seq<bv8>)
    requires k + 8 <= |s|
    ensures |c| == 8
  {
    s[k..k + 8]
  }

  /** The bytes of a word, to be stored. */
  function Split(w: bv64): (c: seq<bv8>)
    ensures |c| == 8
  {
    seq(8, i requires 0 <= i < 8 => TopByte(Octets(w, i)))
  }

  method Store(res: array<bv8>, k: nat, w: bv64)
    requires k + 8 <= res.Length
    modifies res
    ensures forall i :: 0 <= i < res.Length ==> res[i] == if k <= i < k + 8 then Split(w)[i - k] else old(res[i])
  {
    hide Split;
    for i := 0 to 8
      invariant forall m :: 0 <= m < res.Length ==> res[m] == if k <= m < k + i then Split(w)[m - k] else old(res[m])
    {
      res[k + i] := Split(w)[i];
    }
  }

  /** lres[x] op= lp[x] */
  method OpInPlace(op: Op, res: array<bv8>, k: nat, src: seq<bv8>)
    requires k + 8 <= res.Length && k + 8 <= |src|
    modifies res
    ensures forall i :: 0 <= i < res.Length ==>
      res[i] == if k <= i < k + 8 then ByteOp(op, old(res[i]), src[i]) else old(res[i])
  {
    hide Assemble, WordOp, ByteOp, TopByte, Octets;
    ghost var c, d := Eight(res[..], k), Eight(src, k);
    forall i | 0 <= i < 8 ensures Split(WordOp(op, Assemble(c), Assemble(d)))[i] == ByteOp(op, c[i], d[i]) {
      ByteOfOp(op, c, d, i);
    }
    Store(res, k, WordOp(op, Assemble(Eight(res[..], k)), Assemble(Eight(src, k))));
  }

  /** lres[x] = ~lres[x] */
  method NotInPlace(res: array<bv8>, k: nat)
    requires k + 8 <= res.Length
    modifies res
    ensures forall i :: 0 <= i < res.Length ==> res[i] == if k <= i < k + 8 then Not8(old(res[i])) else old(res[i])
  {
    hide Assemble, TopByte, Octets, Not8, Not64;
    ghost var c := Eight(res[..], k);
    forall i | 0 <= i < 8 ensures Split(Not64(Assemble(c)))[i] == Not8(c[i]) {
      ByteOfNot(c, i);
    }
    Store(res, k, Not64(Assemble(Eight(res[..], k))));
  }

  // ---------- the kernel ----------

  ghost predicate IsMax(srcs: seq<seq<bv8>>, n: nat) {
    (forall i :: 0 <= i < |srcs| ==> |srcs[i]| <= n) && exists i :: 0 <= i < |srcs| && |srcs[i]| == n
  }

  method Lengths(srcs: seq<seq<bv8>>) returns (minlen: nat, maxlen: nat)
    requires |srcs| >= 1
    ensures forall i :: 0 <= i < |srcs| ==> minlen <= |srcs[i]|
    ensures IsMax(srcs, maxlen)
  {
    minlen, maxlen := |srcs[0]|, |srcs[0]|;
    ghost var longest := 0;
    for j := 1 to |srcs|
      invariant forall i :: 0 <= i < j ==> minlen <= |srcs[i]| <= maxlen
      invariant 0 <= longest < |srcs| && |srcs[longest]| == maxlen
    {
      if |srcs[j]| > maxlen {
        maxlen := |srcs[j]|;
        longest := j;
      }
      if |srcs[j]| < minlen {
        minlen := |srcs[j]|;
      }
    }
  }

  /** Positions in [from, to) hold the result of the first n inputs. */
  ghost predicate Holds(res: seq<bv8>, op: Op, srcs: seq<seq<bv8>>, from: nat, to: nat, n: nat)
    requires 1 <= n <= |srcs|
  {
    to <= |res| && forall k :: from <= k < to ==> res[k] == Folded(op, srcs, k, n)
  }

  /** Positions in [from, to) hold the bytes of the first input. */
  ghost predicate Copied(res: seq<bv8>, srcs: seq<seq<bv8>>, from: nat, to: nat)
    requires |srcs| >= 1
  {
    to <= |res| && to <= |srcs[0]| && forall k :: from <= k < to ==> res[k] == srcs[0][k]
  }

  /** Four words of one more input. */
  method OpBlock(op: Op, res: array<bv8>, j: nat, src: seq<bv8>)
    requires j + 32 <= res.Length && j + 32 <= |src|
    modifies res
    ensures forall i :: 0 <= i < res.Length ==>
      res[i] == if j <= i < j + 32 then ByteOp(op, old(res[i]), src[i]) else old(res[i])
  {
    hide ByteOp;
    OpInPlace(op, res, j, src);
    OpInPlace(op, res, j + 8, src);
    OpInPlace(op, res, j + 16, src);
    OpInPlace(op, res, j + 24, src);
  }

  method NotBlock(res: array<bv8>, j: nat)
    requires j + 32 <= res.Length
    modifies res
    ensures forall i :: 0 <= i < res.Length ==> res[i] == if j <= i < j + 32 then Not8(old(res[i])) else old(res[i])
  {
    hide Not8;
    NotInPlace(res, j);
    NotInPlace(res, j + 8);
    NotInPlace(res, j + 16);
    NotInPlace(res, j + 24);
  }

  /** One turn of the fast path. */
  method FastBlock(op: Op, srcs: seq<seq<bv8>>, res: array<bv8>, j: nat, minlen: nat)
    requires |srcs| >= 1 && (op.Not? ==> |srcs| == 1)
    requires j + 32 <= minlen <= res.Length && forall i :: 0 <= i < |srcs| ==> minlen <= |srcs[i]|
    requires Holds(res[..], op, srcs, 0, j, |srcs|) && Copied(res[..], srcs, j, minlen)
    modifies res
    ensures Holds(res[..], op, srcs, 0, j + 32, |srcs|) && Copied(res[..], srcs, j + 32, minlen)
  {
    hide ByteOp, Not8;
    if op.Not? {
      NotBlock(res, j);
    } else {
      for i := 1 to |srcs|
        invariant Holds(res[..], op, srcs, 0, j, |srcs|) && Copied(res[..], srcs, j + 32, minlen)
        invariant Holds(res[..], op, srcs, j, j + 32, i)
      {
        OpBlock(op, res, j, srcs[i]);
      }
    }
  }

  /** The kernel of `bitopCommand`; a missing key is an empty input. */
  method BitOp(op: Op, srcs: seq<seq<bv8>>) returns (result: seq<bv8>)
    requires |srcs| >= 1 && (op.Not? ==> |srcs| == 1)
    ensures (forall i :: 0 <= i < |srcs| ==> |srcs[i]| <= |result|) && exists i :: 0 <= i < |srcs| && |srcs[i]| == |result|
    ensures forall j :: 0 <= j < |result| ==> result[j] == Folded(op, srcs, j, |srcs|)
  {
    hide ByteOp, Folded, IsMax;
    var minlen, maxlen := Lengths(srcs);
    MaxIsLongest(srcs, maxlen);
    var res := new bv8[maxlen](_ => 0);
    var j := 0;
    if minlen >= 32 && |srcs| <= 16 {
      forall k | 0 <= k < minlen {
        res[k] := srcs[0][k];
      }
      while minlen - j >= 32
        invariant j <= minlen && Holds(res[..], op, srcs, 0, j, |srcs|) && Copied(res[..], srcs, j, minlen)
      {
        FastBlock(op, srcs, res, j, minlen);
        j := j + 32;
      }
    }
    while j < maxlen
      invariant j <= maxlen && Holds(res[..], op, srcs, 0, j, |srcs|)
    {
      var output := SlowByte(op, srcs, j);
      res[j] := output;
      j := j + 1;
    }
    result := res[..];
  }

  lemma MaxIsLongest(srcs: seq<seq<bv8>>, n: nat)
    requires IsMax(srcs, n)
    ensures (forall i :: 0 <= i < |srcs| ==> |srcs[i]| <= n) && exists i :: 0 <= i < |srcs| && |srcs[i]| == n
  {
  }

  lemma ZeroHasNoBit(r: nat)
    requires r < 8
    ensures !TestByte(0, r)
  {
  }

  method SlowByte(op: Op, srcs: seq<seq<bv8>>, j: nat) returns (output: bv8)
    requires |srcs| >= 1
    ensures output == Folded(op, srcs, j, |srcs|)
  {
    output := ByteAt(srcs[0], j);
    if op.Not? {
      output := Not8(output);
    }
    for i := 1 to |srcs|
      invariant output == Folded(op, srcs, j, i)
    {
      output := ByteOp(op, output, ByteAt(srcs[i], j));
    }
  }
}
