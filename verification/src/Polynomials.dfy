/**
 Polynomials over the two-element field as lists of coefficients, highest degree first, and their
 schoolbook long division.  A divisor of degree n is given by its n coefficients below the leading one.
 */
module Polynomials {
  type Poly = seq<bool>

  function Zeros(n: nat): (p: Poly)
    ensures |p| == n
  {
    seq(n, _ => false)
  }

  /** Add q to the leading coefficients of p. */
  function AddTop(p: Poly, q: Poly): (r: Poly)
    requires |q| <= |p|
    ensures |r| == |p|
  {
    seq(|p|, i requires 0 <= i < |p| => if i < |q| then p[i] != q[i] else p[i])
  }

  /** The remainder of p on division by the polynomial with a leading one and then tail. */
  function Remainder(p: Poly, tail: Poly): (r: Poly)
    ensures |r| == if |p| <= |tail| then |p| else |tail|
    decreases |p|
  {
    if |p| <= |tail| then p
    else if p[0] then Remainder(AddTop(p[1..], tail), tail)
    else Remainder(p[1..], tail)
  }

  function Quotient(p: Poly, tail: Poly): (q: Poly)
    ensures |q| == if |p| <= |tail| then 0 else |p| - |tail|
    decreases |p|
  {
    if |p| <= |tail| then []
    else [p[0]] + Quotient(if p[0] then AddTop(p[1..], tail) else p[1..], tail)
  }

  /** The product of q and the divisor. */
  function Multiply(q: Poly, tail: Poly): (p: Poly)
    ensures |p| == |q| + |tail|
    decreases |q|
  {
    if q == [] then Zeros(|tail|)
    else
      var rest := [false] + Multiply(q[1..], tail);
      if q[0] then AddTop(rest, [true] + tail) else rest
  }

  /** The remainder is one: p is the quotient times the divisor, plus the remainder. */
  lemma {:induction false} LongDivision(p: Poly, tail: Poly)
    requires |tail| <= |p|
    ensures var q := Quotient(p, tail);
      p == AddTop(Multiply(q, tail), Zeros(|q|) + Remainder(p, tail))
    decreases |p|
  {
    if |p| == |tail| {
      assert AddTop(Zeros(|p|), Zeros(0) + p) == p;
    } else {
      var next := if p[0] then AddTop(p[1..], tail) else p[1..];
      var q, r := Quotient(next, tail), Remainder(next, tail);
      assert Quotient(p, tail) == [p[0]] + q && Remainder(p, tail) == r;
      LongDivision(next, tail);
      hide AddTop, Zeros, Quotient, Remainder, Multiply;
      LongDivisionStep(p, next, q, r, tail);
    }
  }

  lemma LongDivisionStep(p: Poly, next: Poly, q: Poly, r: Poly, tail: Poly)
    requires |tail| < |p| && |tail| == |r| && |p| == 1 + |q| + |tail|
    requires next == (if p[0] then AddTop(p[1..], tail) else p[1..]) && next == AddTop(Multiply(q, tail), Zeros(|q|) + r)
    ensures p == AddTop(Multiply([p[0]] + q, tail), Zeros(|q| + 1) + r)
  {
    hide AddTop, Zeros, Multiply;
    MultiplyCons(p[0], q, tail);
    ZerosSucc(|q|);
    ConsConcat(false, Zeros(|q|), r);
    DivisionStep(p, next, Multiply(q, tail), Zeros(|q|) + r, tail);
  }

  lemma ConsConcat(b: bool, s: Poly, t: Poly)
    ensures [b] + s + t == [b] + (s + t)
  {
  }

  lemma MultiplyCons(b: bool, q: Poly, tail: Poly)
    ensures var rest := [false] + Multiply(q, tail);
      Multiply([b] + q, tail) == if b then AddTop(rest, [true] + tail) else rest
  {
    assert ([b] + q)[1..] == q;
  }

  lemma ZerosSucc(n: nat)
    ensures Zeros(n + 1) == [false] + Zeros(n)
  {
  }

  lemma DivisionStep(p: Poly, next: Poly, product: Poly, r: Poly, tail: Poly)
    requires |tail| < |p| && |next| == |p| - 1 == |product| == |r|
    requires next == (if p[0] then AddTop(p[1..], tail) else p[1..]) && next == AddTop(product, r)
    ensures p == AddTop(if p[0] then AddTop([false] + product, [true] + tail) else [false] + product, [false] + r)
  {
    hide AddTop;
    var sum := if p[0] then AddTop([false] + product, [true] + tail) else [false] + product;
    forall i | 0 <= i < |p|
      ensures p[i] == AddTop(sum, [false] + r)[i]
    {
      AddTopAt(sum, [false] + r, i);
      AddTopAt([false] + product, [true] + tail, i);
      if i > 0 {
        AddTopAt(product, r, i - 1);
        AddTopAt(p[1..], tail, i - 1);
      }
    }
  }

  lemma AddTopAt(p: Poly, q: Poly, i: nat)
    requires |q| <= |p| && i < |p|
    ensures AddTop(p, q)[i] == if i < |q| then p[i] != q[i] else p[i]
  {
  }

  /** A shift register that divides: one coefficient in, one step of the division. */
  function Shift(register: Poly, b: bool, tail: Poly): (r: Poly)
    requires 0 < |register| == |tail|
    ensures |r| == |tail|
  {
    var shifted := register[1..] + [false];
    if register[0] != b then AddTop(shifted, tail) else shifted
  }

  function ShiftAll(register: Poly, bits: Poly, tail: Poly): (r: Poly)
    requires 0 < |register| == |tail|
    ensures |r| == |tail|
    decreases |bits|
  {
    if bits == [] then register else ShiftAll(Shift(register, bits[0], tail), bits[1..], tail)
  }

  lemma {:induction false} ShiftAllConcat(register: Poly, a: Poly, b: Poly, tail: Poly)
    requires 0 < |register| == |tail|
    ensures ShiftAll(register, a + b, tail) == ShiftAll(ShiftAll(register, a, tail), b, tail)
    decreases |a|
  {
    hide Shift;
    if a == [] {
      assert a + b == b;
    } else {
      assert (a + b)[1..] == a[1..] + b;
      ShiftAllConcat(Shift(register, a[0], tail), a[1..], b, tail);
    }
  }

  /** Dropping the leading coefficient of a sum whose parts are as long. */
  lemma AddTopTail(p: Poly, register: Poly, tail: Poly)
    requires 0 < |register| == |tail| < |p|
    ensures AddTop(p, register)[1..] == AddTop(p[1..], register[1..] + [false])
    ensures AddTop(AddTop(p[1..], register[1..] + [false]), tail) == AddTop(p[1..], AddTop(register[1..] + [false], tail))
  {
  }

  /**
   The shift register computes remainders: after the bits of m it holds what long division leaves of
   m times x^n, with the initial register added to the leading coefficients.
   */
  lemma {:induction false} RegisterDivides(register: Poly, m: Poly, tail: Poly)
    requires 0 < |register| == |tail|
    ensures ShiftAll(register, m, tail) == Remainder(AddTop(m + Zeros(|tail|), register), tail)
    decreases |m|
  {
    var p := m + Zeros(|tail|);
    if m == [] {
      assert AddTop(p, register) == register;
    } else {
      assert p[1..] == m[1..] + Zeros(|tail|);
      AddTopTail(p, register, tail);
      RegisterDivides(Shift(register, m[0], tail), m[1..], tail);
      assert AddTop(p, register)[0] == (register[0] != m[0]);
    }
  }

  lemma DivisionOfMessage(m: Poly, tail: Poly)
    requires 0 < |tail|
    ensures ShiftAll(Zeros(|tail|), m, tail) == Remainder(m + Zeros(|tail|), tail)
  {
    RegisterDivides(Zeros(|tail|), m, tail);
    assert AddTop(m + Zeros(|tail|), Zeros(|tail|)) == m + Zeros(|tail|);
  }

  // ---------- what the register loses: nothing ----------

  /**
   With a divisor whose constant term is one, registers that end up equal after as many bits, at most
   as many as the register is long, were the same sum of register and bits.
   */
  lemma {:induction false} ShiftAllInjective(r: Poly, m: Poly, r': Poly, m': Poly, tail: Poly)
    requires 0 < |tail| == |r| == |r'| && tail[|tail| - 1]
    requires |m| == |m'| <= |tail|
    requires ShiftAll(r, m, tail) == ShiftAll(r', m', tail)
    ensures AddTop(r, m) == AddTop(r', m')
    decreases |m|
  {
    if m == [] {
      assert AddTop(r, m) == r && AddTop(r', m') == r';
    } else {
      var s, s' := Shift(r, m[0], tail), Shift(r', m'[0], tail);
      ShiftAllInjective(s, m[1..], s', m'[1..], tail);
      hide ShiftAll;
      LastTells(r, m[0], tail);
      LastTells(r', m'[0], tail);
      assert s[|tail| - 1] == s'[|tail| - 1] by {
        assert AddTop(s, m[1..])[|tail| - 1] == AddTop(s', m'[1..])[|tail| - 1];
      }
      forall i | 0 <= i < |tail|
        ensures AddTop(r, m)[i] == AddTop(r', m')[i]
      {
        if i > 0 {
          assert AddTop(s, m[1..])[i - 1] == AddTop(s', m'[1..])[i - 1];
          ShiftAt(r, m[0], tail, i);
          ShiftAt(r', m'[0], tail, i);
        }
      }
    }
  }

  lemma LastTells(r: Poly, b: bool, tail: Poly)
    requires 0 < |tail| == |r| && tail[|tail| - 1]
    ensures Shift(r, b, tail)[|tail| - 1] == (r[0] != b)
  {
  }

  lemma ShiftAt(r: Poly, b: bool, tail: Poly, i: nat)
    requires 0 < |tail| == |r| && 0 < i < |tail|
    ensures Shift(r, b, tail)[i - 1] == (r[i] != (r[0] != b && tail[i - 1]))
  {
  }

  /** Registers that differ still differ after the same bits, however many. */
  lemma {:induction false} DifferenceStays(r: Poly, r': Poly, m: Poly, tail: Poly)
    requires 0 < |tail| == |r| == |r'| && tail[|tail| - 1] && r != r'
    ensures ShiftAll(r, m, tail) != ShiftAll(r', m, tail)
    decreases |m|
  {
    if m != [] {
      var s, s' := Shift(r, m[0], tail), Shift(r', m[0], tail);
      if s == s' {
        ShiftOne(r, m[0], tail);
        ShiftOne(r', m[0], tail);
        ShiftAllInjective(r, [m[0]], r', [m[0]], tail);
        SameSum(r, r', [m[0]]);
      }
      DifferenceStays(s, s', m[1..], tail);
    }
  }

  lemma ShiftOne(r: Poly, b: bool, tail: Poly)
    requires 0 < |tail| == |r|
    ensures ShiftAll(r, [b], tail) == Shift(r, b, tail)
  {
    assert [b][1..] == [];
  }

  lemma SameSum(r: Poly, r': Poly, m: Poly)
    requires |r| == |r'| && |m| <= |r| && AddTop(r, m) == AddTop(r', m)
    ensures r == r'
  {
    forall i | 0 <= i < |r| ensures r[i] == r'[i] {
      assert AddTop(r, m)[i] == AddTop(r', m)[i];
    }
  }

  lemma SameRegister(r: Poly, m: Poly, m': Poly)
    requires |m| == |m'| <= |r| && AddTop(r, m) == AddTop(r, m')
    ensures m == m'
  {
    forall i | 0 <= i < |m| ensures m[i] == m'[i] {
      assert AddTop(r, m)[i] == AddTop(r, m')[i];
    }
  }

  /** Feeding a register its own contents clears it. */
  lemma {:induction false} SelfFeed(r: Poly, k: nat, tail: Poly)
    requires 0 < |tail| == |r| && k <= |r|
    ensures ShiftAll(r[k..] + Zeros(k), r[k..], tail) == Zeros(|r|)
    decreases |r| - k
  {
    if k == |r| {
      assert r[k..] + Zeros(k) == Zeros(|r|);
    } else {
      var s := r[k..] + Zeros(k);
      assert s[1..] + [false] == r[k + 1..] + Zeros(k + 1);
      assert r[k..][1..] == r[k + 1..];
      SelfFeed(r, k + 1, tail);
    }
  }

  lemma SelfFeedAll(r: Poly, tail: Poly)
    requires 0 < |tail| == |r|
    ensures ShiftAll(r, r, tail) == Zeros(|r|)
  {
    SelfFeed(r, 0, tail);
    assert r[0..] == r && r + Zeros(0) == r;
  }

  /** Two messages that differ, but only within as many bits as the register has, leave different remainders. */
  lemma BurstChanges(r: Poly, m: Poly, m': Poly, k: nat, e: nat, tail: Poly)
    requires 0 < |tail| == |r| && tail[|tail| - 1]
    requires |m| == |m'| && m != m' && k <= e <= |m| && e - k <= |tail|
    requires m[..k] == m'[..k] && m[e..] == m'[e..]
    ensures ShiftAll(r, m, tail) != ShiftAll(r, m', tail)
  {
    hide ShiftAll, AddTop;
    Pieces(m, k, e);
    Pieces(m', k, e);
    BurstBetween(r, m[..k], m[k..e], m'[k..e], m[e..], tail);
  }

  lemma Pieces(m: Poly, k: nat, e: nat)
    requires k <= e <= |m|
    ensures m == m[..k] + m[k..e] + m[e..]
  {
  }

  lemma ShiftAllPieces(r: Poly, a: Poly, w: Poly, b: Poly, tail: Poly)
    requires 0 < |tail| == |r|
    ensures ShiftAll(r, a + w + b, tail) == ShiftAll(ShiftAll(ShiftAll(r, a, tail), w, tail), b, tail)
  {
    hide ShiftAll;
    ShiftAllConcat(r, a + w, b, tail);
    ShiftAllConcat(r, a, w, tail);
  }

  lemma BurstBetween(r: Poly, a: Poly, w: Poly, w': Poly, b: Poly, tail: Poly)
    requires 0 < |tail| == |r| && tail[|tail| - 1] && |w| == |w'| <= |tail| && w != w'
    ensures ShiftAll(r, a + w + b, tail) != ShiftAll(r, a + w' + b, tail)
  {
    hide ShiftAll, AddTop;
    ShiftAllPieces(r, a, w, b, tail);
    ShiftAllPieces(r, a, w', b, tail);
    var before := ShiftAll(r, a, tail);
    if ShiftAll(before, w, tail) == ShiftAll(before, w', tail) {
      ShiftAllInjective(before, w, before, w', tail);
      SameRegister(before, w, w');
    }
    DifferenceStays(ShiftAll(before, w, tail), ShiftAll(before, w', tail), b, tail);
  }

  // ---------- eight bits at a time ----------

  /** Bits may be added to the register first and then shifted through. */
  lemma {:induction false} ShiftAllInput(r: Poly, m: Poly, tail: Poly)
    requires 0 < |tail| == |r| && |m| <= |r|
    ensures ShiftAll(r, m, tail) == ShiftAll(AddTop(r, m), Zeros(|m|), tail)
    decreases |m|
  {
    if m == [] {
      assert AddTop(r, m) == r;
    } else {
      var next := Shift(AddTop(r, m), false, tail);
      assert Zeros(|m|)[1..] == Zeros(|m| - 1);
      ShiftAllInput(Shift(r, m[0], tail), m[1..], tail);
      ShiftInputRest(r, m, tail);
    }
  }

  lemma ShiftInputRest(r: Poly, m: Poly, tail: Poly)
    requires 0 < |tail| == |r| && 0 < |m| <= |r|
    ensures AddTop(Shift(r, m[0], tail), m[1..]) == Shift(AddTop(r, m), false, tail)
  {
    assert AddTop(r, m)[0] == (r[0] != m[0]);
    forall i | 0 <= i < |r|
      ensures AddTop(Shift(r, m[0], tail), m[1..])[i] == Shift(AddTop(r, m), false, tail)[i]
    {
    }
  }

  /** Shifting is linear. */
  lemma {:induction false} ShiftAllSum(r: Poly, w: Poly, n: nat, tail: Poly)
    requires 0 < |tail| == |r| == |w|
    ensures ShiftAll(AddTop(r, w), Zeros(n), tail) == AddTop(ShiftAll(r, Zeros(n), tail), ShiftAll(w, Zeros(n), tail))
    decreases n
  {
    hide AddTop, Shift;
    if n > 0 {
      assert Zeros(n)[1..] == Zeros(n - 1);
      ShiftSum(r, w, tail);
      ShiftAllSum(Shift(r, false, tail), Shift(w, false, tail), n - 1, tail);
    }
  }

  lemma ShiftSum(r: Poly, w: Poly, tail: Poly)
    requires 0 < |tail| == |r| == |w|
    ensures Shift(AddTop(r, w), false, tail) == AddTop(Shift(r, false, tail), Shift(w, false, tail))
  {
    forall i | 0 <= i < |r|
      ensures Shift(AddTop(r, w), false, tail)[i] == AddTop(Shift(r, false, tail), Shift(w, false, tail))[i]
    {
    }
  }

  /** Low coefficients that do not reach the top are only shifted. */
  lemma {:induction false} ShiftAllLow(r: Poly, low: Poly, n: nat, tail: Poly)
    requires 0 < |tail| == |r| == n + |low|
    ensures ShiftAll(AddTop(r, Zeros(n) + low), Zeros(n), tail) == AddTop(ShiftAll(r, Zeros(n), tail), low + Zeros(n))
    decreases n
  {
    hide AddTop, Shift;
    if n == 0 {
      assert Zeros(0) + low == low == low + Zeros(0);
    } else {
      assert Zeros(n)[1..] == Zeros(n - 1);
      ShiftLow(r, Zeros(n) + low, tail);
      assert (Zeros(n) + low)[1..] + [false] == Zeros(n - 1) + (low + [false]);
      ShiftAllLow(Shift(r, false, tail), low + [false], n - 1, tail);
      assert low + [false] + Zeros(n - 1) == low + Zeros(n);
    }
  }

  lemma ShiftLow(r: Poly, w: Poly, tail: Poly)
    requires 0 < |tail| == |r| == |w| && !w[0]
    ensures Shift(AddTop(r, w), false, tail) == AddTop(Shift(r, false, tail), w[1..] + [false])
  {
    forall i | 0 <= i < |r|
      ensures Shift(AddTop(r, w), false, tail)[i] == AddTop(Shift(r, false, tail), w[1..] + [false])[i]
    {
    }
  }

  /** What a table of the top coefficients gives: the rest of the register is only shifted. */
  lemma ShiftAllByTable(r: Poly, top: Poly, low: Poly, m: Poly, head: Poly, tail: Poly)
    requires 0 < |tail| == |r| && r == top + low && |m| == |top| && head == AddTop(top, m) + Zeros(|low|)
    ensures ShiftAll(r, m, tail) == AddTop(ShiftAll(head, Zeros(|m|), tail), low + Zeros(|m|))
  {
    hide ShiftAll, AddTop, Zeros;
    ShiftAllInput(r, m, tail);
    SplitSum(top, low, m);
    ShiftAllLow(head, low, |m|, tail);
  }

  lemma SplitSum(top: Poly, low: Poly, m: Poly)
    requires |m| == |top|
    ensures AddTop(top + low, m) == AddTop(AddTop(top, m) + Zeros(|low|), Zeros(|m|) + low)
  {
  }
}
