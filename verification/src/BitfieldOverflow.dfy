/**
 Values that do not fit a bitfield: the two overflow checks, and SET and INCRBY built on them.
 Machine integers are explicit: uint64_t wraps, and where an int64_t subtraction leaves its range,
 which C leaves undefined, the model wraps.
 */
module BitfieldOverflow {
  import opened Common
  import opened Words
  import opened BitStrings
  import opened Bitfields

  datatype Overflow = Wrap | Sat | Fail

  /** The return value of a check and, when it is not zero, the limit it hands back, if any. */
  datatype Check = Check(code: int, limit: Option<int>)

  predicate IsInt64(x: int) {
    -TWO_TO_63 <= x < TWO_TO_63
  }

  function UMax(bits: nat): nat {
    Pow2(bits) - 1
  }

  function SMax(bits: nat): nat
    requires bits > 0
  {
    Pow2(bits - 1) - 1
  }

  function SMin(bits: nat): int
    requires bits > 0
  {
    -1 - SMax(bits)
  }

  // ---------- the checks ----------

  /** `checkUnsignedBitfieldOverflow` */
  function CheckUnsignedBitfieldOverflow(value: nat, incr: int, bits: nat, owtype: Overflow): Check
    requires value < TWO_TO_64 && IsInt64(incr) && 0 < bits <= 63
  {
    var max := UMax(bits);
    var maxincr := Int64(max - value);
    var minincr := Int64(0 - value);
    if value > max || (incr > 0 && incr > maxincr) then
      match owtype
      case Wrap => Check(1, Some(UInt64(value + incr) % Pow2(bits)))
      case Sat => Check(1, Some(max))
      case Fail => Check(1, None)
    else if incr < 0 && incr < minincr then
      match owtype
      case Wrap => Check(1, Some(UInt64(value + incr) % Pow2(bits)))
      case Sat => Check(-1, Some(0))
      case Fail => Check(-1, None)
    else Check(0, None)
  }

  /** `checkSignedBitfieldOverflow` */
  function CheckSignedBitfieldOverflow(value: int, incr: int, bits: nat, owtype: Overflow): Check
    requires IsInt64(value) && IsInt64(incr) && 0 < bits <= 63
  {
    var max := SMax(bits);
    var min := SMin(bits);
    var maxincr := Int64(max - value);
    var minincr := Int64(min - value);
    if value > max || incr > maxincr || (value >= 0 && incr > 0 && incr > maxincr) then
      match owtype
      case Wrap => Check(1, Some(WrapSigned(value, incr, bits)))
      case Sat => Check(1, Some(max))
      case Fail => Check(1, None)
    else if value < min || incr < minincr || (value < 0 && incr < 0 && incr < minincr) then
      match owtype
      case Wrap => Check(1, Some(WrapSigned(value, incr, bits)))
      case Sat => Check(-1, Some(min))
      case Fail => Check(-1, None)
    else Check(0, None)
  }

  /** The bits from the width up become copies of the sign bit. */
  function WrapSigned(value: int, incr: int, bits: nat): int
    requires 0 < bits <= 63
  {
    var c := UInt64(UInt64(value) + UInt64(incr)) % Pow2(bits);
    Int64(if c >= Pow2(bits - 1) then c + (TWO_TO_64 - Pow2(bits)) else c)
  }

  // ---------- what they should say ----------

  predicate Fits(x: int, bits: nat, signed: bool)
    requires bits > 0
  {
    if signed then SMin(bits) <= x <= SMax(bits) else 0 <= x <= UMax(bits)
  }

  /** x modulo two to the width, in the range of the type. */
  function Wrapped(x: int, bits: nat, signed: bool): int
    requires bits > 0
  {
    if signed then Signed(x % Pow2(bits), bits) else x % Pow2(bits)
  }

  /** The nearest value that fits. */
  function Saturated(x: int, bits: nat, signed: bool): int
    requires bits > 0
  {
    if signed then (if x > SMax(bits) then SMax(bits) else if x < SMin(bits) then SMin(bits) else x)
    else if x > UMax(bits) then UMax(bits) else if x < 0 then 0 else x
  }

  function Distance(x: int, y: int): nat {
    if x < y then y - x else x - y
  }

  /** What saturates is in range, nothing in range is nearer, and what fits is left alone. */
  lemma SaturatedIsNearest(x: int, bits: nat, signed: bool)
    requires 0 < bits <= 63
    ensures Fits(Saturated(x, bits, signed), bits, signed)
    ensures Fits(x, bits, signed) ==> Saturated(x, bits, signed) == x
    ensures forall y :: Fits(y, bits, signed) ==> Distance(x, Saturated(x, bits, signed)) <= Distance(x, y)
  {
    hide Pow2;
    WidthFacts(bits);
  }

  /** The limit a check should hand back for a sum that does not fit. */
  function Limit(x: int, bits: nat, signed: bool, owtype: Overflow): Option<int>
    requires bits > 0
  {
    match owtype
    case Wrap => Some(Wrapped(x, bits, signed))
    case Sat => Some(Saturated(x, bits, signed))
    case Fail => None
  }

  lemma WidthFacts(bits: nat)
    requires 0 < bits <= 63
    ensures Pow2(bits) == 2 * Pow2(bits - 1) && 1 <= Pow2(bits - 1) && Pow2(bits) <= TWO_TO_63
  {
    Twice(bits);
  }

  /** What wraps is in range and congruent. */
  lemma WrappedFits(x: int, bits: nat, signed: bool)
    requires 0 < bits <= 63
    ensures Fits(Wrapped(x, bits, signed), bits, signed)
    ensures Wrapped(x, bits, signed) % Pow2(bits) == x % Pow2(bits)
    ensures Fits(x, bits, signed) ==> Wrapped(x, bits, signed) == x
  {
    hide Pow2;
    WidthFacts(bits);
    var r := x % Pow2(bits);
    SmallMod(r, Pow2(bits));
    AddModulus(r - Pow2(bits), Pow2(bits));
    if 0 <= x < Pow2(bits) {
      SmallMod(x, Pow2(bits));
    } else if signed && Fits(x, bits, signed) {
      AddModulus(x, Pow2(bits));
      SmallMod(x + Pow2(bits), Pow2(bits));
    }
  }

  /**
   For a value that fits, the unsigned check is nonzero exactly when the sum does not fit, and its
   limit is the sum wrapped or saturated.  The sign tells an underflow, except when it wraps.
   */
  lemma UnsignedCheck(value: nat, incr: int, bits: nat, owtype: Overflow)
    requires 0 < bits <= 63 && IsInt64(incr) && value < TWO_TO_64 && Fits(value, bits, false)
    ensures var check := CheckUnsignedBitfieldOverflow(value, incr, bits, owtype);
      && (check.code == 0 <==> Fits(value + incr, bits, false))
      && (check.code != 0 ==> check.limit == Limit(value + incr, bits, false, owtype))
      && (check.code == -1 <==> value + incr < 0 && !owtype.Wrap?)
  {
    hide Pow2, UInt64, Int64;
    WidthFacts(bits);
    Int64Of(UMax(bits) - value);
    Int64Of(0 - value);
    UnsignedModulo(value + incr, bits);
  }

  /** A value to be set, as a uint64_t. */
  lemma UnsignedSetCheck(value: nat, bits: nat, owtype: Overflow)
    requires 0 < bits <= 63 && value < TWO_TO_64
    ensures var check := CheckUnsignedBitfieldOverflow(value, 0, bits, owtype);
      && (check.code == 0 <==> Fits(value, bits, false))
      && (check.code != 0 ==> check.limit == Limit(value, bits, false, owtype))
  {
    hide Pow2;
    WidthFacts(bits);
    UnsignedModulo(value, bits);
  }

  lemma WrapSignedIsWrapped(value: int, incr: int, bits: nat)
    requires 0 < bits <= 63
    ensures WrapSigned(value, incr, bits) == Wrapped(value + incr, bits, true)
  {
    hide Pow2, UInt64, Int64;
    WidthFacts(bits);
    UInt64Sum(value, incr);
    UnsignedModulo(value + incr, bits);
    var c := (value + incr) % Pow2(bits);
    Int64Of(if c >= Pow2(bits - 1) then c - Pow2(bits) else c);
  }

  lemma UInt64Sum(a: int, b: int)
    ensures UInt64(UInt64(a) + UInt64(b)) == UInt64(a + b)
  {
    var k := a / TWO_TO_64 + b / TWO_TO_64;
    assert a + b == k * TWO_TO_64 + (UInt64(a) + UInt64(b));
    AddMultiple(UInt64(a) + UInt64(b), k, TWO_TO_64);
  }

  lemma Int64Of(x: int)
    requires IsInt64(x)
    ensures Int64(x) == x && Int64(x + TWO_TO_64) == x
  {
  }

  /** The same for the signed check. */
  lemma SignedCheck(value: int, incr: int, bits: nat, owtype: Overflow)
    requires 0 < bits <= 63 && IsInt64(incr) && IsInt64(value) && Fits(value, bits, true)
    ensures var check := CheckSignedBitfieldOverflow(value, incr, bits, owtype);
      && (check.code == 0 <==> Fits(value + incr, bits, true))
      && (check.code != 0 ==> check.limit == Limit(value + incr, bits, true, owtype))
      && (check.code == -1 <==> value + incr < SMin(bits) && !owtype.Wrap?)
  {
    hide Pow2, WrapSigned, Int64;
    WidthFacts(bits);
    Int64Of(SMax(bits) - value);
    Int64Of(SMin(bits) - value);
    WrapSignedIsWrapped(value, incr, bits);
  }

  /**
   A value to be set need not fit.  The check still tells whether it does, and its limit is right
   exactly when it does not saturate or the value is not so low that max - value leaves the int64_t range.
   */
  lemma SignedSetCheck(value: int, bits: nat, owtype: Overflow)
    requires 0 < bits <= 63 && IsInt64(value)
    ensures var check := CheckSignedBitfieldOverflow(value, 0, bits, owtype);
      && (check.code == 0 <==> Fits(value, bits, true))
      && (check.code != 0 ==>
            (check.limit == Limit(value, bits, true, owtype) <==> !owtype.Sat? || value >= SMax(bits) - (TWO_TO_63 - 1)))
      && (owtype.Sat? && value < SMax(bits) - (TWO_TO_63 - 1) ==> check == Check(1, Some(SMax(bits))))
  {
    hide Pow2, WrapSigned;
    WidthFacts(bits);
    WrapSignedIsWrapped(value, 0, bits);
  }

  /** Saturating the least int64_t into eight signed bits gives the greatest value, not the least. */
  lemma SaturatesUpwards()
    ensures Fits(-128, 8, true) && Saturated(-TWO_TO_63, 8, true) == -128
    ensures CheckSignedBitfieldOverflow(-TWO_TO_63, 0, 8, Sat) == Check(1, Some(127))
  {
    hide Pow2;
    Pow2Values();
    Twice(8);
  }

  // ---------- SET and INCRBY ----------

  datatype Write = Set(value: int) | IncrBy(incr: int)

  function OldValue(bits: seq<bool>, offset: nat, width: nat, signed: bool): int
    requires 0 < width && offset + width <= |bits|
  {
    var u := Field(bits, offset, width);
    if signed then Signed(u, width) else u
  }

  /** The value a write aims at: SET of an unsigned field takes its argument as a uint64_t. */
  function Target(w: Write, was: int, signed: bool): int {
    match w
    case Set(value) => if signed then value else UInt64(value)
    case IncrBy(incr) => was + incr
  }

  /** What ends up in the field, if anything is written. */
  function Stored(w: Write, was: int, width: nat, signed: bool, owtype: Overflow): Option<int>
    requires width > 0
  {
    var target := Target(w, was, signed);
    if Fits(target, width, signed) then Some(target)
    else if TooLow(w, width, signed, owtype) then Some(SMax(width))
    else Limit(target, width, signed, owtype)
  }

  /** The one case in which the limit is wrong. */
  predicate TooLow(w: Write, width: nat, signed: bool, owtype: Overflow)
    requires width > 0
  {
    signed && owtype.Sat? && w.Set? && w.value < SMax(width) - (TWO_TO_63 - 1)
  }

  /**
   What is stored, in so many words: the value that is set, taken as a uint64_t for an unsigned field, or the sum, if it
   fits; otherwise a fitting value congruent to it, or the nearest fitting one, or nothing.  A set value
   so low that the code goes wrong is saturated to the greatest value.
   */
  lemma StoredMeans(w: Write, was: int, width: nat, signed: bool, owtype: Overflow)
    requires 0 < width <= 63
    ensures var aim := if w.IncrBy? then was + w.incr else if signed then w.value else w.value % 0x1_0000_0000_0000_0000;
      var stored := Stored(w, was, width, signed, owtype);
      && (Fits(aim, width, signed) ==> stored == Some(aim))
      && (!Fits(aim, width, signed) ==>
            match owtype
            case Fail => stored == None
            case Wrap => stored.Some? && Fits(stored.value, width, signed) && stored.value % Pow2(width) == aim % Pow2(width)
            case Sat =>
              && stored.Some? && Fits(stored.value, width, signed)
              && if signed && w.Set? && w.value < SMax(width) - 0x7FFF_FFFF_FFFF_FFFF then stored.value == SMax(width)
                 else forall y :: Fits(y, width, signed) ==> Distance(aim, stored.value) <= Distance(aim, y))
  {
    hide Pow2, Wrapped, Saturated, Distance;
    WidthFacts(width);
    var aim := Target(w, was, signed);
    WrappedFits(aim, width, signed);
    SaturatedIsNearest(aim, width, signed);
  }

  function Argument(w: Write): int {
    match w
    case Set(value) => value
    case IncrBy(incr) => incr
  }

  /** A SET or an INCRBY of `bitfieldCommand`, on a string that is long enough. */
  method ApplyWrite(p: array<bv8>, w: Write, offset: nat, width: nat, signed: bool, owtype: Overflow) returns (reply: Option<int>)
    requires 0 < width <= 63 && offset + width <= 8 * p.Length && IsInt64(Argument(w))
    modifies p
    ensures var before := OldValue(old(Bits(p[..])), offset, width, signed);
      var stored := Stored(w, before, width, signed, owtype);
      && (stored.None? ==> reply == None && Bits(p[..]) == old(Bits(p[..])))
      && (stored.Some? ==>
            && reply == Some(if w.Set? then before else stored.value)
            && Bits(p[..]) == Replaced(old(Bits(p[..])), offset, ToBits(UInt64(stored.value), width)))
  {
    hide Bits, Field, Pow2, Replaced, ToBits, UInt64, Int64, Wrapped, Saturated, WrapSigned;
    WidthFacts(width);
    if signed {
      var oldval := GetSignedBitfield(p[..], offset, width);
      var newval, check;
      match w {
        case IncrBy(incr) =>
          newval := oldval + incr;
          check := CheckSignedBitfieldOverflow(oldval, incr, width, owtype);
          SignedCheck(oldval, incr, width, owtype);
        case Set(value) =>
          newval := value;
          check := CheckSignedBitfieldOverflow(value, 0, width, owtype);
          SignedSetCheck(value, width, owtype);
      }
      LimitFits(newval, width, true, owtype);
      hide CheckSignedBitfieldOverflow;
      if check.code != 0 && owtype.Fail? {
        return None;
      }
      if check.code != 0 {
        newval := check.limit.value;
      }
      SetSignedBitfield(p, offset, width, newval);
      reply := Some(if w.Set? then oldval else newval);
    } else {
      var oldval := GetUnsignedBitfield(p[..], offset, width);
      var newval: int, check;
      match w {
        case IncrBy(incr) =>
          newval := oldval + incr;
          check := CheckUnsignedBitfieldOverflow(oldval, incr, width, owtype);
          UnsignedCheck(oldval, incr, width, owtype);
        case Set(value) =>
          newval := UInt64(value);
          check := CheckUnsignedBitfieldOverflow(UInt64(value), 0, width, owtype);
          UnsignedSetCheck(UInt64(value), width, owtype);
      }
      LimitFits(newval, width, false, owtype);
      hide CheckUnsignedBitfieldOverflow;
      if check.code != 0 && owtype.Fail? {
        return None;
      }
      if check.code != 0 {
        newval := check.limit.value;
      }
      UInt64Same(newval);
      SetUnsignedBitfield(p, offset, width, newval);
      reply := Some(if w.Set? then oldval else newval);
    }
  }

  lemma UInt64Same(x: int)
    requires 0 <= x < TWO_TO_64
    ensures UInt64(x) == x
  {
  }

  lemma LimitFits(x: int, bits: nat, signed: bool, owtype: Overflow)
    requires 0 < bits <= 63
    ensures Limit(x, bits, signed, owtype).Some? <==> !owtype.Fail?
    ensures Limit(x, bits, signed, owtype).Some? ==> Fits(Limit(x, bits, signed, owtype).value, bits, signed)
    ensures forall y :: Fits(y, bits, signed) ==> IsInt64(y) && (!signed ==> 0 <= y < TWO_TO_64)
  {
    hide Pow2, Wrapped;
    WidthFacts(bits);
    WrappedFits(x, bits, signed);
  }
}
