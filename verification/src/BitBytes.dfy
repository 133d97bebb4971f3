/** Single bits of a byte, numbered from the lowest. */
module BitBytes {
  function UnitMask(bit: nat): bv8
    requires bit < 8
  {
    match bit
    case 0 => 1 case 1 => 2 case 2 => 4 case 3 => 8 case 4 => 16 case 5 => 32 case 6 => 64 case 7 => 128
  }

  lemma UnitMasks(a: nat, b: nat)
    requires a < 8 && b < 8
    ensures UnitMask(a) != 0
    ensures a != b ==> UnitMask(a) & UnitMask(b) == 0
  {
  }

  lemma MaskSelf(x: bv8, m: bv8)
    requires m != 0
    ensures (x | m) & m != 0 && (x & !m) & m == 0
  {
  }

  lemma MaskOther(x: bv8, m: bv8, m': bv8)
    requires m & m' == 0
    ensures (x | m) & m' == x & m' && (x & !m) & m' == x & m'
  {
  }

  predicate TestByte(x: bv8, bit: nat)
    requires bit < 8
  {
    x & UnitMask(bit) != 0
  }

  function SetByte(x: bv8, bit: nat): bv8
    requires bit < 8
  {
    x | UnitMask(bit)
  }

  function ClearByte(x: bv8, bit: nat): bv8
    requires bit < 8
  {
    x & !UnitMask(bit)
  }

  lemma BitEffects(x: bv8, a: nat, b: nat)
    requires a < 8 && b < 8
    ensures TestByte(SetByte(x, a), b) == (a == b || TestByte(x, b))
    ensures TestByte(ClearByte(x, a), b) == (a != b && TestByte(x, b))
  {
    hide UnitMask;
    UnitMasks(a, b);
    if a == b {
      MaskSelf(x, UnitMask(a));
    } else {
      MaskOther(x, UnitMask(a), UnitMask(b));
    }
  }
}
