/**
 `rev`, the parallel bit reversal of dict.c, on machine words.  It is proved to put the
 64 bits in the opposite order, which is what `Words.Reverse` does to a bit sequence.
 */
module BitReversal {
  type Machine = bv64

  const ALL_ONES: Machine := 0xFFFF_FFFF_FFFF_FFFF

  /** Group size, group mask and exchange of each of the six rounds. */
  function GroupSize(round: nat): Machine {
    match round
    case 0 => 32 case 1 => 16 case 2 => 8 case 3 => 4 case 4 => 2 case 5 => 1
    case _ => 0
  }

  function GroupMask(round: nat): Machine {
    match round
    case 0 => ALL_ONES
    case 1 => 0x0000_0000_FFFF_FFFF
    case 2 => 0x0000_FFFF_0000_FFFF
    case 3 => 0x00FF_00FF_00FF_00FF
    case 4 => 0x0F0F_0F0F_0F0F_0F0F
    case 5 => 0x3333_3333_3333_3333
    case _ => 0x5555_5555_5555_5555
  }

  function Exchange(v: Machine, round: nat): Machine {
    match round
    case 0 => ((v >> 32) & 0x0000_0000_FFFF_FFFF) | ((v << 32) & 0xFFFF_FFFF_0000_0000)
    case 1 => ((v >> 16) & 0x0000_FFFF_0000_FFFF) | ((v << 16) & 0xFFFF_0000_FFFF_0000)
    case 2 => ((v >> 8) & 0x00FF_00FF_00FF_00FF) | ((v << 8) & 0xFF00_FF00_FF00_FF00)
    case 3 => ((v >> 4) & 0x0F0F_0F0F_0F0F_0F0F) | ((v << 4) & 0xF0F0_F0F0_F0F0_F0F0)
    case 4 => ((v >> 2) & 0x3333_3333_3333_3333) | ((v << 2) & 0xCCCC_CCCC_CCCC_CCCC)
    case _ => ((v >> 1) & 0x5555_5555_5555_5555) | ((v << 1) & 0xAAAA_AAAA_AAAA_AAAA)
  }

  function Rounds(v: Machine, round: nat): Machine
    requires round <= 6
    decreases 6 - round
  {
    if round == 6 then v else Rounds(Exchange(v, round), round + 1)
  }

  function NextMask(mask: Machine, s: Machine): Machine
    requires s < 64
  {
    mask ^ (mask << s)
  }

  function Swapped(v: Machine, s: Machine, mask: Machine): Machine
    requires s < 64
  {
    ((v >> s) & mask) | ((v << s) & !mask)
  }

  function Halved(s: Machine): Machine {
    s >> 1
  }

  lemma RoundStep(v: Machine, round: nat, s: Machine, mask: Machine)
    requires round < 6 && s == GroupSize(round) && mask == GroupMask(round)
    ensures s < 64 && Halved(s) == GroupSize(round + 1)
    ensures NextMask(mask, s) == GroupMask(round + 1)
    ensures Swapped(v, s, NextMask(mask, s)) == Exchange(v, round)
  {
    if
    case round == 0 =>
    case round == 1 =>
    case round == 2 =>
    case round == 3 =>
    case round == 4 =>
    case round == 5 =>
  }

  /** The body of the reversal loop. */
  method SwapRound(v: Machine, s: Machine, mask: Machine, ghost round: nat)
    returns (v': Machine, s': Machine, mask': Machine)
    requires round < 6 && s == GroupSize(round) && mask == GroupMask(round)
    ensures s' == GroupSize(round + 1) && mask' == GroupMask(round + 1)
    ensures v' == Exchange(v, round)
  {
    hide *;
    RoundStep(v, round, s, mask);
    mask' := NextMask(mask, s);
    v' := Swapped(v, s, mask');
    s' := Halved(s);
  }

  // ---------- the rounds together reverse the bits ----------

  predicate Bit(v: Machine, i: Machine)
    requires i < 64
  {
    (v >> i) & 1 == 1
  }

  function Rev(v: Machine): Machine {
    var v := ((v >> 32) & 0x0000_0000_FFFF_FFFF) | ((v << 32) & 0xFFFF_FFFF_0000_0000);
    var v := ((v >> 16) & 0x0000_FFFF_0000_FFFF) | ((v << 16) & 0xFFFF_0000_FFFF_0000);
    var v := ((v >> 8) & 0x00FF_00FF_00FF_00FF) | ((v << 8) & 0xFF00_FF00_FF00_FF00);
    var v := ((v >> 4) & 0x0F0F_0F0F_0F0F_0F0F) | ((v << 4) & 0xF0F0_F0F0_F0F0_F0F0);
    var v := ((v >> 2) & 0x3333_3333_3333_3333) | ((v << 2) & 0xCCCC_CCCC_CCCC_CCCC);
    ((v >> 1) & 0x5555_5555_5555_5555) | ((v << 1) & 0xAAAA_AAAA_AAAA_AAAA)
  }

  lemma RoundsAreRev(v: Machine)
    ensures Rounds(v, 0) == Rev(v)
  {
    var v1 := Exchange(v, 0);
    var v2 := Exchange(v1, 1);
    var v3 := Exchange(v2, 2);
    var v4 := Exchange(v3, 3);
    var v5 := Exchange(v4, 4);
    assert Rounds(v5, 5) == Exchange(v5, 5);
    assert Rounds(v3, 3) == Rounds(v5, 5);
    assert Rounds(v1, 1) == Rounds(v3, 3);
  }

  lemma RevBit(v: Machine, i: Machine)
    requires i < 64
    ensures Bit(Rev(v), i) == Bit(v, 63 - i)
  {
  }

  /** `rev`: after the loop, bit i holds what was bit 63 - i. */
  method ReverseWord(word: Machine) returns (v: Machine)
    ensures forall i: Machine | i < 64 :: Bit(v, i) == Bit(word, 63 - i)
  {
    v := word;
    var s: Machine := 32;
    var mask: Machine := ALL_ONES;
    ghost var round := 0;
    while s > 0
      invariant 0 <= round <= 6
      invariant s == GroupSize(round) && mask == GroupMask(round)
      invariant Rounds(v, round) == Rounds(word, 0)
      decreases 6 - round
    {
      v, s, mask := SwapRound(v, s, mask, round);
      round := round + 1;
    }
    RoundsAreRev(word);
    forall i: Machine | i < 64
      ensures Bit(v, i) == Bit(word, 63 - i)
    {
      RevBit(word, i);
    }
  }
}
