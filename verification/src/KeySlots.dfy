/**
 The hash slot of a key: the CRC16 of the key, or of the tag between its first '{' and the next '}'.
 */
module KeySlots {
  import opened Common
  import opened Polynomials
  import opened Crc16
  import SlotNumbers
  import BitStrings

  type Key = seq<byte>

  type Slot = s: nat | s < SLOTS

  const OPEN: byte := 123   // '{'
  const CLOSE: byte := 125  // '}'

  function ByteOf(b: byte): bv8 {
    b as bv8
  }

  /** A key as the bytes that are hashed. */
  function Octets(key: Key): seq<bv8> {
    seq(|key|, i requires 0 <= i < |key| => ByteOf(key[i]))
  }

  /** The position of the first c at or after from, or the length of the key. */
  function FirstFrom(key: Key, c: byte, from: nat): (i: nat)
    requires from <= |key|
    ensures from <= i <= |key| && c !in key[from..i] && (i < |key| ==> key[i] == c)
    decreases |key| - from
  {
    if from == |key| || key[from] == c then from
    else
      var i := FirstFrom(key, c, from + 1);
      assert key[from..i] == [key[from]] + key[from + 1..i];
      i
  }

  lemma FirstIsFirst(key: Key, c: byte, from: nat, i: nat)
    requires from <= i <= |key| && c !in key[from..i] && (i < |key| ==> key[i] == c)
    ensures FirstFrom(key, c, from) == i
  {
    var j := FirstFrom(key, c, from);
  }

  /** The key is some bytes without '{', then '{', a nonempty tag without '}', then '}', then anything. */
  ghost predicate Tagged(key: Key, before: Key, tag: Key, after: Key) {
    key == before + [OPEN] + tag + [CLOSE] + after && OPEN !in before && CLOSE !in tag && tag != []
  }

  /** The part of the key that is hashed. */
  function HashedPart(key: Key): Key {
    var s := FirstFrom(key, OPEN, 0);
    if s == |key| then key
    else
      var e := FirstFrom(key, CLOSE, s + 1);
      if e == |key| || e == s + 1 then key else key[s + 1..e]
  }

  lemma TagIsHashed(key: Key, before: Key, tag: Key, after: Key)
    requires Tagged(key, before, tag, after)
    ensures HashedPart(key) == tag
  {
    var s, e := |before|, |before| + 1 + |tag|;
    assert key[0..s] == before && key[s] == OPEN;
    FirstIsFirst(key, OPEN, 0, s);
    assert key[s + 1..e] == tag && key[e] == CLOSE;
    FirstIsFirst(key, CLOSE, s + 1, e);
  }

  /** The whole key is hashed exactly when no part of it is a tag. */
  lemma UntaggedIsWhole(key: Key)
    ensures (exists before, tag, after :: Tagged(key, before, tag, after))
      || HashedPart(key) == key
    ensures forall before, tag, after :: Tagged(key, before, tag, after) ==> HashedPart(key) == tag != key
  {
    var s := FirstFrom(key, OPEN, 0);
    if s < |key| {
      var e := FirstFrom(key, CLOSE, s + 1);
      if e < |key| && e > s + 1 {
        assert key[0..s] == key[..s];
        assert key == key[..s] + [OPEN] + key[s + 1..e] + [CLOSE] + key[e + 1..];
        assert Tagged(key, key[..s], key[s + 1..e], key[e + 1..]);
      }
    }
    forall before, tag, after | Tagged(key, before, tag, after)
      ensures HashedPart(key) == tag != key
    {
      TagIsHashed(key, before, tag, after);
    }
  }

  function SlotOf(key: Key): Slot {
    Low14(CrcOf(Octets(HashedPart(key))))
  }

  function Low14(crc: bv16): Slot {
    SlotNumbers.Low14IsModulo(crc);
    SlotNumbers.Low14(crc)
  }

  /** The slot is the check modulo the number of slots. */
  lemma SlotIsModulo(key: Key)
    ensures SlotOf(key) == CrcOf(Octets(HashedPart(key))) as nat % 16384
  {
    hide CrcOf, Octets, HashedPart;
    SlotNumbers.Low14IsModulo(CrcOf(Octets(HashedPart(key))));
  }

  /** The slot is the number whose binary digits are the 14 lowest coefficients of the remainder. */
  lemma SlotIsRemainder(key: Key)
    ensures SlotOf(key) ==
      BitStrings.FromBits(Remainder(MessageBits(Octets(HashedPart(key))) + Zeros(16), XmodemTail())[2..])
  {
    hide CrcOf, Octets, HashedPart, MessageBits, Remainder, Zeros, XmodemTail, Bits, BitStrings.FromBits, SlotNumbers.Low14;
    CrcIsRemainder(Octets(HashedPart(key)));
    SlotNumbers.Low14IsNumber(CrcOf(Octets(HashedPart(key))));
  }

  /** Keys with the same tag are in the same slot, the slot of the tag as a key. */
  lemma SameTagSameSlot(key: Key, before: Key, tag: Key, after: Key)
    requires Tagged(key, before, tag, after)
    ensures SlotOf(key) == SlotOf(tag)
  {
    hide CrcOf, Low14, Octets;
    TagIsHashed(key, before, tag, after);
    var s := FirstFrom(tag, OPEN, 0);
    if s < |tag| {
      var e := FirstFrom(tag, CLOSE, s + 1);
    }
  }

  /** `keyHashSlot` */
  method KeyHashSlot(key: Key) returns (slot: nat)
    ensures slot == SlotOf(key) && slot == CrcOf(Octets(HashedPart(key))) as nat % 16384
  {
    SlotIsModulo(key);
    slot := HashTagSlot(key);
  }

  method HashTagSlot(key: Key) returns (slot: nat)
    ensures slot == SlotOf(key)
  {
    hide CrcOf, MessageBits, XmodemTail, Bits, Octets, Low14;
    var s := 0;
    while s < |key|
      invariant s <= |key| && FirstFrom(key, OPEN, 0) == FirstFrom(key, OPEN, s)
    {
      if key[s] == OPEN {
        break;
      }
      s := s + 1;
    }
    if s == |key| {
      var crc := Compute(Octets(key));
      return Low14(crc);
    }
    var e := s + 1;
    while e < |key|
      invariant s + 1 <= e <= |key| && FirstFrom(key, CLOSE, s + 1) == FirstFrom(key, CLOSE, e)
    {
      if key[e] == CLOSE {
        break;
      }
      e := e + 1;
    }
    if e == |key| || e == s + 1 {
      var crc := Compute(Octets(key));
      return Low14(crc);
    }
    var crc := Compute(Octets(key[s + 1..e]));
    return Low14(crc);
  }
}
