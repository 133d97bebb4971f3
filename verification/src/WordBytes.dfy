/** Eight bytes as a 64-bit word, the first one highest, and back. */
module WordBytes {
  function Octet(w: bv64): bv64 {
    w << 8
  }

  function Wide(b: bv8): bv64 {
    b as bv64
  }

  /** A byte shifted into a word from below. */
  function Push(w: bv64, b: bv8): bv64 {
    (w << 8) | Wide(b)
  }

  function TopByte(w: bv64): bv8 {
    (w >> 56) as bv8
  }

  /** Eight bytes pushed into a word in order. */
  function Assemble(c: seq<bv8>): bv64
    requires |c| == 8
  {
    Push(Push(Push(Push(Push(Push(Push(Push(0, c[0]), c[1]), c[2]), c[3]), c[4]), c[5]), c[6]), c[7])
  }

  /** The first n bytes pushed. */
  function Pushed(c: seq<bv8>, n: nat): bv64
    requires n <= |c|
  {
    if n == 0 then 0 else Push(Pushed(c, n - 1), c[n - 1])
  }

  lemma PushedAll(c: seq<bv8>)
    requires |c| == 8
    ensures Pushed(c, 8) == Assemble(c)
  {
    hide Push;
    assert Pushed(c, 1) == Push(0, c[0]);
    assert Pushed(c, 2) == Push(Pushed(c, 1), c[1]);
    assert Pushed(c, 4) == Push(Push(Pushed(c, 2), c[2]), c[3]);
    assert Pushed(c, 6) == Push(Push(Pushed(c, 4), c[4]), c[5]);
    assert Pushed(c, 8) == Push(Push(Pushed(c, 6), c[6]), c[7]);
  }

  function Octets(w: bv64, i: nat): bv64 {
    if i == 0 then w else Octet(Octets(w, i - 1))
  }

  function By16(w: bv64): bv64 {
    w << 16
  }

  function By24(w: bv64): bv64 {
    w << 24
  }

  function By32(w: bv64): bv64 {
    w << 32
  }

  function By40(w: bv64): bv64 {
    w << 40
  }

  function By48(w: bv64): bv64 {
    w << 48
  }

  function By56(w: bv64): bv64 {
    w << 56
  }

  lemma BytesBack(c0: bv8, c1: bv8, c2: bv8, c3: bv8, c4: bv8, c5: bv8, c6: bv8, c7: bv8)
    ensures var w := Push(Push(Push(Push(Push(Push(Push(Push(0, c0), c1), c2), c3), c4), c5), c6), c7);
      && TopByte(w) == c0 && TopByte(Octet(w)) == c1 && TopByte(By16(w)) == c2 && TopByte(By24(w)) == c3
      && TopByte(By32(w)) == c4 && TopByte(By40(w)) == c5 && TopByte(By48(w)) == c6 && TopByte(By56(w)) == c7
  {
  }

  lemma By16Is(w: bv64)
    ensures Octet(Octet(w)) == By16(w)
  {
  }

  lemma By24Is(w: bv64)
    ensures Octet(By16(w)) == By24(w)
  {
  }

  lemma By32Is(w: bv64)
    ensures Octet(By24(w)) == By32(w)
  {
  }

  lemma By40Is(w: bv64)
    ensures Octet(By32(w)) == By40(w)
  {
  }

  lemma By48Is(w: bv64)
    ensures Octet(By40(w)) == By48(w)
  {
  }

  lemma By56Is(w: bv64)
    ensures Octet(By48(w)) == By56(w)
  {
  }

  lemma OctetsStep(w: bv64, i: nat)
    ensures Octets(w, 0) == w && Octets(w, i + 1) == Octet(Octets(w, i))
  {
  }

  lemma OctetsAre(w: bv64)
    ensures Octets(w, 0) == w && Octets(w, 1) == Octet(w) && Octets(w, 2) == By16(w) && Octets(w, 3) == By24(w)
    ensures Octets(w, 4) == By32(w) && Octets(w, 5) == By40(w) && Octets(w, 6) == By48(w) && Octets(w, 7) == By56(w)
  {
    hide *;
    By16Is(w);
    By24Is(w);
    By32Is(w);
    By40Is(w);
    By48Is(w);
    By56Is(w);
    OctetsStep(w, 0);
    OctetsStep(w, 1);
    OctetsStep(w, 2);
    OctetsStep(w, 3);
    OctetsStep(w, 4);
    OctetsStep(w, 5);
    OctetsStep(w, 6);
  }

  lemma BytesOf(c: seq<bv8>)
    requires |c| == 8
    ensures TopByte(Octets(Assemble(c), 0)) == c[0] && TopByte(Octets(Assemble(c), 1)) == c[1]
    ensures TopByte(Octets(Assemble(c), 2)) == c[2] && TopByte(Octets(Assemble(c), 3)) == c[3]
    ensures TopByte(Octets(Assemble(c), 4)) == c[4] && TopByte(Octets(Assemble(c), 5)) == c[5]
    ensures TopByte(Octets(Assemble(c), 6)) == c[6] && TopByte(Octets(Assemble(c), 7)) == c[7]
  {
    var w := Push(Push(Push(Push(Push(Push(Push(Push(0, c[0]), c[1]), c[2]), c[3]), c[4]), c[5]), c[6]), c[7]);
    assert w == Assemble(c);
    hide *;
    BytesBack(c[0], c[1], c[2], c[3], c[4], c[5], c[6], c[7]);
    OctetsAre(w);
  }

  lemma ByteOf(c: seq<bv8>, i: nat)
    requires |c| == 8 && i < 8
    ensures TopByte(Octets(Assemble(c), i)) == c[i]
  {
    hide *;
    BytesOf(c);
  }

  lemma {:induction false} SameWord(c: seq<bv8>, d: seq<bv8>)
    requires |c| == |d| == 8 && Assemble(c) == Assemble(d)
    ensures c == d
  {
    hide Assemble, TopByte, Octets;
    forall i | 0 <= i < 8 ensures c[i] == d[i] {
      ByteOf(c, i);
      ByteOf(d, i);
    }
  }
}
