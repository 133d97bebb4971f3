/**
 The AOF rewrite buffer: a list of fixed-size blocks that collects what is written to the data set
 while a child rewrites the file, and is drained through a pipe and, at the end, into the new file.
 */
module AofRewriteBuffer {
  import opened Common

  const BLOCK_SIZE: nat := 1024 * 1024 * 10

  datatype Block = Block(data: seq<byte>, free: nat)

  /** The result of a write(2): an error, or the number of bytes taken (at most the bytes offered). */
  datatype WriteResult = Failed | Wrote(n: nat)

  function Concat(blocks: seq<Block>): seq<byte> {
    if blocks == [] then [] else blocks[0].data + Concat(blocks[1..])
  }

  lemma {:induction false} ConcatSnoc(blocks: seq<Block>, b: Block)
    ensures Concat(blocks + [b]) == Concat(blocks) + b.data
  {
    if blocks == [] {
      assert blocks + [b] == [b] && [b][1..] == [];
    } else {
      assert (blocks + [b])[1..] == blocks[1..] + [b];
      ConcatSnoc(blocks[1..], b);
    }
  }

  function Min(a: nat, b: nat): nat {
    if a < b then a else b
  }

  /** The write for block i took all len bytes. */
  predicate WroteAll(results: seq<WriteResult>, i: nat, len: nat) {
    i < |results| && results[i].Wrote? && results[i].n >= len
  }

  /** A block without its first n bytes. */
  function Taken(b: Block, n: nat): Block
    requires n <= |b.data|
  {
    Block(b.data[n..], b.free + n)
  }

  /** How many bytes successive writes take: they go on until one fails, takes nothing, or nothing is left. */
  function Accepted(blocks: seq<Block>, results: seq<WriteResult>): nat
    decreases |results|, |blocks|
  {
    if blocks == [] then 0
    else if blocks[0].data == [] then Accepted(blocks[1..], results)
    else if results == [] || results[0].Failed? || results[0].n == 0 then 0
    else
      var n := Min(results[0].n, |blocks[0].data|);
      n + Accepted([Taken(blocks[0], n)] + blocks[1..], results[1..])
  }

  predicate Good(r: WriteResult) {
    r.Wrote? && r.n > 0
  }

  function Offered(results: seq<WriteResult>): nat {
    if results == [] then 0 else (if results[0].Wrote? then results[0].n else 0) + Offered(results[1..])
  }

  /** Of a single block, the writes up to the first that fails or takes nothing take what they offer. */
  lemma {:induction false} AcceptedOfBlock(b: Block, results: seq<WriteResult>, k: nat)
    requires k <= |results| && (k < |results| ==> !Good(results[k])) && forall i :: 0 <= i < k ==> Good(results[i])
    ensures Accepted([b], results) == if Offered(results[..k]) < |b.data| then Offered(results[..k]) else |b.data|
    decreases k
  {
    var none: seq<Block> := [b][1..];
    assert none == [];
    if b.data != [] && k > 0 {
      var n := Min(results[0].n, |b.data|);
      assert results[..k][1..] == results[1..][..k - 1];
      assert [Taken(b, n)] + none == [Taken(b, n)];
      AcceptedOfBlock(Taken(b, n), results[1..], k - 1);
    }
  }

  /** Enough writes that take something take everything. */
  lemma {:induction false} AcceptedAll(blocks: seq<Block>, results: seq<WriteResult>)
    requires (forall i :: 0 <= i < |results| ==> Good(results[i])) && |results| >= |Concat(blocks)|
    ensures Accepted(blocks, results) == |Concat(blocks)|
    decreases |results|, |blocks|
  {
    if blocks != [] {
      if blocks[0].data == [] {
        AcceptedAll(blocks[1..], results);
      } else {
        var n := Min(results[0].n, |blocks[0].data|);
        var rest := [Taken(blocks[0], n)] + blocks[1..];
        assert rest[1..] == blocks[1..];
        AcceptedAll(rest, results[1..]);
      }
    }
  }

  /** One step of `Accepted`, with the results taken from number `calls` on. */
  lemma AcceptedAt(blocks: seq<Block>, results: seq<WriteResult>, calls: nat)
    requires calls <= |results|
    ensures Accepted(blocks, results[calls..]) ==
      if blocks == [] then 0
      else if blocks[0].data == [] then Accepted(blocks[1..], results[calls..])
      else if calls == |results| || results[calls].Failed? || results[calls].n == 0 then 0
      else
        var n := Min(results[calls].n, |blocks[0].data|);
        n + Accepted([Taken(blocks[0], n)] + blocks[1..], results[calls + 1..])
  {
    if calls < |results| {
      assert results[calls..][1..] == results[calls + 1..];
    }
  }

  lemma PrefixExtends(s: seq<byte>, done: nat, n: nat)
    requires done + n <= |s|
    ensures s[..done + n] == s[..done] + s[done..done + n]
  {
  }

  lemma Regroup(a: seq<byte>, b: seq<byte>, c: seq<byte>)
    ensures a + (b + c) == a + b + c
  {
  }

  class RewriteBuffer {
    var blocks: seq<Block>

    ghost predicate Valid()
      reads this
    {
      forall i :: 0 <= i < |blocks| ==> |blocks[i].data| + blocks[i].free == BLOCK_SIZE
    }

    ghost function Contents(): seq<byte>
      reads this
    {
      Concat(blocks)
    }

    /** `aofRewriteBufferReset` */
    constructor ()
      ensures Valid() && Contents() == []
    {
      blocks := [];
    }

    /** `aofRewriteBufferSize` */
    method Size() returns (size: nat)
      requires Valid()
      ensures size == |Contents()|
    {
      size := 0;
      for i := 0 to |blocks|
        invariant size == |Concat(blocks[..i])|
      {
        assert blocks[..i + 1] == blocks[..i] + [blocks[i]];
        ConcatSnoc(blocks[..i], blocks[i]);
        size := size + |blocks[i].data|;
      }
      assert blocks[..|blocks|] == blocks;
    }

    /** `aofRewriteBufferAppend` */
    method Append(s: seq<byte>)
      requires Valid()
      modifies this
      ensures Valid() && Contents() == old(Contents()) + s
    {
      hide Concat;
      var done := 0;
      while done < |s|
        invariant done <= |s| && Valid()
        invariant Contents() == old(Contents()) + s[..done]
        decreases |s| - done, if |blocks| > 0 && blocks[|blocks| - 1].free > 0 then 0 else 1
      {
        if |blocks| > 0 {
          var last := blocks[|blocks| - 1];
          var thislen := Min(last.free, |s| - done);
          if thislen > 0 {
            FillLast(s[done..done + thislen]);
            PrefixExtends(s, done, thislen);
            done := done + thislen;
          }
        }
        if done < |s| {
          AddBlock();
        }
      }
      assert s[..|s|] == s;
    }

    method AddBlock()
      requires Valid()
      modifies this
      ensures Valid() && Contents() == old(Contents()) && |blocks| > 0 && blocks[|blocks| - 1].free == BLOCK_SIZE
    {
      ConcatSnoc(blocks, Block([], BLOCK_SIZE));
      blocks := blocks + [Block([], BLOCK_SIZE)];
    }

    method FillLast(piece: seq<byte>)
      requires Valid() && |blocks| > 0 && |piece| <= blocks[|blocks| - 1].free
      modifies this
      ensures Valid() && Contents() == old(Contents()) + piece && |blocks| == old(|blocks|)
      ensures blocks[|blocks| - 1].free == old(blocks[|blocks| - 1].free) - |piece|
    {
      var init, last := blocks[..|blocks| - 1], blocks[|blocks| - 1];
      assert blocks == init + [last];
      ConcatSnoc(init, last);
      ConcatSnoc(init, Block(last.data + piece, last.free - |piece|));
      blocks := init + [Block(last.data + piece, last.free - |piece|)];
    }

    /**
     `aofChildWriteDiffData`: write to the pipe until it is full, an error occurs, the buffer is empty
     or the child has asked to stop.  results are what successive writes return.
     */
    method ChildWriteDiffData(stop: bool, results: seq<WriteResult>) returns (sent: seq<byte>)
      requires Valid()
      modifies this
      ensures Valid() && sent + Contents() == old(Contents())
      ensures |sent| == if stop then 0 else Accepted(old(blocks), results)
    {
      hide Concat, Accepted;
      sent := [];
      var calls := 0;
      while true
        invariant Valid() && calls <= |results|
        invariant sent + Contents() == old(Contents()) && (stop ==> sent == [])
        invariant Accepted(old(blocks), results) == |sent| + Accepted(blocks, results[calls..])
        decreases |results| - calls, |blocks|
      {
        AcceptedAt(blocks, results, calls);
        if stop || |blocks| == 0 {
          return;
        }
        if |blocks[0].data| > 0 {
          if calls == |results| || results[calls].Failed? || results[calls].n == 0 {
            return;
          }
          var piece := TakeFirst(Min(results[calls].n, |blocks[0].data|));
          calls := calls + 1;
          Regroup(sent, piece, Contents());
          sent := sent + piece;
        }
        if |blocks[0].data| == 0 {
          AcceptedAt(blocks, results, calls);
          DropFirst();
        }
      }
    }

    method DropFirst()
      requires Valid() && |blocks| > 0 && blocks[0].data == []
      modifies this
      ensures Valid() && Contents() == old(Contents()) && blocks == old(blocks)[1..]
    {
      assert Contents() == Concat(blocks[1..]);
      blocks := blocks[1..];
    }

    method TakeFirst(n: nat) returns (piece: seq<byte>)
      requires Valid() && |blocks| > 0 && n <= |blocks[0].data|
      modifies this
      ensures Valid() && piece + Contents() == old(Contents()) && |piece| == n
      ensures blocks == [Taken(old(blocks[0]), n)] + old(blocks[1..])
    {
      var block := blocks[0];
      piece := block.data[..n];
      assert Contents() == piece + (block.data[n..] + Concat(blocks[1..]));
      blocks := [Taken(block, n)] + blocks[1..];
      assert blocks[1..] == old(blocks)[1..];
    }

    /** `aofRewriteBufferWrite`: all of it, or failure. */
    method Write(results: seq<WriteResult>) returns (ok: bool, written: seq<byte>)
      requires Valid()
      ensures ok <==> forall i :: 0 <= i < |blocks| && blocks[i].data != [] ==> WroteAll(results, i, |blocks[i].data|)
      ensures ok ==> written == Contents()
      ensures written <= Contents()
    {
      written := [];
      for i := 0 to |blocks|
        invariant written == Concat(blocks[..i])
        invariant forall k :: 0 <= k < i && blocks[k].data != [] ==> WroteAll(results, k, |blocks[k].data|)
      {
        assert blocks[..i + 1] == blocks[..i] + [blocks[i]];
        ConcatSnoc(blocks[..i], blocks[i]);
        ConcatPrefix(blocks, i + 1);
        if |blocks[i].data| > 0 {
          var n := if i < |results| && results[i].Wrote? then Min(results[i].n, |blocks[i].data|) else 0;
          written := written + blocks[i].data[..n];
          if n != |blocks[i].data| {
            return false, written;
          }
          assert blocks[i].data[..n] == blocks[i].data;
        }
      }
      assert blocks[..|blocks|] == blocks;
      ok := true;
    }
  }

  lemma {:induction false} ConcatPrefix(blocks: seq<Block>, i: nat)
    requires i <= |blocks|
    ensures Concat(blocks[..i]) <= Concat(blocks)
  {
    if i > 0 {
      ConcatPrefix(blocks[1..], i - 1);
      assert blocks[..i][1..] == blocks[1..][..i - 1];
    }
  }
}
