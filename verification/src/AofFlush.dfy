/**
 Writing the buffer of the append only file out.  Nothing is lost and nothing is written twice,
 whatever the system calls do: short writes, interrupted writes, errors, and a truncation that
 undoes a short write or fails to.
 */
module AofFlush {
  import opened Common

  datatype Policy = Always | EverySecond | Never

  /** What a write(2) of len bytes does: it is interrupted, fails, or takes some of them. */
  datatype WriteCall = Interrupted | Error | Took(n: nat)

  datatype Outcome = NothingToDo | Postponed | Written | Retry | Exited

  /** The bytes the calls take of len bytes, and whether an error ended the writing. */
  function Taken(calls: seq<WriteCall>, len: nat): (r: nat)
    ensures r <= len
  {
    if len == 0 || calls == [] || calls[0].Error? then 0
    else if calls[0].Interrupted? then Taken(calls[1..], len)
    else
      var n := if calls[0].n <= len then calls[0].n else len;
      n + Taken(calls[1..], len - n)
  }

  /** The bytes that calls offer to take. */
  function Offered(calls: seq<WriteCall>): nat {
    if calls == [] then 0 else (if calls[0].Took? then calls[0].n else 0) + Offered(calls[1..])
  }

  /** The calls up to the first error take what they offer, as long as there is something to take. */
  lemma {:induction false} TakenIsOffered(calls: seq<WriteCall>, len: nat, k: nat)
    requires k <= |calls| && (k < |calls| ==> calls[k].Error?) && forall i :: 0 <= i < k ==> !calls[i].Error?
    ensures Taken(calls, len) == if Offered(calls[..k]) < len then Offered(calls[..k]) else len
  {
    if k > 0 {
      assert calls[..k][1..] == calls[1..][..k - 1];
      var n := if calls[0].Took? then (if calls[0].n <= len then calls[0].n else len) else 0;
      TakenIsOffered(calls[1..], len - n, k - 1);
    }
  }

  class AppendOnlyFile {
    const policy: Policy
    var file: seq<byte>
    var buffer: seq<byte>
    var currentSize: nat
    var postponedStart: nat
    var lastWriteOk: bool

    ghost predicate Valid()
      reads this
    {
      currentSize == |file|
    }

    constructor (policy: Policy, file: seq<byte>)
      ensures Valid() && this.file == file && buffer == [] && lastWriteOk && postponedStart == 0
    {
      this.policy, this.file, this.buffer := policy, file, [];
      currentSize, postponedStart, lastWriteOk := |file|, 0, true;
    }

    /**
     `aofWrite`: write until all is written or an error occurs; the number of bytes written, or -1
     when there was an error before the first.  The list of calls ends in an error.
     */
    method Write(calls: seq<WriteCall>) returns (nwritten: int)
      modifies this`file
      ensures var n := Taken(calls, |buffer|);
        file == old(file) + buffer[..n] && nwritten == if n == 0 && buffer != [] then -1 else n
    {
      var total: nat, i: nat := 0, 0;
      while total < |buffer|
        invariant total <= |buffer| && i <= |calls|
        invariant file == old(file) + buffer[..total]
        invariant Taken(calls, |buffer|) == total + Taken(calls[i..], |buffer| - total)
        decreases |calls| - i
      {
        if i == |calls| || calls[i].Error? {
          return if total > 0 then total else -1;
        }
        if calls[i].Took? {
          var n := if calls[i].n <= |buffer| - total then calls[i].n else |buffer| - total;
          assert buffer[..total + n] == buffer[..total] + buffer[total..total + n];
          file := file + buffer[total..total + n];
          total := total + n;
        }
        i := i + 1;
      }
      nwritten := total;
    }

    /**
     `flushAppendOnlyFile`: an fsync in progress may delay a flush, but for less than two seconds after
     the first delay.  syncing, calls and truncates stand for the pending fsync, the writes and
     whether ftruncate succeeds.
     */
    method Flush(force: bool, syncing: bool, now: nat, calls: seq<WriteCall>, truncates: bool) returns (outcome: Outcome)
      requires Valid()
      modifies this
      ensures outcome.NothingToDo? <==> old(buffer) == []
      ensures outcome.Postponed? <==>
        old(buffer) != [] && policy.EverySecond? && !force && syncing && (old(postponedStart) == 0 || now - old(postponedStart) < 2)
      ensures !outcome.Exited? ==> Valid() && file + buffer == old(file + buffer)
      ensures outcome.NothingToDo? || outcome.Postponed? ==> file == old(file) && lastWriteOk == old(lastWriteOk)
      ensures outcome.NothingToDo? || (outcome.Postponed? && old(postponedStart) != 0) ==> postponedStart == old(postponedStart)
      ensures outcome.Postponed? && old(postponedStart) == 0 ==> postponedStart == now
      ensures outcome.Written? || outcome.Retry? || outcome.Exited? ==> postponedStart == 0
      ensures outcome.Written? || outcome.Retry? || outcome.Exited? ==>
        (outcome.Written? <==> Taken(calls, |old(buffer)|) == |old(buffer)|)
      ensures outcome.Written? ==> buffer == [] && lastWriteOk
      ensures outcome.Retry? ==> !policy.Always? && !lastWriteOk
      ensures outcome.Retry? && truncates ==> file == old(file)
      ensures outcome.Exited? ==> policy.Always? && old(file) <= file < old(file + buffer) && (truncates ==> file == old(file))
    {
      if buffer == [] {
        return NothingToDo;
      }
      if policy.EverySecond? && !force {
        if syncing {
          if postponedStart == 0 {
            postponedStart := now;
            return Postponed;
          } else if now - postponedStart < 2 {
            return Postponed;
          }
        }
      }
      var nwritten := Write(calls);
      postponedStart := 0;
      if nwritten != |buffer| {
        ghost var n := Taken(calls, |buffer|);
        assert old(file) + buffer == file + buffer[n..];
        if nwritten != -1 && truncates {
          file := file[..currentSize];
          nwritten := -1;
        }
        if policy.Always? {
          assert old(file + buffer) == old(file) + buffer[..n] + buffer[n..];
          return Exited;
        }
        lastWriteOk := false;
        if nwritten > 0 {
          currentSize := currentSize + nwritten;
          buffer := buffer[nwritten..];
        } else {
          assert file == old(file);
        }
        return Retry;
      }
      if !lastWriteOk {
        lastWriteOk := true;
      }
      currentSize := currentSize + nwritten;
      assert buffer[..|buffer|] == buffer;
      buffer := [];
      assert file + [] == file;
      outcome := Written;
    }
  }
}
