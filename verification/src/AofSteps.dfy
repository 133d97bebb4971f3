/**
 The events of `AofRewrite` and `AofLog` are what the methods on the objects do: each method below runs
 one on objects that stand for a state and leaves them standing for the state after the event.
 */
module AofSteps {
  import opened Common
  import opened AofCodec
  import opened AofReplay
  import opened AofRewriteBuffer
  import AofFlush
  import AofRewrite
  import AofLog

  // ---------- the parent of a rewrite ----------

  /** The rewrite buffer holds what the parent of the rewrite still has to send. */
  ghost predicate Buffers(b: RewriteBuffer, s: AofRewrite.State)
    reads b
  {
    b.Valid() && b.Contents() == s.buffer
  }

  method FeedRewrite(b: RewriteBuffer, bytes: seq<byte>, ghost s: AofRewrite.State)
    requires Buffers(b, s) && AofRewrite.Enabled(s, AofRewrite.Feed(bytes))
    modifies b
    ensures Buffers(b, AofRewrite.Apply(s, AofRewrite.Feed(bytes)))
  {
    b.Append(bytes);
  }

  /** What is sent is an event that the protocol allows, and it enters the pipe. */
  method SendDiff(b: RewriteBuffer, stop: bool, results: seq<WriteResult>, ghost s: AofRewrite.State) returns (sent: seq<byte>)
    requires Buffers(b, s) && !s.finished && stop == s.stopSending
    modifies b
    ensures AofRewrite.Enabled(s, AofRewrite.SendDiff(|sent|))
    ensures Buffers(b, AofRewrite.Apply(s, AofRewrite.SendDiff(|sent|)))
    ensures AofRewrite.Apply(s, AofRewrite.SendDiff(|sent|)).pipe == s.pipe + sent
  {
    sent := b.ChildWriteDiffData(stop, results);
    assert s.buffer[..|sent|] == sent && s.buffer[|sent|..] == b.Contents();
  }

  /** If all writes succeed, the rest of the buffer follows what the child wrote. */
  method FinishRewrite(b: RewriteBuffer, results: seq<WriteResult>, ghost s: AofRewrite.State) returns (ok: bool, written: seq<byte>)
    requires Buffers(b, s) && s.phase.Exited? && !s.finished
    ensures ok ==> AofRewrite.Enabled(s, AofRewrite.ParentFinishes(written))
    ensures ok ==> AofRewrite.Apply(s, AofRewrite.ParentFinishes(written)).newFile == s.childFile + s.buffer
    ensures written <= s.buffer
  {
    ok, written := b.Write(results);
  }

  // ---------- the log ----------

  ghost predicate Feeds<W>(f: Feeder, s: AofLog.Server<W>)
    reads f
  {
    && f.selectedDb == s.selected && f.on == s.mode.On? && f.childRunning == s.child.Child?
    && f.aofBuf == s.buffer && (s.child.Child? ==> f.rewriteBuf == s.child.diff)
  }

  ghost predicate Writes<W>(a: AofFlush.AppendOnlyFile, s: AofLog.Server<W>)
    reads a
  {
    a.Valid() && a.file == s.file && a.buffer == s.buffer
  }

  /** `propagate` feeds the log unless it is off. */
  method Propagate<W>(f: Feeder, off: bool, db: nat, body: seq<Command>, ghost sem: AofLog.Semantics<W>, ghost s: AofLog.Server<W>)
    requires Feeds(f, s) && off == s.mode.Off?
    modifies f
    ensures Feeds(f, AofLog.Apply(sem, s, AofLog.Execute(db, body)))
  {
    hide Encode, AofLog.Perform;
    if !off {
      assert FeedCommands(s.selected, db, body) == if db == s.selected then body else [SelectCommand(db)] + body;
      f.FeedAppendOnlyFile(db, body);
    }
  }

  method FlushLog<W>(a: AofFlush.AppendOnlyFile, force: bool, syncing: bool, now: nat, calls: seq<AofFlush.WriteCall>, truncates: bool,
                     ghost sem: AofLog.Semantics<W>, ghost s: AofLog.Server<W>) returns (outcome: AofFlush.Outcome)
    requires Writes(a, s) && !s.mode.Off?
    modifies a
    ensures !outcome.Exited? ==> AofLog.Enabled(sem, s, AofLog.Flush(a.file, a.buffer))
    ensures !outcome.Exited? ==> Writes(a, AofLog.Apply(sem, s, AofLog.Flush(a.file, a.buffer)))
  {
    outcome := a.Flush(force, syncing, now, calls, truncates);
  }

  /** `stopAppendOnly`: a forced flush, then no log, no selected database and no child. */
  method StopAppendOnly<W>(f: Feeder, a: AofFlush.AppendOnlyFile, syncing: bool, now: nat, calls: seq<AofFlush.WriteCall>, truncates: bool,
                           ghost sem: AofLog.Semantics<W>, ghost s: AofLog.Server<W>) returns (outcome: AofFlush.Outcome)
    requires Feeds(f, s) && Writes(a, s) && !s.mode.Off?
    modifies f, a
    ensures !outcome.Exited? ==> AofLog.Enabled(sem, s, AofLog.Stop(a.file, a.buffer))
    ensures !outcome.Exited? ==>
      var s' := AofLog.Apply(sem, s, AofLog.Stop(a.file, a.buffer));
      Feeds(f, s') && Writes(a, s')
  {
    outcome := a.Flush(true, syncing, now, calls, truncates);
    f.aofBuf := a.buffer;
    f.on, f.selectedDb, f.childRunning := false, -1, false;
  }
}
