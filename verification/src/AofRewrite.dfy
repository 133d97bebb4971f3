/**
 The background rewrite of the append only file: the server keeps feeding commands while a forked
 child writes a snapshot, sends the child what it fed through a pipe, agrees with it when to stop,
 and finally appends the rest to the child's file.  The events are the steps of the two processes,
 in any order the system allows.
 */
module AofRewrite {
  import opened Common

  /** How far the child has come. */
  datatype Phase = Rewriting | AskedToStop | Acknowledged | Exited | GaveUp

  datatype State = State(
    // parent
    buffer: seq<byte>,        // contents of the rewrite buffer
    stopSending: bool,        // aof_stop_sending_diff
    newFile: seq<byte>,       // the file the parent made of the child's, once finished
    finished: bool,
    // between the processes
    pipe: seq<byte>,          // bytes in the data pipe
    stopRequest: bool,        // a '!' on its way to the parent
    ack: bool,                // a '!' on its way to the child
    // child
    phase: Phase,
    childDiff: seq<byte>,     // aof_child_diff
    childFile: seq<byte>,
    // bookkeeping
    snapshot: seq<byte>,      // what the child writes of its copy of the data
    fed: seq<byte>)           // everything fed since the fork

  datatype Event =
    | Feed(bytes: seq<byte>)             // aofRewriteBufferAppend
    | SendDiff(n: nat)                   // aofChildWriteDiffData wrote n bytes
    | ParentReadsStop(ackSent: bool)     // aofChildPipeReadable; the write of the ack may fail
    | ChildReads(n: nat)                 // one read of aofReadDiffFromParent
    | ChildAsksToStop
    | ChildReadsAck
    | ChildFinishes                      // the final read found the pipe empty
    | ChildFails                         // a write error or a timeout
    | ParentFinishes(written: seq<byte>) // backgroundRewriteDoneHandler appended `written`

  /** aof_stop_sending_diff and the pipes are new for every rewrite. */
  function Forked(snapshot: seq<byte>): State {
    State([], false, [], false, [], false, false, Rewriting, [], [], snapshot, [])
  }

  predicate Enabled(s: State, e: Event) {
    match e
    case Feed(_) => !s.finished
    case SendDiff(n) => !s.finished && n <= |s.buffer| && (s.stopSending ==> n == 0)
    case ParentReadsStop(_) => !s.finished && s.stopRequest
    case ChildReads(n) => (s.phase.Rewriting? || s.phase.Acknowledged?) && n <= |s.pipe|
    case ChildAsksToStop => s.phase.Rewriting?
    case ChildReadsAck => s.phase.AskedToStop? && s.ack
    case ChildFinishes => s.phase.Acknowledged? && s.pipe == []
    case ChildFails => !s.phase.Exited? && !s.phase.GaveUp?
    case ParentFinishes(written) => s.phase.Exited? && !s.finished && written == s.buffer
  }

  function Apply(s: State, e: Event): State
    requires Enabled(s, e)
  {
    match e
    case Feed(bytes) => s.(buffer := s.buffer + bytes, fed := s.fed + bytes)
    case SendDiff(n) => s.(pipe := s.pipe + s.buffer[..n], buffer := s.buffer[n..])
    case ParentReadsStop(ackSent) => s.(stopRequest := false, stopSending := true, ack := s.ack || ackSent)
    case ChildReads(n) => s.(childDiff := s.childDiff + s.pipe[..n], pipe := s.pipe[n..])
    case ChildAsksToStop => s.(phase := AskedToStop, stopRequest := true)
    case ChildReadsAck => s.(phase := Acknowledged, ack := false)
    case ChildFinishes => s.(phase := Exited, childFile := s.snapshot + s.childDiff)
    case ChildFails => s.(phase := GaveUp)
    case ParentFinishes(written) => s.(finished := true, newFile := s.childFile + written)
  }

  ghost predicate Run(states: seq<State>, events: seq<Event>) {
    && |states| == |events| + 1
    && states[0] == Forked(states[0].snapshot)
    && forall i :: 0 <= i < |events| ==> Enabled(states[i], events[i]) && states[i + 1] == Apply(states[i], events[i])
  }

  ghost predicate Conserved(s: State) {
    && (!s.finished ==> s.fed == s.childDiff + s.pipe + s.buffer)
    && (s.ack || s.phase.Acknowledged? || s.phase.Exited? ==> s.stopSending)
    && (s.phase.Exited? ==> s.pipe == [] && s.childFile == s.snapshot + s.childDiff)
    && (s.finished ==> s.newFile == s.snapshot + s.fed)
  }

  lemma StepConserved(s: State, e: Event)
    requires Conserved(s) && Enabled(s, e)
    ensures Conserved(Apply(s, e)) && Apply(s, e).snapshot == s.snapshot
  {
    match e
    case SendDiff(n) =>
      assert s.buffer == s.buffer[..n] + s.buffer[n..];
      assert s.childDiff + s.pipe + s.buffer == s.childDiff + (s.pipe + s.buffer[..n]) + s.buffer[n..];
      if n == 0 {
        assert s.pipe + s.buffer[..0] == s.pipe;
      }
    case ChildReads(n) =>
      assert s.pipe == s.pipe[..n] + s.pipe[n..];
      assert s.childDiff + s.pipe + s.buffer == s.childDiff + s.pipe[..n] + s.pipe[n..] + s.buffer;
    case Feed(bytes) =>
      assert s.childDiff + s.pipe + (s.buffer + bytes) == s.childDiff + s.pipe + s.buffer + bytes;
    case ParentFinishes(_) =>
      assert s.childDiff + s.pipe + s.buffer == s.childDiff + s.buffer;
      assert s.snapshot + s.childDiff + s.buffer == s.snapshot + (s.childDiff + s.buffer);
    case _ =>
  }

  lemma {:induction false} RunConserved(states: seq<State>, events: seq<Event>, i: nat)
    requires Run(states, events) && i < |states|
    ensures Conserved(states[i]) && states[i].snapshot == states[0].snapshot
  {
    hide Apply, Enabled, Conserved;
    if i == 0 {
      assert Conserved(states[0]) by { ForkedConserved(states[0].snapshot); }
    } else {
      RunConserved(states, events, i - 1);
      StepConserved(states[i - 1], events[i - 1]);
    }
  }

  lemma ForkedConserved(snapshot: seq<byte>)
    ensures Conserved(Forked(snapshot))
  {
  }

  /** At every moment of every run, what was fed since the fork is with the child, in the pipe or in the buffer, in order. */
  lemma RewriteConservation(states: seq<State>, events: seq<Event>, i: nat)
    requires Run(states, events) && i < |states| && !states[i].finished
    ensures states[i].fed == states[i].childDiff + states[i].pipe + states[i].buffer
  {
    RunConserved(states, events, i);
  }

  /** A finished rewrite is the snapshot followed by exactly what was fed since the fork. */
  lemma RewriteResult(states: seq<State>, events: seq<Event>, i: nat)
    requires Run(states, events) && i < |states| && states[i].finished
    ensures states[i].newFile == states[0].snapshot + states[i].fed
  {
    RunConserved(states, events, i);
  }

  /**
   The handshake is what makes it work: once the child has the parent's answer, nothing enters the
   pipe any more, in any continuation of the run.
   */
  lemma {:induction false} PipeOnlyDrains(states: seq<State>, events: seq<Event>, i: nat, j: nat)
    requires Run(states, events) && i <= j < |states| && states[i].phase.Acknowledged?
    ensures |states[j].pipe| <= |states[i].pipe| && states[j].pipe == states[i].pipe[|states[i].pipe| - |states[j].pipe|..]
    ensures states[j].phase in {Acknowledged, Exited, GaveUp}
    decreases j
  {
    hide Apply, Enabled, Forked;
    if i < j {
      PipeOnlyDrains(states, events, i, j - 1);
      StillStopped(states, events, i, j - 1);
      StepDrains(states[j - 1], events[j - 1]);
    }
  }

  lemma StepDrains(s: State, e: Event)
    requires Enabled(s, e) && s.stopSending && s.phase in {Acknowledged, Exited, GaveUp}
    ensures Apply(s, e).phase in {Acknowledged, Exited, GaveUp}
    ensures |Apply(s, e).pipe| <= |s.pipe| && Apply(s, e).pipe == s.pipe[|s.pipe| - |Apply(s, e).pipe|..]
  {
    if e.SendDiff? {
      assert s.pipe + s.buffer[..0] == s.pipe;
    }
  }

  lemma {:induction false} StillStopped(states: seq<State>, events: seq<Event>, i: nat, j: nat)
    requires Run(states, events) && i <= j < |states| && states[i].phase.Acknowledged?
    ensures states[j].stopSending
    decreases j
  {
    hide Conserved;
    if i < j {
      StillStopped(states, events, i, j - 1);
    } else {
      RunConserved(states, events, i);
      AcknowledgedIsStopped(states[i]);
    }
  }

  lemma AcknowledgedIsStopped(s: State)
    requires Conserved(s) && s.phase.Acknowledged?
    ensures s.stopSending
  {
  }
}
