/**
 The append only file over the life of a server: commands are executed and fed, the buffer is
 flushed, children rewrite the file, the log is switched off and on.  Whatever the data set is and
 whatever commands do to it, while the log is on, loading it gives the data set back.
 */
module AofLog {
  import opened Common
  import opened AofCodec
  import opened AofRoundTrip
  import opened AofReplay
  import AofRewrite

  datatype Mode = Off | WaitRewrite | On

  /** A rewrite child: the commands its snapshot consists of and what was fed since it was forked. */
  datatype Child = NoChild | Child(snapshot: seq<Command>, diff: seq<byte>, diffCommands: seq<Command>)

  /**
   log and the child's diffCommands are bookkeeping: the commands the bytes stand for.  inMulti: the
   MULTI of a transaction has been propagated, and its EXEC has not.
   */
  datatype Server<W> = Server(
    mode: Mode,
    selected: int,
    file: seq<byte>,
    buffer: seq<byte>,
    child: Child,
    dataset: W,
    inMulti: bool,
    log: seq<Command>)

  /** What a command does to the data set when run in a database, and the empty data set. */
  datatype Semantics<!W> = Semantics(exec: (W, int, Command) -> W, nothing: W, known: seq<byte> -> bool)

  datatype Event =
    | Execute(db: nat, body: seq<Command>)            // a write, and the commands that are fed for it
    | Flush(file: seq<byte>, buffer: seq<byte>)       // flushAppendOnlyFile, to this outcome
    | Fork(snapshot: seq<Command>)                    // rewriteAppendOnlyFileBackground
    | Finish                                          // backgroundRewriteDoneHandler, on success
    | Abort                                           // the same on failure, or the child is killed
    | Stop(file: seq<byte>, buffer: seq<byte>)        // stopAppendOnly, after its flush
    | Start                                           // startAppendOnly

  // ---------- meaning of a command sequence ----------

  function Perform<W>(sem: Semantics<W>, w: W, pairs: seq<(int, Command)>): W {
    if pairs == [] then w else Perform(sem, sem.exec(w, pairs[0].0, pairs[0].1), pairs[1..])
  }

  lemma {:induction false} PerformConcat<W>(sem: Semantics<W>, w: W, a: seq<(int, Command)>, b: seq<(int, Command)>)
    ensures Perform(sem, w, a + b) == Perform(sem, Perform(sem, w, a), b)
  {
    if a == [] {
      assert a + b == b;
    } else {
      assert (a + b)[1..] == a[1..] + b;
      PerformConcat(sem, sem.exec(w, a[0].0, a[0].1), a[1..], b);
    }
  }

  /** The data set that a log stands for: its commands, replayed from nothing by a client in database 0. */
  function Meaning<W>(sem: Semantics<W>, cmds: seq<Command>): W {
    Perform(sem, sem.nothing, Replay(cmds, 0))
  }

  ghost predicate Loadable<W>(sem: Semantics<W>, cmds: seq<Command>) {
    forall i :: 0 <= i < |cmds| ==> WellTyped(cmds[i]) && sem.known(cmds[i][0])
  }

  // ---------- events ----------

  ghost predicate Enabled<W>(sem: Semantics<W>, s: Server<W>, e: Event) {
    match e
    case Execute(db, body) => db <= 0x7FFF_FFFF && Plain(body) && Loadable(sem, body)
    case Flush(file, buffer) => !s.mode.Off? && file + buffer == s.file + s.buffer
    case Fork(snapshot) => s.child.NoChild? && Loadable(sem, snapshot) && !LeavesOpen(snapshot) && Meaning(sem, snapshot) == s.dataset
    case Finish => s.child.Child?
    case Abort => s.child.Child?
    case Stop(file, buffer) => !s.mode.Off? && file + buffer == s.file + s.buffer
    case Start => s.mode.Off?
  }

  function Apply<W>(sem: Semantics<W>, s: Server<W>, e: Event): Server<W> {
    match e
    case Execute(db, body) => Executed(sem, s, db, body)
    case Flush(file, buffer) => s.(file := file, buffer := buffer)
    case Fork(snapshot) => s.(child := Child(snapshot, [], []), selected := -1)
    case Finish => if s.child.Child? then Finished(s) else s
    case Abort => s.(child := NoChild)
    case Stop(file, buffer) => s.(file := file, buffer := buffer, selected := -1, mode := Off, child := NoChild)
    case Start => s.(mode := WaitRewrite, child := NoChild)
  }

  /** A write is executed and, unless the log is off, fed to the log, to the child, or to both. */
  function Executed<W>(sem: Semantics<W>, s: Server<W>, db: nat, body: seq<Command>): Server<W> {
    var ran := s.(dataset := Perform(sem, s.dataset, InDb(db, body)), inMulti := Multi(body, s.inMulti));
    if s.mode.Off? then ran
    else
      var fed := FeedCommands(s.selected, db, body);
      ran.(selected := db,
           buffer := if s.mode.On? then s.buffer + Encode(fed) else s.buffer,
           log := if s.mode.On? then s.log + fed else s.log,
           child := if s.child.Child? then Child(s.child.snapshot, s.child.diff + Encode(fed), s.child.diffCommands + fed)
                    else NoChild)
  }

  /** The rewritten file replaces the log; if the log is not off, writing goes on at its end. */
  function Finished<W>(s: Server<W>): Server<W>
    requires s.child.Child?
  {
    var installed := s.(file := Encode(s.child.snapshot) + s.child.diff,
                        log := s.child.snapshot + s.child.diffCommands,
                        child := NoChild);
    if s.mode.Off? then installed
    else installed.(selected := -1, buffer := [], mode := On)
  }

  ghost predicate Run<W>(sem: Semantics<W>, states: seq<Server<W>>, events: seq<Event>) {
    && |states| == |events| + 1
    && Initial(sem, states[0])
    && sem.known(SELECT_NAME)
    && forall i :: 0 <= i < |events| ==> Enabled(sem, states[i], events[i]) && states[i + 1] == Apply(sem, states[i], events[i])
  }

  /** A server starts with the log off, or on and just loaded. */
  ghost predicate Initial<W>(sem: Semantics<W>, s: Server<W>) {
    && s.child.NoChild? && s.selected == -1 && s.buffer == []
    && (s.mode.Off? || (s.mode.On? && Loadable(sem, s.log) && s.file == Encode(s.log) && Meaning(sem, s.log) == s.dataset))
  }

  // ---------- the invariant ----------

  /** These commands stand for this data set, and the next feed is safe at their end. */
  ghost predicate Faithful<W>(sem: Semantics<W>, cmds: seq<Command>, selected: int, dataset: W) {
    && Loadable(sem, cmds)
    && Meaning(sem, cmds) == dataset
    && (selected == -1 || selected == DbAfter(cmds, 0))
  }

  ghost predicate Valid<W>(sem: Semantics<W>, s: Server<W>) {
    && (s.mode.On? ==> s.file + s.buffer == Encode(s.log) && Faithful(sem, s.log, s.selected, s.dataset))
    && (s.child.Child? ==> s.child.diff == Encode(s.child.diffCommands))
    && (s.child.Child? && !s.mode.Off? ==> Faithful(sem, s.child.snapshot + s.child.diffCommands, s.selected, s.dataset))
  }

  lemma FeedFaithful<W>(sem: Semantics<W>, cmds: seq<Command>, selected: int, dataset: W, db: nat, body: seq<Command>)
    requires Faithful(sem, cmds, selected, dataset) && sem.known(SELECT_NAME)
    requires db <= 0x7FFF_FFFF && Plain(body) && Loadable(sem, body)
    ensures Faithful(sem, cmds + FeedCommands(selected, db, body), db, Perform(sem, dataset, InDb(db, body)))
  {
    hide Replay, DbAfter, InDb, Perform, Plain, WellTyped;
    var fed := FeedCommands(selected, db, body);
    FeedReplays(selected, db, body, DbAfter(cmds, 0));
    ReplayConcat(cmds, fed, 0);
    PerformConcat(sem, sem.nothing, Replay(cmds, 0), InDb(db, body));
    SelectWellTyped(db);
  }

  lemma SelectWellTyped(db: nat)
    requires db <= 0x7FFF_FFFF
    ensures WellTyped(SelectCommand(db))
  {
    hide Decimal;
    ShortNumber(db);
  }

  lemma ExecuteValid<W>(sem: Semantics<W>, s: Server<W>, db: nat, body: seq<Command>)
    requires Valid(sem, s) && sem.known(SELECT_NAME)
    requires db <= 0x7FFF_FFFF && Plain(body) && Loadable(sem, body)
    ensures Valid(sem, Executed(sem, s, db, body))
  {
    hide Faithful, Loadable, Plain, Perform, InDb, Encode, FeedCommands;
    if !s.mode.Off? {
      var fed := FeedCommands(s.selected, db, body);
      if s.mode.On? {
        FeedFaithful(sem, s.log, s.selected, s.dataset, db, body);
        EncodeConcat(s.log, fed);
        assert s.file + (s.buffer + Encode(fed)) == s.file + s.buffer + Encode(fed);
      }
      if s.child.Child? {
        FeedFaithful(sem, s.child.snapshot + s.child.diffCommands, s.selected, s.dataset, db, body);
        EncodeConcat(s.child.diffCommands, fed);
        assert s.child.snapshot + s.child.diffCommands + fed == s.child.snapshot + (s.child.diffCommands + fed);
      }
    } else if s.child.Child? {
      assert Executed(sem, s, db, body).child == s.child;
    }
  }

  lemma FinishValid<W>(sem: Semantics<W>, s: Server<W>)
    requires Valid(sem, s) && s.child.Child?
    ensures Valid(sem, Finished(s))
  {
    hide Loadable, Encode, Meaning, DbAfter;
    EncodeConcat(s.child.snapshot, s.child.diffCommands);
    assert Finished(s).file + [] == Finished(s).file;
  }

  lemma ForkValid<W>(sem: Semantics<W>, s: Server<W>, snapshot: seq<Command>)
    requires Valid(sem, s) && Enabled(sem, s, Fork(snapshot))
    ensures Valid(sem, Apply(sem, s, Fork(snapshot)))
  {
    hide Loadable, Meaning, DbAfter;
    assert snapshot + [] == snapshot;
  }

  lemma StepValid<W>(sem: Semantics<W>, s: Server<W>, e: Event)
    requires Valid(sem, s) && Enabled(sem, s, e) && sem.known(SELECT_NAME)
    ensures Valid(sem, Apply(sem, s, e))
  {
    hide Faithful, Loadable, Plain, Executed, Finished, Meaning, Encode;
    match e
    case Execute(db, body) => ExecuteValid(sem, s, db, body);
    case Fork(snapshot) => ForkValid(sem, s, snapshot);
    case Finish => FinishValid(sem, s);
    case _ =>
  }

  lemma {:induction false} RunValid<W>(sem: Semantics<W>, states: seq<Server<W>>, events: seq<Event>, i: nat)
    requires Run(sem, states, events) && i < |states|
    ensures Valid(sem, states[i])
  {
    hide Valid, Enabled, Apply;
    if i == 0 {
      InitialValid(sem, states[0]);
    } else {
      RunValid(sem, states, events, i - 1);
      StepValid(sem, states[i - 1], events[i - 1]);
    }
  }

  lemma InitialValid<W>(sem: Semantics<W>, s: Server<W>)
    requires Initial(sem, s)
    ensures Valid(sem, s)
  {
    hide Loadable, Meaning, Encode;
    assert s.file + [] == s.file;
  }

  // ---------- transactions ----------

  /** A log that ends inside a transaction does so because one is being propagated. */
  ghost predicate Closed<W>(s: Server<W>) {
    && (s.mode.On? && LeavesOpen(s.log) ==> s.inMulti)
    && (s.child.Child? && !s.mode.Off? && LeavesOpen(s.child.snapshot + s.child.diffCommands) ==> s.inMulti)
  }

  lemma SelectLeaves(db: nat, multi: bool)
    ensures MultiAfter(SelectCommand(db), multi) == multi
  {
    assert |Upper(SELECT_NAME)| == 6;
  }

  /** Feeding opens and closes transactions as the commands do. */
  lemma FeedMulti(cmds: seq<Command>, selected: int, db: nat, body: seq<Command>, inMulti: bool)
    requires LeavesOpen(cmds) ==> inMulti
    ensures LeavesOpen(cmds + FeedCommands(selected, db, body)) ==> Multi(body, inMulti)
  {
    hide MultiAfter, SelectCommand;
    var fed := FeedCommands(selected, db, body);
    MultiConcat(cmds, fed, false);
    MultiMonotonic(body, LeavesOpen(cmds), inMulti);
    if db != selected {
      assert fed[1..] == body;
      SelectLeaves(db, LeavesOpen(cmds));
    } else {
      assert [] + body == body;
    }
  }

  lemma {:induction false} MultiMonotonic(body: seq<Command>, a: bool, b: bool)
    requires a ==> b
    ensures Multi(body, a) ==> Multi(body, b)
  {
    hide IsMulti, EndsMulti;
    if body != [] {
      MultiMonotonic(body[1..], MultiAfter(body[0], a), MultiAfter(body[0], b));
    }
  }

  lemma StepClosed<W>(sem: Semantics<W>, s: Server<W>, e: Event)
    requires Closed(s) && Enabled(sem, s, e)
    ensures Closed(Apply(sem, s, e))
  {
    hide LeavesOpen, Meaning, Loadable, Encode, Perform, FeedCommands, Plain, Multi;
    match e
    case Execute(db, body) =>
      if s.mode.On? {
        FeedMulti(s.log, s.selected, db, body, s.inMulti);
      }
      if s.child.Child? && !s.mode.Off? {
        var fed := FeedCommands(s.selected, db, body);
        FeedMulti(s.child.snapshot + s.child.diffCommands, s.selected, db, body, s.inMulti);
        assert s.child.snapshot + s.child.diffCommands + fed == s.child.snapshot + (s.child.diffCommands + fed);
      }
    case Fork(snapshot) =>
      assert snapshot + [] == snapshot;
    case _ =>
  }

  lemma {:induction false} RunClosed<W>(sem: Semantics<W>, states: seq<Server<W>>, events: seq<Event>, i: nat)
    requires Run(sem, states, events) && i < |states| && Closed(states[0])
    ensures Closed(states[i])
  {
    hide Closed, Enabled, Apply;
    if i > 0 {
      RunClosed(sem, states, events, i - 1);
      StepClosed(sem, states[i - 1], events[i - 1]);
    }
  }

  // ---------- the theorems ----------

  /**
   At every moment of every run at which the log is on, the file and the buffer together load if
   truncated loading is on or they do not end inside a transaction, and replaying what is loaded from
   nothing gives the data set; otherwise the server refuses to start.
   */
  lemma LogReplaysToDataset<W>(sem: Semantics<W>, states: seq<Server<W>>, events: seq<Event>, i: nat,
                               rdb: seq<byte> -> Option<nat>, truncated: bool)
    requires Run(sem, states, events) && i < |states| && states[i].mode.On?
    ensures states[i].file + states[i].buffer == Encode(states[i].log)
    ensures states[i].log == [] ==> states[i].dataset == sem.nothing
    ensures states[i].log != [] ==>
      var loaded := LoadFile(states[i].file + states[i].buffer, rdb, sem.known, truncated);
      if truncated || !LeavesOpen(states[i].log)
      then loaded.Loaded? && Meaning(sem, loaded.cmds) == states[i].dataset && loaded.cut == LeavesOpen(states[i].log)
      else loaded == Fatal
  {
    hide LoadFile, Encode, Run, LeavesOpen;
    RunValid(sem, states, events, i);
    if states[i].log != [] {
      RoundTrip(states[i].log, rdb, sem.known, truncated);
    }
  }

  /**
   So a server whose log did not end inside a transaction when it started can be restarted at every
   moment at which it is not executing one, with truncated loading on or off.
   */
  lemma LogLoadsBetweenTransactions<W>(sem: Semantics<W>, states: seq<Server<W>>, events: seq<Event>, i: nat,
                                       rdb: seq<byte> -> Option<nat>, truncated: bool)
    requires Run(sem, states, events) && i < |states| && states[i].mode.On? && states[i].log != []
    requires (states[0].mode.On? ==> !LeavesOpen(states[0].log)) && !states[i].inMulti
    ensures var loaded := LoadFile(states[i].file + states[i].buffer, rdb, sem.known, truncated);
      loaded.Loaded? && !loaded.cut && Meaning(sem, loaded.cmds) == states[i].dataset
  {
    hide LoadFile, Encode, LeavesOpen, Meaning;
    RunClosed(sem, states, events, i);
    LogReplaysToDataset(sem, states, events, i, rdb, truncated);
  }

  /** Nothing but commands that end no transaction, and flushes. */
  ghost predicate EndsNone(events: seq<Event>) {
    forall i :: 0 <= i < |events| ==> events[i].Flush? || (events[i].Execute? && NoneEnds(events[i].body))
  }

  /**
   A log loaded with truncated loading on keeps a transaction it ends in: truncating removes nothing of
   it.  Unless a rewrite or the end of another transaction mends it, the server cannot be restarted
   with truncated loading off, although it executes no transaction.
   */
  lemma OpenLogStaysOpen<W>(sem: Semantics<W>, states: seq<Server<W>>, events: seq<Event>, i: nat, rdb: seq<byte> -> Option<nat>)
    requires Run(sem, states, events) && i < |states| && states[0].mode.On? && LeavesOpen(states[0].log) && EndsNone(events)
    ensures states[i].mode.On? && LeavesOpen(states[i].log)
    ensures LoadFile(states[i].file + states[i].buffer, rdb, sem.known, false) == Fatal
  {
    hide LoadFile, Encode, LeavesOpen, Meaning, Loadable;
    OpenStep(sem, states, events, i);
    if states[i].log == [] {
      NothingLeaves();
    }
    LogReplaysToDataset(sem, states, events, i, rdb, false);
  }

  lemma NothingLeaves()
    ensures !LeavesOpen([])
  {
  }

  lemma {:induction false} OpenStep<W>(sem: Semantics<W>, states: seq<Server<W>>, events: seq<Event>, i: nat)
    requires Run(sem, states, events) && i < |states| && states[0].mode.On? && LeavesOpen(states[0].log) && EndsNone(events)
    ensures states[i].mode.On? && LeavesOpen(states[i].log)
  {
    hide Encode, LeavesOpen, Meaning, Loadable, Plain, NoneEnds, Perform, FeedCommands;
    if i > 0 {
      OpenStep(sem, states, events, i - 1);
      var s, e := states[i - 1], events[i - 1];
      if e.Execute? {
        FeedStaysOpen(s.log, s.selected, e.db, e.body);
      }
    }
  }

  lemma FeedStaysOpen(cmds: seq<Command>, selected: int, db: nat, body: seq<Command>)
    requires LeavesOpen(cmds) && NoneEnds(body)
    ensures LeavesOpen(cmds + FeedCommands(selected, db, body))
  {
    hide MultiAfter, SelectCommand;
    var fed := FeedCommands(selected, db, body);
    MultiConcat(cmds, fed, false);
    StaysOpen(body);
    if db != selected {
      assert fed[1..] == body;
      SelectLeaves(db, true);
    } else {
      assert [] + body == body;
    }
  }

  /** A rewrite changes the file and not what it means: had the child finished now, the result would load to the data set. */
  lemma RewriteKeepsDataset<W>(sem: Semantics<W>, states: seq<Server<W>>, events: seq<Event>, i: nat)
    requires Run(sem, states, events) && i < |events| && events[i].Finish? && !states[i].mode.Off?
    ensures states[i + 1].dataset == states[i].dataset && states[i + 1].mode.On?
    ensures states[i + 1].file == Encode(states[i + 1].log) && Meaning(sem, states[i + 1].log) == states[i].dataset
  {
    hide Encode, Meaning, Loadable, DbAfter;
    RunValid(sem, states, events, i + 1);
    assert states[i + 1].file + [] == states[i + 1].file;
  }

  /** The file that is installed is the one parent and child make together, however their steps interleave. */
  lemma InstalledIsRewritten<W>(s: Server<W>, states: seq<AofRewrite.State>, events: seq<AofRewrite.Event>, i: nat)
    requires s.child.Child? && AofRewrite.Run(states, events) && i < |states| && states[i].finished
    requires states[0].snapshot == Encode(s.child.snapshot) && states[i].fed == s.child.diff
    ensures Finished(s).file == states[i].newFile
  {
    AofRewrite.RewriteResult(states, events, i);
  }

  /**
   A crash keeps a prefix: whatever part of the written file survives, however the last command is
   cut, loading it gives the data set of exactly the commands of the log that survived whole.
   */
  lemma CrashKeepsPrefix<W>(sem: Semantics<W>, states: seq<Server<W>>, events: seq<Event>, i: nat, k: nat,
                            rdb: seq<byte> -> Option<nat>)
    requires Run(sem, states, events) && i < |states| && states[i].mode.On? && 0 < k <= |states[i].file|
    ensures var loaded := LoadFile(states[i].file[..k], rdb, sem.known, true);
      var m := Whole(states[i].log, k);
      && loaded.Loaded? && loaded.cmds == states[i].log[..m]
      && |Encode(states[i].log[..m])| <= k && (m < |states[i].log| ==> k < |Encode(states[i].log[..m + 1])|)
  {
    hide LoadFile, Encode, Run, Whole;
    RunValid(sem, states, events, i);
    var s := states[i];
    assert s.file[..k] == (s.file + s.buffer)[..k];
    TruncatedLoad(s.log, k, rdb, sem.known);
    WholeIsWhole(s.log, k);
  }
}
