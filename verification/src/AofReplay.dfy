/**
 Which database a replayed command runs in.  The append only file does not store the database of
 each command: a SELECT is written only when it differs from the last one written.  Replaying the
 file, with or without background rewrites in between, runs every command in the database it was
 fed for.
 */
module AofReplay {
  import opened Common
  import opened AofCodec

  // ---------- SELECT ----------

  const SELECT_NAME: seq<byte> := [83, 69, 76, 69, 67, 84]  // "SELECT"

  predicate IsSelect(cmd: Command) {
    |cmd| == 2 && Upper(cmd[0]) == SELECT_NAME
  }

  function SelectCommand(db: nat): Command {
    [SELECT_NAME, Decimal(db)]
  }

  lemma SelectSelects(db: nat)
    ensures IsSelect(SelectCommand(db)) && ParseInt(SelectCommand(db)[1]) == db
  {
    hide Decimal;
    assert Upper(SELECT_NAME) == SELECT_NAME;
    DecimalDigits(db);
    DigitsOfDecimal(db, []);
    assert Decimal(db) + [] == Decimal(db);
  }

  // ---------- replay ----------

  /** What the loader's client runs, starting in database db: each command with its database. */
  function Replay(cmds: seq<Command>, db: int): seq<(int, Command)> {
    if cmds == [] then []
    else if IsSelect(cmds[0]) then Replay(cmds[1..], ParseInt(cmds[0][1]))
    else [(db, cmds[0])] + Replay(cmds[1..], db)
  }

  function DbAfter(cmds: seq<Command>, db: int): int {
    if cmds == [] then db
    else if IsSelect(cmds[0]) then DbAfter(cmds[1..], ParseInt(cmds[0][1]))
    else DbAfter(cmds[1..], db)
  }

  lemma {:induction false} ReplayConcat(a: seq<Command>, b: seq<Command>, db: int)
    ensures Replay(a + b, db) == Replay(a, db) + Replay(b, DbAfter(a, db))
    ensures DbAfter(a + b, db) == DbAfter(b, DbAfter(a, db))
  {
    hide ParseInt;
    if a == [] {
      assert a + b == b;
    } else {
      assert (a + b)[1..] == a[1..] + b;
      ReplayConcat(a[1..], b, if IsSelect(a[0]) then ParseInt(a[0][1]) else db);
    }
  }

  /** Commands for one database: none of them is a SELECT. */
  ghost predicate Plain(body: seq<Command>) {
    forall i :: 0 <= i < |body| ==> !IsSelect(body[i])
  }

  function InDb(db: int, body: seq<Command>): seq<(int, Command)> {
    if body == [] then [] else [(db, body[0])] + InDb(db, body[1..])
  }

  lemma {:induction false} ReplayPlain(body: seq<Command>, db: int)
    requires Plain(body)
    ensures Replay(body, db) == InDb(db, body) && DbAfter(body, db) == db
  {
    hide IsSelect;
    if body != [] {
      ReplayPlain(body[1..], db);
    }
  }

  // ---------- feeding ----------

  /** What `feedAppendOnlyFile` writes for commands that run in db. */
  function FeedCommands(selected: int, db: nat, body: seq<Command>): seq<Command> {
    (if db != selected then [SelectCommand(db)] else []) + body
  }

  /** A feed replays in its database from wherever the selected database says the file ends. */
  lemma FeedReplays(selected: int, db: nat, body: seq<Command>, at: int)
    requires Plain(body) && (selected == at || db != selected)
    ensures Replay(FeedCommands(selected, db, body), at) == InDb(db, body)
    ensures DbAfter(FeedCommands(selected, db, body), at) == db
  {
    hide IsSelect, Plain;
    ReplayPlain(body, db);
    if db != selected {
      SelectSelects(db);
      assert FeedCommands(selected, db, body)[1..] == body;
    } else {
      assert [] + body == body;
    }
  }

  class Feeder {
    var selectedDb: int          // -1: none, the next feed must select
    var on: bool                 // aof_state == AOF_ON
    var childRunning: bool       // aof_child_pid != -1
    var aofBuf: seq<byte>
    var rewriteBuf: seq<byte>

    /**
     `feedAppendOnlyFile`: the SELECT, if needed, then the command in its argument vectors (one, or
     two when a command is split into a write and an expire).
     */
    method FeedAppendOnlyFile(db: nat, body: seq<Command>)
      modifies this
      ensures selectedDb == db && on == old(on) && childRunning == old(childRunning)
      ensures var bytes := Encode(if db == old(selectedDb) then body else [SelectCommand(db)] + body);
        && aofBuf == (if on then old(aofBuf) + bytes else old(aofBuf))
        && rewriteBuf == (if childRunning then old(rewriteBuf) + bytes else old(rewriteBuf))
    {
      hide Decimal, EncodeCommand;
      var buf: seq<byte> := [];
      ghost var select := if db != selectedDb then [SelectCommand(db)] else [];
      if db != selectedDb {
        var seldb := Decimal(db);
        buf := [STAR, 50, CR, LF, DOLLAR, 54, CR, LF] + SELECT_NAME + CrLf() + [DOLLAR] + Decimal(|seldb|) + CrLf() + seldb + CrLf();
        SelectBytes(db);
        selectedDb := db;
      }
      assert select + body == if db == old(selectedDb) then body else [SelectCommand(db)] + body;
      for i := 0 to |body|
        invariant buf == Encode(select + body[..i])
        invariant selectedDb == db && on == old(on) && childRunning == old(childRunning)
        invariant aofBuf == old(aofBuf) && rewriteBuf == old(rewriteBuf)
      {
        EncodeConcat(select + body[..i], [body[i]]);
        assert select + body[..i] + [body[i]] == select + body[..i + 1];
        assert Encode([body[i]]) == EncodeCommand(body[i]) by { EncodeOne(body[i]); }
        buf := CatAppendOnlyGenericCommand(buf, body[i]);
      }
      assert body[..|body|] == body;
      if on {
        aofBuf := aofBuf + buf;
      }
      if childRunning {
        rewriteBuf := rewriteBuf + buf;
      }
    }
  }

  lemma EncodeOne(cmd: Command)
    ensures Encode([cmd]) == EncodeCommand(cmd)
  {
  }

  lemma SelectArgs(db: nat)
    ensures EncodeArgs(SelectCommand(db)) == EncodeArg(SELECT_NAME) + EncodeArg(Decimal(db))
  {
    hide EncodeArg;
    var last: Command := SelectCommand(db)[1..];
    assert last == [Decimal(db)] && EncodeArgs(last[1..]) == [];
    assert EncodeArgs(last) == EncodeArg(Decimal(db)) + [];
  }

  lemma SelectBytes(db: nat)
    ensures var seldb := Decimal(db);
      [STAR, 50, CR, LF, DOLLAR, 54, CR, LF] + SELECT_NAME + CrLf() + [DOLLAR] + Decimal(|seldb|) + CrLf() + seldb + CrLf()
        == Encode([SelectCommand(db)] + [])
  {
    var none: seq<Command> := [];
    assert [SelectCommand(db)] + none == [SelectCommand(db)];
    EncodeOne(SelectCommand(db));
    assert Decimal(2) == [50] && Decimal(6) == [54];
    hide Decimal, EncodeArgs, Encode;
    SelectArgs(db);
    Regroup(SELECT_NAME, Decimal(|Decimal(db)|), Decimal(db));
  }

  lemma Regroup(name: seq<byte>, len: seq<byte>, db: seq<byte>)
    ensures [STAR, 50, CR, LF, DOLLAR, 54, CR, LF] + name + CrLf() + [DOLLAR] + len + CrLf() + db + CrLf()
      == [STAR] + [50] + CrLf() + (([DOLLAR] + [54] + CrLf() + name + CrLf()) + ([DOLLAR] + len + CrLf() + db + CrLf()))
  {
    var header: seq<byte>, tail := [STAR, 50, CR, LF, DOLLAR, 54, CR, LF], [DOLLAR] + len + CrLf() + db + CrLf();
    assert header + name + CrLf() + [DOLLAR] + len + CrLf() + db + CrLf() == header + name + CrLf() + tail;
    assert [STAR] + [50] + CrLf() + ([DOLLAR] + [54] + CrLf()) == header;
  }
}
