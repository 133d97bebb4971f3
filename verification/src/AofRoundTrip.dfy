/**
 Loading undoes encoding, and a file cut at any byte gives back exactly the commands it wholly contains.
 */
module AofRoundTrip {
  import opened Common
  import opened AofCodec

  /** Commands that fit the C types: a positive `int` argument count, lengths below 2^63. */
  ghost predicate WellTyped(cmd: Command) {
    1 <= |cmd| <= 0x7FFF_FFFF && forall i :: 0 <= i < |cmd| ==> |cmd[i]| < 0x8000_0000_0000_0000
  }

  // ---------- lines ----------

  lemma {:induction false} LineLengthAt(s: seq<byte>, k: nat, limit: nat)
    requires k < |s| && k < limit && s[k] == LF && forall i :: 0 <= i < k ==> s[i] != LF
    ensures LineLength(s, limit) == k + 1
  {
    if k > 0 {
      LineLengthAt(s[1..], k - 1, limit - 1);
    }
  }

  lemma {:induction false} LineLengthAll(s: seq<byte>, limit: nat)
    requires |s| <= limit && forall i :: 0 <= i < |s| ==> s[i] != LF
    ensures LineLength(s, limit) == |s|
  {
    if s != [] {
      LineLengthAll(s[1..], limit - 1);
    }
  }

  lemma ShortNumber(n: nat)
    requires n < 0x8000_0000_0000_0000
    ensures |Decimal(n)| <= 19
  {
    assert Pow10(5) == 100_000;
    assert Pow10(10) == 10_000_000_000;
    assert Pow10(15) == 1_000_000_000_000_000;
    assert Pow10(19) == 10_000_000_000_000_000_000;
    DecimalLength(n, 19);
  }

  /** The line that announces a number: a mark, its digits, CR and LF. */
  function NumberLine(mark: byte, n: nat): seq<byte> {
    [mark] + Decimal(n) + CrLf()
  }

  lemma NumberLineBytes(mark: byte, n: nat)
    requires mark != LF && n < 0x8000_0000_0000_0000
    ensures |NumberLine(mark, n)| <= 22 && NumberLine(mark, n)[|NumberLine(mark, n)| - 1] == LF
    ensures forall i :: 0 <= i < |NumberLine(mark, n)| - 1 ==> NumberLine(mark, n)[i] != LF
  {
    hide Decimal;
    ShortNumber(n);
    DecimalDigits(n);
  }

  lemma ReadNumberLine(mark: byte, n: nat, tail: seq<byte>)
    requires mark != LF && n < 0x8000_0000_0000_0000
    ensures ReadLine(NumberLine(mark, n) + tail) == Line(NumberLine(mark, n), tail, false)
    ensures ParseInt(NumberLine(mark, n)[1..]) == n
  {
    hide Decimal;
    var line := NumberLine(mark, n);
    NumberLineBytes(mark, n);
    LineLengthAt(line + tail, |line| - 1, LINE_MAX);
    assert line[1..] == Decimal(n) + CrLf();
    DecimalDigits(n);
    DigitsOfDecimal(n, CrLf());
  }

  /** A number line that the end of the file cuts. */
  lemma ReadCutLine(mark: byte, n: nat, k: nat)
    requires mark != LF && n < 0x8000_0000_0000_0000 && 0 < k < |NumberLine(mark, n)|
    ensures ReadLine(NumberLine(mark, n)[..k]) == Line(NumberLine(mark, n)[..k], [], true)
    ensures ParseInt(NumberLine(mark, n)[..k][1..]) >= (if n > 0 && k > 1 then 1 else 0)
  {
    hide Decimal, NumberLine;
    NumberLineBytes(mark, n);
    LineLengthAll(NumberLine(mark, n)[..k], LINE_MAX);
    CutNumber(mark, n, k);
  }

  lemma CutNumber(mark: byte, n: nat, k: nat)
    requires 0 < k < |NumberLine(mark, n)|
    ensures ParseInt(NumberLine(mark, n)[..k][1..]) >= (if n > 0 && k > 1 then 1 else 0)
    ensures k > 1 ==> NumberLine(mark, n)[..k][1] != 0
  {
    hide Decimal;
    DecimalDigits(n);
    var s := NumberLine(mark, n)[..k][1..];
    if k > 1 {
      assert s[0] == Decimal(n)[0];
      DigitsAtLeast(s[1..], s[0] - DIGIT_0);
    }
  }

  lemma {:induction false} DigitsAtLeast(s: seq<byte>, acc: nat)
    ensures Digits(s, acc) >= acc
  {
    if s != [] && IsDigit(s[0]) {
      DigitsAtLeast(s[1..], 10 * acc + (s[0] - DIGIT_0));
    }
  }

  // ---------- arguments ----------

  lemma ArgRoundTrip(arg: seq<byte>, tail: seq<byte>)
    requires |arg| < 0x8000_0000_0000_0000
    ensures ReadArg(EncodeArg(arg) + tail) == Arg(arg, tail)
  {
    hide Decimal, ParseInt, ReadLine;
    var rest := arg + CrLf() + tail;
    assert EncodeArg(arg) + tail == NumberLine(DOLLAR, |arg|) + rest;
    ReadNumberLine(DOLLAR, |arg|, rest);
    assert rest[..|arg|] == arg && rest[|arg| + 2..] == tail;
  }

  lemma ArgCut(arg: seq<byte>, k: nat)
    requires |arg| < 0x8000_0000_0000_0000 && k < |EncodeArg(arg)|
    ensures ReadArg(EncodeArg(arg)[..k]) == ShortArg
  {
    hide Decimal, ParseInt, ReadLine;
    var line := NumberLine(DOLLAR, |arg|);
    assert EncodeArg(arg) == line + (arg + CrLf());
    if 0 < k < |line| {
      assert EncodeArg(arg)[..k] == line[..k];
      ReadCutLine(DOLLAR, |arg|, k);
    } else if k > 0 {
      var rest := (arg + CrLf())[..k - |line|];
      assert EncodeArg(arg)[..k] == line + rest;
      ReadNumberLine(DOLLAR, |arg|, rest);
    }
  }

  lemma {:induction false} ArgsRoundTrip(args: Command, tail: seq<byte>)
    requires forall i :: 0 <= i < |args| ==> |args[i]| < 0x8000_0000_0000_0000
    ensures ReadArgs(EncodeArgs(args) + tail, |args|) == Args(args, tail)
  {
    hide ReadArg, EncodeArg;
    if args == [] {
      assert EncodeArgs(args) + tail == tail;
    } else {
      assert EncodeArgs(args) + tail == EncodeArg(args[0]) + (EncodeArgs(args[1..]) + tail);
      ArgRoundTrip(args[0], EncodeArgs(args[1..]) + tail);
      ArgsRoundTrip(args[1..], tail);
    }
  }

  lemma {:induction false} ArgsCut(args: Command, k: nat)
    requires forall i :: 0 <= i < |args| ==> |args[i]| < 0x8000_0000_0000_0000
    requires k < |EncodeArgs(args)|
    ensures ReadArgs(EncodeArgs(args)[..k], |args|) == ShortArgs
  {
    hide ReadArg, EncodeArg;
    var first := EncodeArg(args[0]);
    if k < |first| {
      assert EncodeArgs(args)[..k] == first[..k];
      ArgCut(args[0], k);
    } else {
      var rest := EncodeArgs(args[1..])[..k - |first|];
      assert EncodeArgs(args)[..k] == first + rest;
      ArgRoundTrip(args[0], rest);
      ArgsCut(args[1..], k - |first|);
    }
  }

  // ---------- commands ----------

  lemma CommandRoundTrip(cmd: Command, tail: seq<byte>)
    requires WellTyped(cmd)
    ensures ReadCommand(EncodeCommand(cmd) + tail) == Got(cmd, tail)
  {
    hide Decimal, ParseInt, ReadLine, ReadArgs, EncodeArgs;
    assert EncodeCommand(cmd) + tail == NumberLine(STAR, |cmd|) + (EncodeArgs(cmd) + tail);
    ReadNumberLine(STAR, |cmd|, EncodeArgs(cmd) + tail);
    DecimalDigits(|cmd|);
    assert NumberLine(STAR, |cmd|)[1] == Decimal(|cmd|)[0];
    ArgsRoundTrip(cmd, tail);
  }

  lemma CommandCut(cmd: Command, k: nat)
    requires WellTyped(cmd) && 0 < k < |EncodeCommand(cmd)|
    ensures ReadCommand(EncodeCommand(cmd)[..k]) == Short
  {
    hide Decimal, ParseInt, ReadLine, EncodeArgs;
    var line := NumberLine(STAR, |cmd|);
    assert EncodeCommand(cmd) == line + EncodeArgs(cmd);
    if k < |line| {
      assert EncodeCommand(cmd)[..k] == line[..k];
      ReadCutLine(STAR, |cmd|, k);
      CutNumber(STAR, |cmd|, k);
    } else {
      var rest := EncodeArgs(cmd)[..k - |line|];
      assert EncodeCommand(cmd)[..k] == line + rest;
      ReadNumberLine(STAR, |cmd|, rest);
      DecimalDigits(|cmd|);
      assert line[1] == Decimal(|cmd|)[0];
      ArgsCut(cmd, k - |line|);
    }
  }

  // ---------- files ----------

  /** How many commands the first k bytes of their encoding wholly contain. */
  function Whole(cmds: seq<Command>, k: nat): (m: nat)
    ensures m <= |cmds|
  {
    if cmds == [] || k < |EncodeCommand(cmds[0])| then 0 else 1 + Whole(cmds[1..], k - |EncodeCommand(cmds[0])|)
  }

  lemma {:induction false} WholeIsWhole(cmds: seq<Command>, k: nat)
    ensures |Encode(cmds[..Whole(cmds, k)])| <= k
    ensures Whole(cmds, k) < |cmds| ==> k < |Encode(cmds[..Whole(cmds, k) + 1])|
  {
    hide EncodeCommand;
    if cmds != [] {
      if k < |EncodeCommand(cmds[0])| {
        assert cmds[..1][0] == cmds[0] && cmds[..1][1..] == [];
      } else {
        WholeIsWhole(cmds[1..], k - |EncodeCommand(cmds[0])|);
        var m := Whole(cmds, k);
        assert cmds[..m][1..] == cmds[1..][..m - 1];
        if m < |cmds| {
          assert cmds[..m + 1][1..] == cmds[1..][..m];
        }
      }
    }
  }

  /** Where the loop stands after these commands. */
  function RanAll(at: Progress, cmds: seq<Command>, truncated: bool): Progress {
    var len := |Encode(cmds)|;
    Progress(at.preamble, at.cmds + cmds, at.pos + len,
             if truncated && cmds != [] then at.pos + len else at.validUpTo, Multi(cmds, at.multi))
  }

  /** The end of the file, inside a command or not. */
  function AtCut(at: Progress, inside: bool, truncated: bool): Load {
    if inside || at.multi then UnexpectedEnd(at, truncated) else Loaded(at.preamble, at.cmds, at.validUpTo, false)
  }

  lemma RanStep(at: Progress, cmds: seq<Command>, m: nat, truncated: bool)
    requires 0 < m <= |cmds|
    ensures cmds[..m][1..] == cmds[1..][..m - 1] && |Encode(cmds[..m])| == |EncodeCommand(cmds[0])| + |Encode(cmds[1..][..m - 1])|
    ensures RanAll(Ran(at, cmds[0], |EncodeCommand(cmds[0])|, truncated), cmds[1..][..m - 1], truncated) == RanAll(at, cmds[..m], truncated)
  {
    hide EncodeCommand, MultiAfter;
    FirstOf(at.cmds, cmds, m);
    assert cmds[..m][0] == cmds[0];
    if m == 1 {
      assert cmds[1..][..0] == [];
    }
  }

  /** The loop over a file that starts with these commands and is cut after k bytes. */
  lemma {:induction false} LoadCut(cmds: seq<Command>, k: nat, at: Progress, known: seq<byte> -> bool, truncated: bool)
    requires forall i :: 0 <= i < |cmds| ==> WellTyped(cmds[i]) && known(cmds[i][0])
    requires k <= |Encode(cmds)|
    ensures var m := Whole(cmds, k);
      LoadFrom(Encode(cmds)[..k], at, known, truncated) == AtCut(RanAll(at, cmds[..m], truncated), |Encode(cmds[..m])| < k, truncated)
  {
    hide EncodeCommand, ReadCommand, WellTyped, MultiAfter;
    var m := Whole(cmds, k);
    if cmds == [] || k < |EncodeCommand(cmds[0])| {
      assert m == 0 && cmds[..0] == [] && at.cmds + [] == at.cmds;
      assert RanAll(at, cmds[..m], truncated) == at;
      if k > 0 {
        assert Encode(cmds)[..k] == EncodeCommand(cmds[0])[..k];
        CommandCut(cmds[0], k);
      }
    } else {
      var first := EncodeCommand(cmds[0]);
      var rest := Encode(cmds[1..])[..k - |first|];
      CutAfter(first, Encode(cmds[1..]), k);
      CommandRoundTrip(cmds[0], rest);
      LoadCut(cmds[1..], k - |first|, Ran(at, cmds[0], |first|, truncated), known, truncated);
      RanStep(at, cmds, m, truncated);
    }
  }

  lemma CutAfter(a: seq<byte>, b: seq<byte>, k: nat)
    requires |a| <= k <= |a| + |b|
    ensures (a + b)[..k] == a + b[..k - |a|]
  {
  }

  lemma FirstOf(done: seq<Command>, cmds: seq<Command>, m: nat)
    requires 0 < m <= |cmds|
    ensures cmds[..m][1..] == cmds[1..][..m - 1] && done + [cmds[0]] + cmds[1..][..m - 1] == done + cmds[..m]
  {
  }

  lemma EncodeNonEmpty(cmds: seq<Command>)
    requires cmds != []
    ensures Encode(cmds) != []
  {
  }

  lemma NotPreamble(cmds: seq<Command>, k: nat)
    requires 0 < k <= |Encode(cmds)|
    ensures Encode(cmds)[..k][0] == STAR
  {
  }

  /**
   A nonempty file cut at any byte, loaded with truncated loading on, gives exactly the commands it
   wholly contains, and the offset it is cut to is the end of the last of them.
   */
  lemma TruncatedLoad(cmds: seq<Command>, k: nat, rdb: seq<byte> -> Option<nat>, known: seq<byte> -> bool)
    requires forall i :: 0 <= i < |cmds| ==> WellTyped(cmds[i]) && known(cmds[i][0])
    requires 0 < k <= |Encode(cmds)|
    ensures var m := Whole(cmds, k);
      LoadFile(Encode(cmds)[..k], rdb, known, true)
        == Loaded(0, cmds[..m], |Encode(cmds[..m])|, |Encode(cmds[..m])| < k || LeavesOpen(cmds[..m]))
  {
    hide LoadFrom, Whole, WellTyped, Multi;
    NotPreamble(cmds, k);
    LoadCut(cmds, k, Progress(0, [], 0, 0, false), known, true);
    assert [] + cmds[..Whole(cmds, k)] == cmds[..Whole(cmds, k)];
  }

  /**
   With truncated loading off, a cut file loads if and only if the cut is between two commands and no
   transaction is open there.
   */
  lemma CutRefused(cmds: seq<Command>, k: nat, rdb: seq<byte> -> Option<nat>, known: seq<byte> -> bool)
    requires forall i :: 0 <= i < |cmds| ==> WellTyped(cmds[i]) && known(cmds[i][0])
    requires 0 < k <= |Encode(cmds)|
    ensures var m := Whole(cmds, k);
      LoadFile(Encode(cmds)[..k], rdb, known, false)
        == if |Encode(cmds[..m])| == k && !LeavesOpen(cmds[..m]) then Loaded(0, cmds[..m], 0, false) else Fatal
  {
    hide LoadFrom, Whole, WellTyped, Multi, Encode;
    NotPreamble(cmds, k);
    WholeIsWhole(cmds, k);
    LoadCut(cmds, k, Progress(0, [], 0, 0, false), known, false);
    assert [] + cmds[..Whole(cmds, k)] == cmds[..Whole(cmds, k)];
  }

  lemma {:induction false} AllWhole(cmds: seq<Command>)
    ensures Whole(cmds, |Encode(cmds)|) == |cmds|
  {
    hide EncodeCommand;
    if cmds != [] {
      AllWhole(cmds[1..]);
    }
  }

  /** Loading undoes encoding, unless the commands end inside a transaction and truncated loading is off. */
  lemma RoundTrip(cmds: seq<Command>, rdb: seq<byte> -> Option<nat>, known: seq<byte> -> bool, truncated: bool)
    requires forall i :: 0 <= i < |cmds| ==> WellTyped(cmds[i]) && known(cmds[i][0])
    requires cmds != []
    ensures LoadFile(Encode(cmds), rdb, known, truncated) ==
      if truncated then Loaded(0, cmds, |Encode(cmds)|, LeavesOpen(cmds))
      else if LeavesOpen(cmds) then Fatal
      else Loaded(0, cmds, 0, false)
  {
    hide Encode, LoadFile, WellTyped, LeavesOpen, Whole;
    EncodeNonEmpty(cmds);
    AllWhole(cmds);
    assert Encode(cmds)[..|Encode(cmds)|] == Encode(cmds) && cmds[..|cmds|] == cmds;
    if truncated {
      TruncatedLoad(cmds, |Encode(cmds)|, rdb, known);
    } else {
      CutRefused(cmds, |Encode(cmds)|, rdb, known);
    }
  }

  // ---------- malformed files ----------

  /** The loop goes on after commands that are whole, whatever follows. */
  lemma {:induction false} LoadPast(cmds: seq<Command>, tail: seq<byte>, at: Progress, known: seq<byte> -> bool, truncated: bool)
    requires forall i :: 0 <= i < |cmds| ==> WellTyped(cmds[i]) && known(cmds[i][0])
    ensures LoadFrom(Encode(cmds) + tail, at, known, truncated) == LoadFrom(tail, RanAll(at, cmds, truncated), known, truncated)
  {
    hide EncodeCommand, ReadCommand, WellTyped, MultiAfter;
    if cmds == [] {
      assert Encode(cmds) + tail == tail && at.cmds + cmds == at.cmds;
    } else {
      var first, rest := EncodeCommand(cmds[0]), Encode(cmds[1..]) + tail;
      assert Encode(cmds) + tail == first + rest;
      CommandRoundTrip(cmds[0], rest);
      LoadPast(cmds[1..], tail, Ran(at, cmds[0], |first|, truncated), known, truncated);
      assert cmds[..|cmds|] == cmds && cmds[1..][..|cmds| - 1] == cmds[1..];
      RanStep(at, cmds, |cmds|, truncated);
    }
  }

  /** The server exits if what follows the whole commands is not in the format, or is an unknown command. */
  lemma BadTailRefused(cmds: seq<Command>, tail: seq<byte>, rdb: seq<byte> -> Option<nat>, known: seq<byte> -> bool, truncated: bool)
    requires forall i :: 0 <= i < |cmds| ==> WellTyped(cmds[i]) && known(cmds[i][0])
    requires tail != [] && !(MAGIC <= Encode(cmds) + tail)
    requires ReadCommand(tail).Bad? || (ReadCommand(tail).Got? && !known(ReadCommand(tail).cmd[0]))
    ensures LoadFile(Encode(cmds) + tail, rdb, known, truncated) == Fatal
  {
    hide Encode, ReadCommand, WellTyped, RanAll;
    var file := Encode(cmds) + tail;
    assert file != [];
    LoadPast(cmds, tail, Progress(0, [], 0, 0, false), known, truncated);
  }

  lemma StarIsNoMagic(file: seq<byte>)
    requires file != [] && file[0] == STAR
    ensures !(MAGIC <= file)
  {
  }

  lemma StartsWithStar(cmds: seq<Command>, tail: seq<byte>)
    requires cmds != [] || (tail != [] && tail[0] == STAR)
    ensures !(MAGIC <= Encode(cmds) + tail)
  {
    if cmds != [] {
      EncodeNonEmpty(cmds);
      NotPreamble(cmds, |Encode(cmds)|);
      assert Encode(cmds)[..|Encode(cmds)|] == Encode(cmds);
    } else {
      assert Encode(cmds) + tail == tail;
    }
    StarIsNoMagic(Encode(cmds) + tail);
  }

  /** After whole commands, something that is no command. */
  lemma NoStarRefused(cmds: seq<Command>, tail: seq<byte>, rdb: seq<byte> -> Option<nat>, known: seq<byte> -> bool, truncated: bool)
    requires forall i :: 0 <= i < |cmds| ==> WellTyped(cmds[i]) && known(cmds[i][0])
    requires tail != [] && tail[0] != STAR && (cmds != [] || !(MAGIC <= tail))
    ensures LoadFile(Encode(cmds) + tail, rdb, known, truncated) == Fatal
  {
    hide Encode, LoadFile, WellTyped, ParseInt, LineLength;
    var line := ReadLine(tail);
    assert line.text + line.rest == tail && line.text[0] == tail[0];
    if cmds != [] {
      StartsWithStar(cmds, tail);
    } else {
      EmptyEncoding(cmds);
      assert cmds == cmds[..0] && Encode(cmds) + tail == tail;
    }
    BadTailRefused(cmds, tail, rdb, known, truncated);
  }

  /** A mark, a number and the end of the line. */
  function MarkedLine(mark: byte, x: int): seq<byte> {
    [mark] + Numeral(x) + CrLf()
  }

  lemma ReadMarkedLine(mark: byte, x: int, tail: seq<byte>)
    requires mark != LF && -0x8000_0000_0000_0000 < x < 0x8000_0000_0000_0000
    ensures ReadLine(MarkedLine(mark, x) + tail) == Line(MarkedLine(mark, x), tail, false)
    ensures ParseInt(MarkedLine(mark, x)[1..]) == x
    ensures MarkedLine(mark, x)[0] == mark && |MarkedLine(mark, x)| > 1 && MarkedLine(mark, x)[1] != 0
  {
    hide Decimal;
    var line := MarkedLine(mark, x);
    var n := if x < 0 then -x else x;
    ShortNumber(n);
    DecimalDigits(n);
    assert forall i :: 0 <= i < |line| - 1 ==> line[i] != LF;
    LineLengthAt(line + tail, |line| - 1, LINE_MAX);
    assert line[1..] == Numeral(x) + CrLf();
    ParseNumeral(x, CrLf());
  }

  /** A count of arguments below one. */
  lemma LowCountRefused(cmds: seq<Command>, count: int, tail: seq<byte>, rdb: seq<byte> -> Option<nat>, known: seq<byte> -> bool, truncated: bool)
    requires forall i :: 0 <= i < |cmds| ==> WellTyped(cmds[i]) && known(cmds[i][0])
    requires -0x8000_0000_0000_0000 < count < 1
    ensures LoadFile(Encode(cmds) + ([STAR] + Numeral(count) + CrLf() + tail), rdb, known, truncated) == Fatal
  {
    hide Encode, LoadFile, WellTyped, ParseInt, ReadLine, Numeral;
    ReadMarkedLine(STAR, count, tail);
    var rest := [STAR] + Numeral(count) + CrLf() + tail;
    assert rest == MarkedLine(STAR, count) + tail;
    StartsWithStar(cmds, rest);
    BadTailRefused(cmds, rest, rdb, known, truncated);
  }

  /** Reading arguments goes on after those that are whole. */
  lemma {:induction false} ArgsPast(args: Command, n: nat, tail: seq<byte>)
    requires |args| < n && forall i :: 0 <= i < |args| ==> |args[i]| < 0x8000_0000_0000_0000
    requires ReadArg(tail).BadArg?
    ensures ReadArgs(EncodeArgs(args) + tail, n) == BadArgs
  {
    hide ReadArg, EncodeArg;
    if args == [] {
      assert EncodeArgs(args) + tail == tail;
    } else {
      assert EncodeArgs(args) + tail == EncodeArg(args[0]) + (EncodeArgs(args[1..]) + tail);
      ArgRoundTrip(args[0], EncodeArgs(args[1..]) + tail);
      ArgsPast(args[1..], n - 1, tail);
    }
  }

  lemma BadArgRefused(cmds: seq<Command>, n: nat, args: Command, tail: seq<byte>,
                      rdb: seq<byte> -> Option<nat>, known: seq<byte> -> bool, truncated: bool)
    requires forall i :: 0 <= i < |cmds| ==> WellTyped(cmds[i]) && known(cmds[i][0])
    requires |args| < n < 0x8000_0000_0000_0000 && forall i :: 0 <= i < |args| ==> |args[i]| < 0x8000_0000_0000_0000
    requires ReadArg(tail).BadArg?
    ensures LoadFile(Encode(cmds) + ([STAR] + Numeral(n) + CrLf() + EncodeArgs(args) + tail), rdb, known, truncated) == Fatal
  {
    hide Encode, LoadFile, WellTyped, ParseInt, ReadLine, Numeral, ReadArg, EncodeArgs;
    var rest := EncodeArgs(args) + tail;
    ReadMarkedLine(STAR, n, rest);
    ArgsPast(args, n, tail);
    var whole := [STAR] + Numeral(n) + CrLf() + EncodeArgs(args) + tail;
    assert whole == MarkedLine(STAR, n) + rest;
    StartsWithStar(cmds, whole);
    BadTailRefused(cmds, whole, rdb, known, truncated);
  }

  /** In a command, after fewer arguments than announced, something that is no argument. */
  lemma NoDollarRefused(cmds: seq<Command>, n: nat, args: Command, tail: seq<byte>,
                        rdb: seq<byte> -> Option<nat>, known: seq<byte> -> bool, truncated: bool)
    requires forall i :: 0 <= i < |cmds| ==> WellTyped(cmds[i]) && known(cmds[i][0])
    requires |args| < n < 0x8000_0000_0000_0000 && forall i :: 0 <= i < |args| ==> |args[i]| < 0x8000_0000_0000_0000
    requires tail != [] && tail[0] != DOLLAR
    ensures LoadFile(Encode(cmds) + ([STAR] + Numeral(n) + CrLf() + EncodeArgs(args) + tail), rdb, known, truncated) == Fatal
  {
    var line := ReadLine(tail);
    assert line.text + line.rest == tail && line.text[0] == tail[0];
    hide Encode, LoadFile, WellTyped, ParseInt, Numeral, EncodeArgs, ReadLine;
    BadArgRefused(cmds, n, args, tail, rdb, known, truncated);
  }

  /**
   An argument of negative length.  The code has no test for it: the length is converted to an unsigned
   number that no allocation can serve, and the process ends there.
   */
  lemma NegativeLengthRefused(cmds: seq<Command>, n: nat, args: Command, len: int, tail: seq<byte>,
                              rdb: seq<byte> -> Option<nat>, known: seq<byte> -> bool, truncated: bool)
    requires forall i :: 0 <= i < |cmds| ==> WellTyped(cmds[i]) && known(cmds[i][0])
    requires |args| < n < 0x8000_0000_0000_0000 && forall i :: 0 <= i < |args| ==> |args[i]| < 0x8000_0000_0000_0000
    requires -0x8000_0000_0000_0000 < len < 0
    ensures LoadFile(Encode(cmds) + ([STAR] + Numeral(n) + CrLf() + EncodeArgs(args) + ([DOLLAR] + Numeral(len) + CrLf() + tail)),
                     rdb, known, truncated) == Fatal
  {
    hide Encode, LoadFile, WellTyped, ParseInt, Numeral, EncodeArgs, ReadLine;
    ReadMarkedLine(DOLLAR, len, tail);
    var rest := [DOLLAR] + Numeral(len) + CrLf() + tail;
    assert rest == MarkedLine(DOLLAR, len) + tail;
    BadArgRefused(cmds, n, args, rest, rdb, known, truncated);
  }

  /** A whole command that the server does not know. */
  lemma UnknownRefused(cmds: seq<Command>, cmd: Command, tail: seq<byte>, rdb: seq<byte> -> Option<nat>, known: seq<byte> -> bool, truncated: bool)
    requires forall i :: 0 <= i < |cmds| ==> WellTyped(cmds[i]) && known(cmds[i][0])
    requires WellTyped(cmd) && !known(cmd[0])
    ensures LoadFile(Encode(cmds) + (EncodeCommand(cmd) + tail), rdb, known, truncated) == Fatal
  {
    var rest := EncodeCommand(cmd) + tail;
    assert rest[0] == STAR;
    hide Encode, LoadFile, EncodeCommand;
    CommandRoundTrip(cmd, tail);
    StartsWithStar(cmds, rest);
    BadTailRefused(cmds, rest, rdb, known, truncated);
  }

  /** A preamble that the RDB loader cannot read. */
  lemma BadPreambleRefused(file: seq<byte>, rdb: seq<byte> -> Option<nat>, known: seq<byte> -> bool, truncated: bool)
    requires MAGIC <= file && rdb(file) == None
    ensures LoadFile(file, rdb, known, truncated) == Fatal
  {
    assert file[..5] == MAGIC;
  }

  // ---------- files with an RDB preamble ----------

  /** A file that starts with an RDB preamble, then commands cut after k bytes. */
  lemma PreambleLoad(pre: seq<byte>, cmds: seq<Command>, k: nat, rdb: seq<byte> -> Option<nat>, known: seq<byte> -> bool, truncated: bool)
    requires forall i :: 0 <= i < |cmds| ==> WellTyped(cmds[i]) && known(cmds[i][0])
    requires k <= |Encode(cmds)| && |pre| >= 5 && pre[..5] == MAGIC && rdb(pre + Encode(cmds)[..k]) == Some(|pre|)
    ensures var m := Whole(cmds, k);
      var unexpected := |Encode(cmds[..m])| < k || LeavesOpen(cmds[..m]);
      LoadFile(pre + Encode(cmds)[..k], rdb, known, truncated) ==
        if truncated then Loaded(|pre|, cmds[..m], if m == 0 then 0 else |pre| + |Encode(cmds[..m])|, unexpected)
        else if unexpected then Fatal
        else Loaded(|pre|, cmds[..m], 0, false)
  {
    hide LoadFrom, Whole, WellTyped, Multi, Encode;
    var file := pre + Encode(cmds)[..k];
    assert file[..5] == pre[..5] && file[|pre|..] == Encode(cmds)[..k];
    LoadCut(cmds, k, Progress(|pre|, [], |pre|, 0, false), known, truncated);
    assert [] + cmds[..Whole(cmds, k)] == cmds[..Whole(cmds, k)];
    assert Multi(cmds[..0], false) == LeavesOpen(cmds[..0]);
  }

  /** What is left of a file after loading it with truncated loading on. */
  function FileAfter(file: seq<byte>, r: Load): seq<byte>
    requires r.Loaded? ==> r.validUpTo <= |file|
  {
    if r.Loaded? && r.cut then file[..r.validUpTo] else file
  }

  /**
   The offset to truncate at is 0 until a first command has been run.  So loading a file whose tail is
   cut keeps the preamble and the whole commands, except that the whole file is emptied if and only
   if the cut is inside the first command after the preamble.
   */
  lemma PreambleKept(pre: seq<byte>, cmds: seq<Command>, k: nat, rdb: seq<byte> -> Option<nat>, known: seq<byte> -> bool)
    requires forall i :: 0 <= i < |cmds| ==> WellTyped(cmds[i]) && known(cmds[i][0])
    requires k <= |Encode(cmds)| && |pre| >= 5 && pre[..5] == MAGIC && rdb(pre + Encode(cmds)[..k]) == Some(|pre|)
    ensures var file := pre + Encode(cmds)[..k];
      var r := LoadFile(file, rdb, known, true);
      && r.Loaded? && r.validUpTo <= |file|
      && (FileAfter(file, r) == pre + Encode(cmds[..Whole(cmds, k)]) <==> k == 0 || Whole(cmds, k) > 0)
      && (FileAfter(file, r) == [] <==> k > 0 && Whole(cmds, k) == 0)
  {
    hide LoadFile, WellTyped, Multi, Encode, Whole;
    var m := Whole(cmds, k);
    PreambleLoad(pre, cmds, k, rdb, known, true);
    WholeIsWhole(cmds, k);
    WholePrefix(cmds, m);
    EmptyEncoding(cmds);
    var file, whole := pre + Encode(cmds)[..k], Encode(cmds[..m]);
    assert |whole| <= k && Encode(cmds)[..k][..|whole|] == whole;
    assert file[..|pre| + |whole|] == pre + whole;
    if |whole| == k {
      assert Encode(cmds)[..k] == whole;
    }
  }

  lemma EmptyEncoding(cmds: seq<Command>)
    ensures Encode(cmds[..0]) == [] && !LeavesOpen(cmds[..0])
  {
  }

  lemma {:induction false} WholePrefix(cmds: seq<Command>, m: nat)
    requires m <= |cmds|
    ensures Encode(cmds[..m]) <= Encode(cmds)
  {
    assert cmds == cmds[..m] + cmds[m..];
    EncodeConcat(cmds[..m], cmds[m..]);
  }
}
