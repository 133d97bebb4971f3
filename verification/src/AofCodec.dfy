/**
 The format of the append only file: each command is an array of bulk strings.  `Encode` is what
 `catAppendOnlyGenericCommand` writes; the reading functions are what `loadAppendOnlyFile` does with
 the bytes that are left of the file, including every way the file can end early.
 */
module AofCodec {
  import opened Common

  type Command = seq<seq<byte>>

  const CR: byte := 13
  const LF: byte := 10
  const STAR: byte := 42     // '*'
  const DOLLAR: byte := 36   // '$'
  const DIGIT_0: byte := 48
  const LINE_MAX: nat := 127  // sizeof(buf) - 1

  // ---------- numbers ----------

  /** `ll2string` of a non-negative number. */
  function Decimal(n: nat): (s: seq<byte>)
    ensures |s| >= 1
  {
    if n < 10 then [DIGIT_0 + n] else Decimal(n / 10) + [DIGIT_0 + n % 10]
  }

  predicate IsDigit(b: byte) {
    DIGIT_0 <= b < DIGIT_0 + 10
  }

  /** The number written by the digits at the start of s, continuing one with value acc. */
  function Digits(s: seq<byte>, acc: nat): nat {
    if s == [] || !IsDigit(s[0]) then acc else Digits(s[1..], 10 * acc + (s[0] - DIGIT_0))
  }

  predicate IsSpace(b: byte) {
    b == 32 || 9 <= b <= 13
  }

  /** `atoi` and `strtol`: leading white space, a sign, then digits up to the first other character. */
  function ParseInt(s: seq<byte>): int {
    if s == [] then 0
    else if IsSpace(s[0]) then ParseInt(s[1..])
    else if s[0] == 45 then 0 - Digits(s[1..], 0)
    else if s[0] == 43 then Digits(s[1..], 0)
    else Digits(s, 0)
  }

  /** A number as C writes it. */
  function Numeral(x: int): (s: seq<byte>)
    ensures |s| >= 1
  {
    if x < 0 then [45] + Decimal(-x) else Decimal(x)
  }

  /** Reading a number stops after its digits and keeps its sign. */
  lemma ParseNumeral(x: int, rest: seq<byte>)
    requires rest == [] || !IsDigit(rest[0])
    ensures ParseInt(Numeral(x) + rest) == x
  {
    hide Decimal, Digits, ParseInt;
    var s := Numeral(x) + rest;
    if x < 0 {
      DigitsOfDecimal(-x, rest);
      assert s[1..] == Decimal(-x) + rest;
      ParseNegative(s);
    } else {
      DecimalDigits(x);
      DigitsOfDecimal(x, rest);
      assert s[0] == Decimal(x)[0];
      ParsePlain(s);
    }
  }

  lemma ParseNegative(s: seq<byte>)
    requires s != [] && s[0] == 45
    ensures ParseInt(s) == 0 - Digits(s[1..], 0)
  {
    hide Digits;
  }

  lemma ParsePlain(s: seq<byte>)
    requires s != [] && IsDigit(s[0])
    ensures ParseInt(s) == Digits(s, 0)
  {
    hide Digits;
  }

  lemma {:induction false} DigitsOfDecimal(n: nat, rest: seq<byte>)
    requires rest == [] || !IsDigit(rest[0])
    ensures Digits(Decimal(n) + rest, 0) == n
  {
    DigitsContinue(n, rest, 0);
  }

  function Pow10(k: nat): (p: nat)
    ensures p >= 1
  {
    if k == 0 then 1 else 10 * Pow10(k - 1)
  }

  /** Reading the digits of n after acc gives acc shifted past them, plus n; the same for any cut. */
  lemma {:induction false} DigitsContinue(n: nat, rest: seq<byte>, acc: nat)
    ensures Digits(Decimal(n) + rest, acc) == Digits(rest, acc * Pow10(|Decimal(n)|) + n)
  {
    if n < 10 {
      assert (Decimal(n) + rest)[1..] == rest;
      assert Pow10(1) == 10;
    } else {
      var d: seq<byte> := [DIGIT_0 + n % 10];
      assert Decimal(n) + rest == Decimal(n / 10) + (d + rest);
      DigitsContinue(n / 10, d + rest, acc);
      assert (d + rest)[1..] == rest;
      assert |Decimal(n)| == |Decimal(n / 10)| + 1;
      Shift(acc, n, |Decimal(n / 10)|);
    }
  }

  lemma Shift(acc: nat, n: nat, k: nat)
    ensures 10 * (acc * Pow10(k) + n / 10) + n % 10 == acc * Pow10(k + 1) + n
  {
    assert 10 * (acc * Pow10(k)) == acc * (10 * Pow10(k));
  }

  lemma {:induction false} DecimalLength(n: nat, k: nat)
    requires n < Pow10(k) && k >= 1
    ensures |Decimal(n)| <= k
  {
    if n >= 10 {
      DecimalLength(n / 10, k - 1);
    }
  }

  lemma {:induction false} DecimalDigits(n: nat)
    ensures forall i :: 0 <= i < |Decimal(n)| ==> IsDigit(Decimal(n)[i])
    ensures n > 0 ==> Decimal(n)[0] != DIGIT_0
  {
    if n >= 10 {
      DecimalDigits(n / 10);
    }
  }

  // ---------- writing ----------

  function CrLf(): seq<byte> {
    [CR, LF]
  }

  function EncodeArg(arg: seq<byte>): seq<byte> {
    [DOLLAR] + Decimal(|arg|) + CrLf() + arg + CrLf()
  }

  function EncodeArgs(args: Command): seq<byte> {
    if args == [] then [] else EncodeArg(args[0]) + EncodeArgs(args[1..])
  }

  function EncodeCommand(cmd: Command): seq<byte> {
    [STAR] + Decimal(|cmd|) + CrLf() + EncodeArgs(cmd)
  }

  function Encode(cmds: seq<Command>): seq<byte> {
    if cmds == [] then [] else EncodeCommand(cmds[0]) + Encode(cmds[1..])
  }

  lemma {:induction false} EncodeArgsSnoc(args: Command, arg: seq<byte>)
    ensures EncodeArgs(args + [arg]) == EncodeArgs(args) + EncodeArg(arg)
  {
    if args == [] {
      assert args + [arg] == [arg] && [arg][1..] == [];
    } else {
      assert (args + [arg])[1..] == args[1..] + [arg];
      EncodeArgsSnoc(args[1..], arg);
    }
  }

  lemma {:induction false} EncodeConcat(a: seq<Command>, b: seq<Command>)
    ensures Encode(a + b) == Encode(a) + Encode(b)
  {
    if a == [] {
      assert a + b == b;
    } else {
      assert (a + b)[1..] == a[1..] + b;
      EncodeConcat(a[1..], b);
    }
  }

  /** `catAppendOnlyGenericCommand` */
  method CatAppendOnlyGenericCommand(dst: seq<byte>, argv: Command) returns (r: seq<byte>)
    ensures r == dst + EncodeCommand(argv)
  {
    hide Decimal;
    r := dst + ([STAR] + Decimal(|argv|) + CrLf());
    for j := 0 to |argv|
      invariant r == dst + ([STAR] + Decimal(|argv|) + CrLf() + EncodeArgs(argv[..j]))
    {
      assert argv[..j + 1] == argv[..j] + [argv[j]];
      EncodeArgsSnoc(argv[..j], argv[j]);
      r := r + ([DOLLAR] + Decimal(|argv[j]|) + CrLf());
      r := r + argv[j];
      r := r + CrLf();
    }
    assert argv[..|argv|] == argv;
  }

  // ---------- reading ----------

  /** The number of bytes `fgets` takes: up to and including a newline, at most `limit`. */
  function LineLength(s: seq<byte>, limit: nat): (n: nat)
    ensures n <= |s| && n <= limit && (s != [] && limit > 0 ==> n > 0)
    ensures forall i :: 0 <= i < n - 1 ==> s[i] != LF
    ensures n < limit && n < |s| ==> n > 0 && s[n - 1] == LF
  {
    if s == [] || limit == 0 then 0 else if s[0] == LF then 1 else 1 + LineLength(s[1..], limit - 1)
  }

  /** What `fgets` returns; eof says that it ran into the end of the file. */
  datatype Line = NoLine | Line(text: seq<byte>, rest: seq<byte>, eof: bool)

  function ReadLine(s: seq<byte>): (r: Line)
    ensures r.NoLine? <==> s == []
    ensures r.Line? ==> r.text + r.rest == s && r.text != []
  {
    var n := LineLength(s, LINE_MAX);
    if s == [] then NoLine else Line(s[..n], s[n..], n < LINE_MAX && s[n - 1] != LF)
  }

  /** Short: the file ends inside the argument.  Bad: not in the format, or of a length that cannot be allocated. */
  datatype ArgRead = Arg(arg: seq<byte>, rest: seq<byte>) | ShortArg | BadArg

  function ReadArg(s: seq<byte>): (r: ArgRead)
    ensures r.Arg? ==> |r.rest| < |s|
  {
    match ReadLine(s)
    case NoLine => ShortArg
    case Line(text, rest, _) =>
      if text[0] != DOLLAR then BadArg
      else
        var len := ParseInt(text[1..]);
        if len < 0 then BadArg
        else if len > |rest| then ShortArg
        else if |rest| - len < 2 then ShortArg
        else Arg(rest[..len], rest[len + 2..])
  }

  datatype ArgsRead = Args(argv: Command, rest: seq<byte>) | ShortArgs | BadArgs

  function ReadArgs(s: seq<byte>, n: nat): (r: ArgsRead)
    ensures r.Args? ==> |r.argv| == n && |r.rest| <= |s|
    decreases n
  {
    if n == 0 then Args([], s)
    else
      match ReadArg(s)
      case ShortArg => ShortArgs
      case BadArg => BadArgs
      case Arg(arg, rest) => Prepend(arg, ReadArgs(rest, n - 1))
  }

  function Prepend(arg: seq<byte>, r: ArgsRead): ArgsRead {
    match r
    case Args(argv, rest) => Args([arg] + argv, rest)
    case ShortArgs => ShortArgs
    case BadArgs => BadArgs
  }

  /** AtEnd: no bytes left.  Short: the end of the file cuts a command.  Bad: the server refuses to start. */
  datatype CommandRead = AtEnd | Got(cmd: Command, rest: seq<byte>) | Short | Bad

  function ReadCommand(s: seq<byte>): (r: CommandRead)
    ensures r.Got? ==> |r.rest| < |s| && |r.cmd| >= 1
    ensures r.AtEnd? <==> s == []
  {
    match ReadLine(s)
    case NoLine => AtEnd
    case Line(text, rest, eof) =>
      if text[0] != STAR then Bad
      else if |text| == 1 || text[1] == 0 then (if eof then Short else Bad)
      else
        var argc := ParseInt(text[1..]);
        if argc < 1 then Bad
        else
          match ReadArgs(rest, argc)
          case Args(argv, rest') => Got(argv, rest')
          case ShortArgs => Short
          case BadArgs => Bad
  }

  // ---------- transactions ----------

  const MULTI_NAME: seq<byte> := [77, 85, 76, 84, 73]               // "MULTI"
  const EXEC_NAME: seq<byte> := [69, 88, 69, 67]                    // "EXEC"
  const DISCARD_NAME: seq<byte> := [68, 73, 83, 67, 65, 82, 68]     // "DISCARD"

  /** Command names are looked up without regard to case. */
  function Upper(s: seq<byte>): seq<byte> {
    seq(|s|, i requires 0 <= i < |s| => if 97 <= s[i] <= 122 then s[i] - 32 else s[i])
  }

  predicate IsMulti(cmd: Command) {
    cmd != [] && Upper(cmd[0]) == MULTI_NAME
  }

  predicate EndsMulti(cmd: Command) {
    cmd != [] && Upper(cmd[0]) in {EXEC_NAME, DISCARD_NAME}
  }

  /** Whether the loader's client is in a transaction after a command.  Commands in between run at once. */
  function MultiAfter(cmd: Command, multi: bool): bool {
    IsMulti(cmd) || (multi && !EndsMulti(cmd))
  }

  /** The same after a sequence of commands. */
  function Multi(cmds: seq<Command>, multi: bool): bool {
    if cmds == [] then multi else Multi(cmds[1..], MultiAfter(cmds[0], multi))
  }

  /** The commands end inside a transaction. */
  predicate LeavesOpen(cmds: seq<Command>) {
    Multi(cmds, false)
  }

  lemma {:induction false} MultiConcat(a: seq<Command>, b: seq<Command>, multi: bool)
    ensures Multi(a + b, multi) == Multi(b, Multi(a, multi))
  {
    if a == [] {
      assert a + b == b;
    } else {
      assert (a + b)[1..] == a[1..] + b;
      MultiConcat(a[1..], b, MultiAfter(a[0], multi));
    }
  }

  ghost predicate NoneEnds(cmds: seq<Command>) {
    forall i :: 0 <= i < |cmds| ==> !EndsMulti(cmds[i])
  }

  /** The MULTI at i has neither EXEC nor DISCARD after it. */
  ghost predicate Unended(cmds: seq<Command>, i: nat)
    requires i < |cmds|
  {
    IsMulti(cmds[i]) && NoneEnds(cmds[i + 1..])
  }

  lemma {:induction false} StaysOpen(cmds: seq<Command>)
    requires NoneEnds(cmds)
    ensures Multi(cmds, true)
  {
    hide EndsMulti, IsMulti;
    if cmds != [] {
      StaysOpen(cmds[1..]);
    }
  }

  lemma UnendedIsOpen(cmds: seq<Command>, i: nat)
    requires i < |cmds| && Unended(cmds, i)
    ensures LeavesOpen(cmds)
  {
    hide EndsMulti, IsMulti, Multi;
    var upTo := cmds[..i + 1];
    LastCommand(upTo);
    assert cmds == upTo + cmds[i + 1..];
    MultiConcat(upTo, cmds[i + 1..], false);
    StaysOpen(cmds[i + 1..]);
  }

  /** LeavesOpen by its meaning. */
  lemma {:induction false} OpenMeansUnended(cmds: seq<Command>)
    ensures LeavesOpen(cmds) <==> exists i :: 0 <= i < |cmds| && Unended(cmds, i)
  {
    hide IsMulti, EndsMulti;
    if LeavesOpen(cmds) && cmds != [] {
      var init, last := cmds[..|cmds| - 1], cmds[|cmds| - 1];
      LastCommand(cmds);
      if IsMulti(last) {
        assert Unended(cmds, |cmds| - 1);
      } else {
        OpenMeansUnended(init);
        var i :| 0 <= i < |init| && Unended(init, i);
        assert cmds[i + 1..] == init[i + 1..] + [last];
        assert Unended(cmds, i);
      }
    }
    forall i | 0 <= i < |cmds| && Unended(cmds, i) ensures LeavesOpen(cmds) {
      UnendedIsOpen(cmds, i);
    }
  }

  lemma LastCommand(cmds: seq<Command>)
    requires cmds != []
    ensures LeavesOpen(cmds) == MultiAfter(cmds[|cmds| - 1], LeavesOpen(cmds[..|cmds| - 1]))
  {
    hide MultiAfter;
    var init, last := cmds[..|cmds| - 1], cmds[|cmds| - 1];
    var one: seq<Command> := [last];
    assert cmds == init + one && one[1..] == [];
    MultiConcat(init, one, false);
  }

  // ---------- loading ----------

  /**
   The outcome of loading: the size of the RDB preamble, the commands that were run after it, the
   offset the file is truncated to if its end was unexpected, and whether it was.  Fatal: the
   server exits.
   */
  datatype Load = EmptyFile | Loaded(preamble: nat, cmds: seq<Command>, validUpTo: nat, cut: bool) | Fatal

  /** How far the main loop has come: its offset, `valid_up_to`, and the state of its client. */
  datatype Progress = Progress(preamble: nat, cmds: seq<Command>, pos: nat, validUpTo: nat, multi: bool)

  function UnexpectedEnd(at: Progress, truncated: bool): Load {
    if truncated then Loaded(at.preamble, at.cmds, at.validUpTo, true) else Fatal
  }

  /** A command of len bytes has been run. */
  function Ran(at: Progress, cmd: Command, len: nat, truncated: bool): Progress {
    Progress(at.preamble, at.cmds + [cmd], at.pos + len, if truncated then at.pos + len else at.validUpTo, MultiAfter(cmd, at.multi))
  }

  /** The main loop. */
  function LoadFrom(s: seq<byte>, at: Progress, known: seq<byte> -> bool, truncated: bool): Load
    decreases |s|
  {
    match ReadCommand(s)
    case AtEnd => if at.multi then UnexpectedEnd(at, truncated) else Loaded(at.preamble, at.cmds, at.validUpTo, false)
    case Short => UnexpectedEnd(at, truncated)
    case Bad => Fatal
    case Got(cmd, rest) =>
      if !known(cmd[0]) then Fatal
      else LoadFrom(rest, Ran(at, cmd, |s| - |rest|, truncated), known, truncated)
  }

  const MAGIC: seq<byte> := [82, 69, 68, 73, 83]  // "REDIS"

  /** rdb says how many bytes the RDB loader reads of a file, if it does not fail. */
  function LoadFile(file: seq<byte>, rdb: seq<byte> -> Option<nat>, known: seq<byte> -> bool, truncated: bool): Load {
    if file == [] then EmptyFile
    else if |file| >= 5 && file[..5] == MAGIC then
      match rdb(file)
      case Some(n) => if n <= |file| then LoadFrom(file[n..], Progress(n, [], n, 0, false), known, truncated) else Fatal
      case None => Fatal
    else LoadFrom(file, Progress(0, [], 0, 0, false), known, truncated)
  }
}
