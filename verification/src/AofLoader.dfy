/**
 `loadAppendOnlyFile`: the loading loop, and what it recovers from a file that was written by the
 encoder, whole or cut at any byte.
 */
module AofLoader {
  import opened Common
  import opened AofCodec

  // ---------- the loop ----------

  function PrependAll(argv: Command, r: ArgsRead): ArgsRead {
    match r
    case Args(more, rest) => Args(argv + more, rest)
    case ShortArgs => ShortArgs
    case BadArgs => BadArgs
  }

  /** Read one argument from the file, starting at offset pos. */
  method LoadArg(file: seq<byte>, pos: nat) returns (r: ArgRead)
    requires pos <= |file|
    ensures r == ReadArg(file[pos..])
  {
    hide ParseInt, LineLength;
    var line := ReadLine(file[pos..]);
    if line.NoLine? {
      return ShortArg;
    }
    if line.text[0] != DOLLAR {
      return BadArg;
    }
    var len := ParseInt(line.text[1..]);
    if len < 0 {
      return BadArg;
    }
    LineEnd(file, pos, line);
    var start := pos + |line.text|;
    if len > |file| - start {
      return ShortArg;
    }
    if |file| - start - len < 2 {
      return ShortArg;
    }
    return Arg(file[start..start + len], file[start + len + 2..]);
  }

  /** Read the arguments of one command. */
  method LoadArgv(file: seq<byte>, start: nat, argc: nat) returns (r: ArgsRead)
    requires start <= |file|
    ensures r == ReadArgs(file[start..], argc)
  {
    hide ReadArg, ReadArgs, PrependAll;
    var argv: Command := [];
    var pos: nat := start;
    PrependNothing(ReadArgs(file[start..], argc));
    for j := 0 to argc
      invariant pos <= |file|
      invariant PrependAll(argv, ReadArgs(file[pos..], argc - j)) == ReadArgs(file[start..], argc)
    {
      var read := LoadArg(file, pos);
      ArgsStep(argv, file, pos, argc - j);
      if read.ShortArg? {
        return ShortArgs;
      }
      if read.BadArg? {
        return BadArgs;
      }
      argv := argv + [read.arg];
      pos := |file| - |read.rest|;
    }
    r := Args(argv, file[pos..]);
    ArgsDone(argv, file[pos..]);
  }

  /** What reading one argument leaves to read. */
  lemma ArgsStep(argv: Command, file: seq<byte>, pos: nat, n: nat)
    requires pos <= |file| && n > 0
    ensures var read, all := ReadArg(file[pos..]), PrependAll(argv, ReadArgs(file[pos..], n));
      && (read.ShortArg? ==> all == ShortArgs)
      && (read.BadArg? ==> all == BadArgs)
      && (read.Arg? ==>
        && |read.rest| <= |file| && file[|file| - |read.rest|..] == read.rest
        && all == PrependAll(argv + [read.arg], ReadArgs(file[|file| - |read.rest|..], n - 1)))
  {
    var read := ReadArg(file[pos..]);
    if read.Arg? {
      ArgSuffix(file[pos..]);
      assert file[|file| - |read.rest|..] == read.rest;
      PrependMore(argv, read.arg, ReadArgs(read.rest, n - 1));
    }
  }

  lemma ArgsDone(argv: Command, s: seq<byte>)
    ensures PrependAll(argv, ReadArgs(s, 0)) == Args(argv, s)
  {
    assert argv + [] == argv;
  }

  lemma LineEnd(file: seq<byte>, pos: nat, line: Line)
    requires pos <= |file| && line == ReadLine(file[pos..]) && line.Line?
    ensures pos + |line.text| <= |file| && line.rest == file[pos + |line.text|..]
  {
    assert file[pos..] == line.text + line.rest;
  }

  lemma PrependNothing(r: ArgsRead)
    ensures PrependAll([], r) == r
  {
  }

  lemma PrependMore(argv: Command, arg: seq<byte>, r: ArgsRead)
    ensures PrependAll(argv, Prepend(arg, r)) == PrependAll(argv + [arg], r)
  {
    if r.Args? {
      assert argv + ([arg] + r.argv) == argv + [arg] + r.argv;
    }
  }

  /** Read one command from the file, starting at offset pos. */
  method LoadCommand(file: seq<byte>, pos: nat) returns (r: CommandRead)
    requires pos <= |file|
    ensures r == ReadCommand(file[pos..])
  {
    hide ParseInt, LineLength, ReadArgs;
    var line := ReadLine(file[pos..]);
    if line.NoLine? {
      return AtEnd;
    }
    if line.text[0] != STAR {
      return Bad;
    }
    if |line.text| == 1 || line.text[1] == 0 {
      return if line.eof then Short else Bad;
    }
    var argc := ParseInt(line.text[1..]);
    if argc < 1 {
      return Bad;
    }
    LineEnd(file, pos, line);
    var args := LoadArgv(file, pos + |line.text|, argc);
    match args
    case Args(argv, rest) => return Got(argv, rest);
    case ShortArgs => return Short;
    case BadArgs => return Bad;
  }

  method LoadAppendOnlyFile(file: seq<byte>, rdb: seq<byte> -> Option<nat>, known: seq<byte> -> bool, truncated: bool)
    returns (r: Load)
    ensures r == LoadFile(file, rdb, known, truncated)
  {
    hide ReadCommand, MultiAfter;
    if file == [] {
      return EmptyFile;
    }
    var pos: nat := 0;
    assert file[0..] == file;
    if |file| >= 5 && file[..5] == MAGIC {
      var read := rdb(file);
      if read.None? || read.value > |file| {
        return Fatal;
      }
      pos := read.value;
    }
    var preamble := pos;
    var cmds: seq<Command> := [];
    var validUpTo: nat, multi := 0, false;
    while true
      invariant pos <= |file|
      invariant LoadFrom(file[pos..], Progress(preamble, cmds, pos, validUpTo, multi), known, truncated)
        == LoadFile(file, rdb, known, truncated)
      decreases |file| - pos
    {
      var read := LoadCommand(file, pos);
      match read {
        case AtEnd =>
          if multi {
            return if truncated then Loaded(preamble, cmds, validUpTo, true) else Fatal;
          }
          return Loaded(preamble, cmds, validUpTo, false);
        case Short => return if truncated then Loaded(preamble, cmds, validUpTo, true) else Fatal;
        case Bad => return Fatal;
        case Got(argv, rest) =>
          if !known(argv[0]) {
            return Fatal;
          }
          CommandSuffix(file[pos..]);
          assert rest == file[|file| - |rest|..];
          cmds := cmds + [argv];
          multi := MultiAfter(argv, multi);
          pos := |file| - |rest|;
          if truncated {
            validUpTo := pos;
          }
      }
    }
  }

  // ---------- what is left after reading is the end of the file ----------

  predicate Suffix(r: seq<byte>, s: seq<byte>) {
    |r| <= |s| && r == s[|s| - |r|..]
  }

  lemma ArgSuffix(s: seq<byte>)
    ensures ReadArg(s).Arg? ==> Suffix(ReadArg(s).rest, s)
  {
    hide ParseInt, LineLength;
    var line := ReadLine(s);
    if line.Line? {
      assert s == line.text + line.rest;
    }
  }

  lemma {:induction false} ArgsSuffix(s: seq<byte>, n: nat)
    ensures ReadArgs(s, n).Args? ==> Suffix(ReadArgs(s, n).rest, s)
    decreases n
  {
    hide ReadArg;
    if n > 0 && ReadArg(s).Arg? {
      var after := ReadArg(s).rest;
      ArgSuffix(s);
      ArgsSuffix(after, n - 1);
    }
  }

  lemma SuffixOfSuffix(a: seq<byte>, b: seq<byte>, c: seq<byte>)
    requires Suffix(a, b) && Suffix(b, c)
    ensures Suffix(a, c)
  {
  }

  lemma CommandSuffix(s: seq<byte>)
    ensures ReadCommand(s).Got? ==> Suffix(ReadCommand(s).rest, s)
  {
    hide ParseInt, LineLength, ReadArgs;
    if ReadCommand(s).Got? {
      var line := ReadLine(s);
      ArgsSuffix(line.rest, ParseInt(line.text[1..]));
      assert s == line.text + line.rest;
      assert Suffix(line.rest, s);
      SuffixOfSuffix(ReadCommand(s).rest, line.rest, s);
    }
  }
}
