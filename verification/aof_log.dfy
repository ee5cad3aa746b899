/** The append only log: the command encoder, and the loader that replays it (aof.c). */
module AofLog {
  import opened Base
  import opened Decimal

  /** A command is its vector of arguments. */
  type Command = seq<string>

  // ---------------------------------------------------------------------
  // Encoding

  const CRLF := "\r\n"

  /** A line such as `*3` or `$5`. */
  function Header(prefix: char, n: nat): string { [prefix] + Digits(n) + CRLF }

  function EncodeArg(arg: string): string { Header('$', |arg|) + arg + CRLF }

  function EncodeArgs(argv: Command): string {
    if argv == [] then "" else EncodeArg(argv[0]) + EncodeArgs(argv[1..])
  }

  function Encode(argv: Command): string { Header('*', |argv|) + EncodeArgs(argv) }

  function EncodeAll(cmds: seq<Command>): string {
    if cmds == [] then "" else Encode(cmds[0]) + EncodeAll(cmds[1..])
  }

  /** Argument counts are C `int`s and argument lengths `long`s. */
  predicate Fits(argv: Command) {
    && 1 <= |argv| < 0x8000_0000
    && (forall arg | arg in argv :: |arg| < 0x8000_0000_0000_0000)
  }

  lemma {:induction false} EncodeArgsAppend(a: Command, b: Command)
    ensures EncodeArgs(a + b) == EncodeArgs(a) + EncodeArgs(b)
  {
    if a == [] {
      assert a + b == b;
    } else {
      assert (a + b)[1..] == a[1..] + b;
      EncodeArgsAppend(a[1..], b);
    }
  }

  lemma {:induction false} EncodeAllAppend(a: seq<Command>, b: seq<Command>)
    ensures EncodeAll(a + b) == EncodeAll(a) + EncodeAll(b)
  {
    if a == [] {
      assert a + b == b;
    } else {
      assert (a + b)[1..] == a[1..] + b;
      EncodeAllAppend(a[1..], b);
    }
  }

  /** `catAppendOnlyGenericCommand`: append one command to a buffer. */
  method CatAppendOnlyGenericCommand(dst: string, argv: Command) returns (r: string)
    ensures r == dst + Encode(argv)
  {
    hide Digits;
    r := dst + (['*'] + Digits(|argv|) + "\r\n");
    for j := 0 to |argv|
      invariant r == dst + (Header('*', |argv|) + EncodeArgs(argv[..j]))
    {
      var o := argv[j];
      ghost var before := r;
      r := r + (['$'] + Digits(|o|) + "\r\n");
      r := r + o;
      r := r + "\r\n";
      assert r == before + EncodeArg(o);
      CatStep(dst, argv, j, before);
    }
    assert argv[..|argv|] == argv;
  }

  lemma CatStep(dst: string, argv: Command, j: nat, before: string)
    requires j < |argv| && before == dst + (Header('*', |argv|) + EncodeArgs(argv[..j]))
    ensures before + EncodeArg(argv[j]) == dst + (Header('*', |argv|) + EncodeArgs(argv[..j + 1]))
  {
    hide Header, EncodeArg;
    assert argv[..j + 1] == argv[..j] + [argv[j]];
    EncodeArgsAppend(argv[..j], [argv[j]]);
    assert EncodeArgs([argv[j]]) == EncodeArg(argv[j]) + EncodeArgs([]);
  }

  // ---------------------------------------------------------------------
  // Reading one command

  /** The longest line `fgets` returns from a buffer of AOF_ANNOTATION_LINE_MAX_LEN. */
  const LINE_MAX := 1023

  /** How many bytes `fgets` consumes from the front of `s`. */
  function LineLength(s: string, room: nat): (n: nat)
    ensures n <= |s| && n <= room
    ensures s != "" && room > 0 ==> n > 0
  {
    if s == "" || room == 0 then 0
    else if s[0] == '\n' then 1
    else 1 + LineLength(s[1..], room - 1)
  }

  function Line(s: string): string { s[..LineLength(s, LINE_MAX)] }

  /** Reading a line ran into the end of the file. */
  predicate HitsEof(s: string) {
    var n := LineLength(s, LINE_MAX);
    n == |s| && n < LINE_MAX && (n == 0 || s[n - 1] != '\n')
  }

  /** `strtol` stops at the limits of a `long`. */
  function Long(n: int): int {
    if n >= 0x8000_0000_0000_0000 then 0x7fff_ffff_ffff_ffff
    else if n < -0x8000_0000_0000_0000 then -0x8000_0000_0000_0000
    else n
  }

  /** `atoi` keeps the low 32 bits of it. */
  function Int(n: int): int { (n + 0x8000_0000) % 0x1_0000_0000 - 0x8000_0000 }

  lemma InRange(n: nat)
    ensures n < 0x8000_0000_0000_0000 ==> Long(n) == n
    ensures n < 0x8000_0000 ==> Int(Long(n)) == n
  {
  }

  datatype ArgsRead = Args(argv: Command, used: nat) | ArgsReadErr | ArgsFmtErr | ArgsAbort

  /** The arguments of a command, each a `$` line, that many bytes, and two more. */
  function ReadArgs(s: string, argc: nat): (r: ArgsRead)
    ensures r.Args? ==> r.used <= |s|
    decreases argc
  {
    if argc == 0 then Args([], 0)
    else if s == "" then ArgsReadErr
    else if s[0] != '$' then ArgsFmtErr
    else
      var e := LineLength(s, LINE_MAX);
      var len := Long(StrTol(s[1..e]));
      if len < 0 then ArgsAbort // an allocation of nearly 2^64 bytes
      else if e + len > |s| then ArgsReadErr
      else if e + len + 2 > |s| then ArgsReadErr
      else
        var rest := ReadArgs(s[e + len + 2..], argc - 1);
        if rest.Args? then Args([s[e..e + len]] + rest.argv, e + len + 2 + rest.used) else rest
  }

  datatype Read =
    | Eof
    | Annotation(used: nat)
    | Cmd(argv: Command, used: nat)
    | ReadErr(eof: bool)
    | FmtErr
    | Abort

  function ReadCommand(s: string): (r: Read)
    ensures r.Cmd? || r.Annotation? ==> 0 < r.used <= |s|
  {
    if s == "" then Eof
    else
      var e := LineLength(s, LINE_MAX);
      if s[0] == '#' then Annotation(e)
      else if s[0] != '*' then FmtErr
      else if e == 1 || s[1] == '\0' then ReadErr(HitsEof(s))
      else
        var argc := Int(Long(StrTol(s[1..e])));
        if argc < 1 then FmtErr
        else match ReadArgs(s[e..], argc)
          case Args(argv, used) => Cmd(argv, e + used)
          case ArgsReadErr => ReadErr(true)
          case ArgsFmtErr => FmtErr
          case ArgsAbort => Abort
  }

  // ---------------------------------------------------------------------
  // Reading back what was encoded

  lemma {:induction false} LineOf(a: string, rest: string, room: nat)
    requires |a| + 1 <= room && forall i | 0 <= i < |a| :: a[i] != '\n'
    ensures LineLength(a + "\n" + rest, room) == |a| + 1
  {
    var s := a + "\n" + rest;
    if a != "" {
      assert s[1..] == a[1..] + "\n" + rest;
      LineOf(a[1..], rest, room - 1);
    }
  }

  /** A text without a newline is read to its end. */
  lemma {:induction false} LineToEnd(a: string, room: nat)
    requires |a| <= room && forall i | 0 <= i < |a| :: a[i] != '\n'
    ensures LineLength(a, room) == |a|
  {
    if a != "" { LineToEnd(a[1..], room - 1); }
  }

  lemma ShortNumber(n: nat)
    requires n < 0x8000_0000_0000_0000
    ensures |Digits(n)| <= 20
  {
    assert Pow10(4) == 10000;
    assert Pow10(8) == 1_0000_0000;
    assert Pow10(12) == 1_0000_0000_0000;
    assert Pow10(16) == 1_0000_0000_0000_0000;
    assert Pow10(20) == 1_0000_0000_0000_0000_0000;
    DigitsLength(n, 20);
  }

  lemma HeaderLine(prefix: char, n: nat, rest: string)
    requires n < 0x8000_0000_0000_0000 && prefix != '\n'
    ensures LineLength(Header(prefix, n) + rest, LINE_MAX) == |Header(prefix, n)|
    ensures StrTol((Header(prefix, n) + rest)[1..|Header(prefix, n)|]) == n
  {
    var h := Header(prefix, n);
    ShortNumber(n);
    var a := [prefix] + Digits(n) + "\r";
    assert h + rest == a + "\n" + rest;
    LineOf(a, rest, LINE_MAX);
    assert (h + rest)[1..|h|] == Digits(n) + CRLF;
    ParseDigits(n, CRLF);
  }

  lemma ReadOneArg(arg: string, tail: string, argc: nat)
    requires |arg| < 0x8000_0000_0000_0000 && argc >= 1
    ensures ReadArgs(EncodeArg(arg) + tail, argc) ==
      var rest := ReadArgs(tail, argc - 1);
      if rest.Args? then Args([arg] + rest.argv, |EncodeArg(arg)| + rest.used) else rest
  {
    hide ReadArgs, StrTol, LineLength, Digits;
    var h, s := Header('$', |arg|), EncodeArg(arg) + tail;
    assert s == h + (arg + CRLF + tail);
    HeaderLine('$', |arg|, arg + CRLF + tail);
    ReadArgStep(s, |h|, |arg|, argc);
    assert s[|h|..|h| + |arg|] == arg;
    assert s[|h| + |arg| + 2..] == tail;
  }

  lemma ReadArgStep(s: string, e: nat, len: nat, argc: nat)
    requires argc >= 1 && s != "" && s[0] == '$' && 1 <= e && e + len + 2 <= |s|
    requires LineLength(s, LINE_MAX) == e && Long(StrTol(s[1..e])) == len
    ensures ReadArgs(s, argc) ==
      var rest := ReadArgs(s[e + len + 2..], argc - 1);
      if rest.Args? then Args([s[e..e + len]] + rest.argv, e + len + 2 + rest.used) else rest
  {
    hide StrTol, LineLength;
  }

  lemma {:induction false} ReadEncodedArgs(argv: Command, rest: string)
    requires forall arg | arg in argv :: |arg| < 0x8000_0000_0000_0000
    ensures ReadArgs(EncodeArgs(argv) + rest, |argv|) == Args(argv, |EncodeArgs(argv)|)
  {
    hide EncodeArg, ReadArgs;
    if argv == [] {
      UnfoldNone(EncodeArgs(argv) + rest);
    } else {
      var arg, tail := EncodeArg(argv[0]), EncodeArgs(argv[1..]);
      assert EncodeArgs(argv) + rest == arg + (tail + rest);
      ReadOneArg(argv[0], tail + rest, |argv|);
      ReadEncodedArgs(argv[1..], rest);
      assert [argv[0]] + argv[1..] == argv;
    }
  }

  /** An encoded command is read back as itself, whatever follows and whatever bytes its
      arguments hold. */
  lemma ReadEncoded(argv: Command, rest: string)
    requires Fits(argv)
    ensures ReadCommand(Encode(argv) + rest) == Cmd(argv, |Encode(argv)|)
  {
    hide Int, Long;
    InRange(|argv|);
    var h := Header('*', |argv|);
    var s := Encode(argv) + rest;
    assert s == h + (EncodeArgs(argv) + rest);
    HeaderLine('*', |argv|, EncodeArgs(argv) + rest);
    assert s[|h|..] == EncodeArgs(argv) + rest;
    ReadEncodedArgs(argv, rest);
  }

  // ---------------------------------------------------------------------
  // Reading a log that was cut short

  lemma {:induction false} NoMinusNoNegative(s: string)
    requires '-' !in s
    ensures StrTol(s) >= 0
  {
    if s != "" && IsSpace(s[0]) { NoMinusNoNegative(s[1..]); }
  }

  /** A header line cut before its newline. */
  lemma CutHeader(prefix: char, n: nat, k: nat)
    requires n < 0x8000_0000_0000_0000 && prefix != '\n' && 1 <= k < |Header(prefix, n)|
    ensures var s := Header(prefix, n)[..k];
      && LineLength(s, LINE_MAX) == k && HitsEof(s)
      && StrTol(s[1..]) >= 0
      && (k >= 2 && n >= 1 ==> 1 <= StrTol(s[1..]) <= n && IsDigit(s[1]))
  {
    var h := Header(prefix, n);
    var s := h[..k];
    ShortNumber(n);
    assert forall i | 0 <= i < k :: s[i] != '\n';
    LineToEnd(s, LINE_MAX);
    assert '-' !in s[1..];
    NoMinusNoNegative(s[1..]);
    if k >= 2 && n >= 1 {
      if k - 1 <= |Digits(n)| {
        var m := DigitsCut(n, k - 1);
        assert s[1..] == Digits(n)[..k - 1] == Digits(m) + "";
        ParseDigits(m, "");
      } else {
        assert s[1..] == Digits(n) + "\r";
        ParseDigits(n, "\r");
      }
    }
  }

  lemma CutOneArg(arg: string, k: nat, argc: nat)
    requires |arg| < 0x8000_0000_0000_0000 && k < |EncodeArg(arg)| && argc >= 1
    ensures ReadArgs(EncodeArg(arg)[..k], argc) == ArgsReadErr
  {
    var h, s := Header('$', |arg|), EncodeArg(arg)[..k];
    if 1 <= k < |h| {
      CutHeader('$', |arg|, k);
      assert s == h[..k] && s[1..k] == s[1..];
      hide StrTol, LineLength, Header;
    } else if k >= |h| {
      var rest := (arg + CRLF)[..k - |h|];
      assert s == h + rest;
      HeaderLine('$', |arg|, rest);
      hide StrTol, LineLength;
    }
  }

  lemma {:induction false} CutArgs(argv: Command, k: nat)
    requires (forall arg | arg in argv :: |arg| < 0x8000_0000_0000_0000) && k < |EncodeArgs(argv)|
    ensures ReadArgs(EncodeArgs(argv)[..k], |argv|) == ArgsReadErr
  {
    hide EncodeArg, ReadArgs;
    var l := |EncodeArg(argv[0])|;
    if k < l {
      assert EncodeArgs(argv)[..k] == EncodeArg(argv[0])[..k];
      CutOneArg(argv[0], k, |argv|);
    } else {
      var tail := EncodeArgs(argv[1..])[..k - l];
      assert EncodeArgs(argv)[..k] == EncodeArg(argv[0]) + tail;
      CutArgs(argv[1..], k - l);
      ReadOneArg(argv[0], tail, |argv|);
    }
  }

  lemma CutNumber(s: string, n: nat, k: nat)
    requires 1 <= n < 0x8000_0000 && 2 <= k < |Header('*', n)| && s == Header('*', n)[..k]
    ensures Int(Long(StrTol(s[1..]))) >= 1
  {
    CutHeader('*', n, k);
    InRange(StrTol(s[1..]));
  }

  /** A command cut anywhere inside is an unexpected end of file, never a different
      command and never a format error. */
  lemma CutCommand(argv: Command, k: nat)
    requires Fits(argv) && 0 < k < |Encode(argv)|
    ensures ReadCommand(Encode(argv)[..k]) == ReadErr(true)
  {
    hide Int, Long;
    var h, s := Header('*', |argv|), Encode(argv)[..k];
    InRange(|argv|);
    if k < |h| {
      if k >= 2 { CutNumber(s, |argv|, k); }
      CutHeader('*', |argv|, k);
      assert s == h[..k] && s[1..k] == s[1..] && s[k..] == "";
      hide StrTol, LineLength, Header;
    } else {
      var rest := EncodeArgs(argv)[..k - |h|];
      assert s == h + rest && s[|h|..] == rest;
      HeaderLine('*', |argv|, rest);
      CutArgs(argv, k - |h|);
      hide StrTol, LineLength, ReadArgs;
    }
  }

  // ---------------------------------------------------------------------
  // The loader

  datatype Kind = Unknown | Multi | Exec | Other

  /** What the command table says about a command. */
  type Lookup = Command -> Kind

  /** The fake client: an open transaction queues everything but EXEC. */
  datatype Client = Client(inMulti: bool, queue: seq<Command>, ran: seq<Command>) {
    function Run(argv: Command, kind: Kind): Client {
      if inMulti && !kind.Exec? then this.(queue := queue + [argv])
      else match kind
        case Multi => this.(inMulti := true, queue := [])
        case Exec => if inMulti then Client(false, [], ran + queue) else this.(ran := ran + [argv])
        case _ => this.(ran := ran + [argv])
    }
  }

  const Idle := Client(false, [], [])

  datatype Config = Config(loadTruncated: bool, corruptTailMax: nat, truncateWorks: bool)

  datatype Status = AOF_OK | AOF_EMPTY | AOF_FAILED | AOF_TRUNCATED | AOF_BROKEN_RECOVERED | RdbPreamble | Aborted

  /** The commands that took effect and the length the file is left with. */
  datatype Loaded = Loaded(status: Status, ran: seq<Command>, validUpTo: nat)

  function UnexpectedEof(cfg: Config, ran: seq<Command>, valid: nat): Loaded {
    if cfg.loadTruncated && cfg.truncateWorks then Loaded(AOF_TRUNCATED, ran, valid) else Loaded(AOF_FAILED, ran, valid)
  }

  function BadFormat(cfg: Config, size: nat, ran: seq<Command>, valid: nat): Loaded {
    if cfg.corruptTailMax != 0 && size - valid < cfg.corruptTailMax && cfg.truncateWorks
    then Loaded(AOF_BROKEN_RECOVERED, ran, valid) else Loaded(AOF_FAILED, ran, valid)
  }

  predicate Tracks(cfg: Config) { cfg.loadTruncated || cfg.corruptTailMax != 0 }

  /** The loop of the loader from byte `pos` of the file on. */
  function LoadFrom(f: string, cfg: Config, lookup: Lookup, pos: nat, valid: nat, beforeMulti: nat, c: Client): Loaded
    requires pos <= |f|
    decreases |f| - pos
  {
    match ReadCommand(f[pos..])
    case Eof => if c.inMulti then UnexpectedEof(cfg, c.ran, beforeMulti) else Loaded(AOF_OK, c.ran, valid)
    case Annotation(used) => LoadFrom(f, cfg, lookup, pos + used, valid, beforeMulti, c)
    case ReadErr(eof) => if eof then UnexpectedEof(cfg, c.ran, valid) else Loaded(AOF_FAILED, c.ran, valid)
    case FmtErr => BadFormat(cfg, |f|, c.ran, valid)
    case Abort => Loaded(Aborted, c.ran, valid)
    case Cmd(argv, used) =>
      var kind := lookup(argv);
      if kind.Unknown? then Loaded(AOF_FAILED, c.ran, valid)
      else
        LoadFrom(f, cfg, lookup, pos + used, if Tracks(cfg) then pos + used else valid,
                 if kind.Multi? then valid else beforeMulti, c.Run(argv, kind))
  }

  function LoadFile(f: string, cfg: Config, lookup: Lookup): Loaded {
    if f == "" then Loaded(AOF_EMPTY, [], 0)
    else if |f| >= 5 && f[..5] == "REDIS" then Loaded(RdbPreamble, [], 0)
    else LoadFrom(f, cfg, lookup, 0, 0, 0, Idle)
  }

  /** Put arguments already read in front of what remains to be read. */
  function Prepend(argv: Command, used: nat, r: ArgsRead): ArgsRead {
    if r.Args? then Args(argv + r.argv, used + r.used) else r
  }

  /** The loop over the arguments of one command. */
  method LoadArgs(s: string, argc: nat) returns (r: ArgsRead)
    ensures r == ReadArgs(s, argc)
  {
    hide StrTol, LineLength, ReadArgs;
    var argv, p := [], 0;
    assert s[0..] == s;
    for j := 0 to argc
      invariant 0 <= p <= |s|
      invariant ReadArgs(s, argc) == Prepend(argv, p, ReadArgs(s[p..], argc - j))
    {
      var t := s[p..];
      UnfoldArgs(t, argc - j);
      if t == "" { return ArgsReadErr; }
      if t[0] != '$' { return ArgsFmtErr; }
      var e := LineLength(t, LINE_MAX);
      var len := Long(StrTol(t[1..e]));
      if len < 0 { return ArgsAbort; }
      if len != 0 && e + len > |t| { return ArgsReadErr; }
      var arg := t[e..e + len];
      if e + len + 2 > |t| { return ArgsReadErr; }
      PrependStep(argv, p, [arg], e + len + 2, ReadArgs(t[e + len + 2..], argc - j - 1));
      assert t[e + len + 2..] == s[p + (e + len + 2)..];
      argv, p := argv + [arg], p + (e + len + 2);
    }
    assert ReadArgs(s[p..], 0) == Args([], 0) by { UnfoldNone(s[p..]); }
    r := Args(argv, p);
  }

  lemma UnfoldNone(t: string)
    ensures ReadArgs(t, 0) == Args([], 0)
  {
  }

  lemma UnfoldArgs(t: string, n: nat)
    requires n >= 1
    ensures t == "" ==> ReadArgs(t, n) == ArgsReadErr
    ensures t != "" && t[0] != '$' ==> ReadArgs(t, n) == ArgsFmtErr
    ensures t != "" && t[0] == '$' ==>
      var e := LineLength(t, LINE_MAX); var len := Long(StrTol(t[1..e]));
      ReadArgs(t, n) ==
        if len < 0 then ArgsAbort else if e + len + 2 > |t| then ArgsReadErr
        else Prepend([t[e..e + len]], e + len + 2, ReadArgs(t[e + len + 2..], n - 1))
  {
    hide StrTol, LineLength;
  }

  lemma PrependStep(a: Command, p: nat, b: Command, q: nat, r: ArgsRead)
    ensures Prepend(a, p, Prepend(b, q, r)) == Prepend(a + b, p + q, r)
  {
  }

  /** `loadSingleAppendOnlyFile` on the contents of an existing file. */
  method LoadSingleAppendOnlyFile(f: string, cfg: Config, lookup: Lookup) returns (r: Loaded)
    ensures r == LoadFile(f, cfg, lookup)
  {
    hide StrTol, LineLength, ReadArgs;
    if |f| == 0 { return Loaded(AOF_EMPTY, [], 0); }
    if |f| >= 5 && f[..5] == "REDIS" { return Loaded(RdbPreamble, [], 0); }
    var pos, valid, beforeMulti, client := 0, 0, 0, Idle;
    while true
      invariant 0 <= pos <= |f| && 0 <= valid && 0 <= beforeMulti
      invariant LoadFile(f, cfg, lookup) == LoadFrom(f, cfg, lookup, pos, valid, beforeMulti, client)
      decreases |f| - pos
    {
      var s := f[pos..];
      if s == "" {
        if client.inMulti { return UnexpectedEof(cfg, client.ran, beforeMulti); }
        return Loaded(AOF_OK, client.ran, valid);
      }
      var e := LineLength(s, LINE_MAX);
      if s[0] == '#' {
        pos := pos + e;
        continue;
      }
      if s[0] != '*' { return BadFormat(cfg, |f|, client.ran, valid); }
      if e == 1 || s[1] == '\0' {
        return if HitsEof(s) then UnexpectedEof(cfg, client.ran, valid) else Loaded(AOF_FAILED, client.ran, valid);
      }
      var argc := Int(Long(StrTol(s[1..e])));
      if argc < 1 { return BadFormat(cfg, |f|, client.ran, valid); }
      var args := LoadArgs(s[e..], argc);
      if args.ArgsReadErr? { return UnexpectedEof(cfg, client.ran, valid); }
      if args.ArgsFmtErr? { return BadFormat(cfg, |f|, client.ran, valid); }
      if args.ArgsAbort? { return Loaded(Aborted, client.ran, valid); }
      var kind := lookup(args.argv);
      if kind.Unknown? { return Loaded(AOF_FAILED, client.ran, valid); }
      if kind.Multi? { beforeMulti := valid; }
      client := client.Run(args.argv, kind);
      pos := pos + e + args.used;
      if Tracks(cfg) { valid := pos; }
    }
  }

  // ---------------------------------------------------------------------
  // Loading an encoded log, whole or cut

  predicate Loadable(cmds: seq<Command>, lookup: Lookup) {
    forall cmd | cmd in cmds :: Fits(cmd) && !lookup(cmd).Unknown?
  }

  function RunAll(cmds: seq<Command>, lookup: Lookup, c: Client): Client {
    if cmds == [] then c else RunAll(cmds[1..], lookup, c.Run(cmds[0], lookup(cmds[0])))
  }

  /** The offset in front of the last MULTI of a log that starts at `pos`. */
  function LastMulti(cmds: seq<Command>, lookup: Lookup, pos: nat, before: nat): nat {
    if cmds == [] then before
    else LastMulti(cmds[1..], lookup, pos + |Encode(cmds[0])|, if lookup(cmds[0]).Multi? then pos else before)
  }

  /** How many commands lie wholly inside the first `n` bytes of the log. */
  function Whole(cmds: seq<Command>, n: nat): (k: nat)
    ensures k <= |cmds|
  {
    if cmds == [] || n < |Encode(cmds[0])| then 0 else 1 + Whole(cmds[1..], n - |Encode(cmds[0])|)
  }

  /** Offsets are followed only if the tail may be given up. */
  function Mark(cfg: Config, pos: nat): nat { if Tracks(cfg) then pos else 0 }

  /** What loading `n` bytes of a log should give, from byte `pos` and client state `c` on. */
  function CutResult(cfg: Config, lookup: Lookup, cmds: seq<Command>, n: nat, pos: nat, before: nat, c: Client): Loaded {
    var done := cmds[..Whole(cmds, n)];
    var size, c' := |EncodeAll(done)|, RunAll(done, lookup, c);
    if size != n then UnexpectedEof(cfg, c'.ran, Mark(cfg, pos + size))
    else if c'.inMulti then UnexpectedEof(cfg, c'.ran, Mark(cfg, LastMulti(done, lookup, pos, before)))
    else Loaded(AOF_OK, c'.ran, Mark(cfg, pos + size))
  }

  lemma CutResultStep(cfg: Config, lookup: Lookup, cmds: seq<Command>, n: nat, pos: nat, before: nat, c: Client)
    requires cmds != [] && n >= |Encode(cmds[0])|
    ensures var l := |Encode(cmds[0])|; var kind := lookup(cmds[0]);
      CutResult(cfg, lookup, cmds, n, pos, before, c) ==
      CutResult(cfg, lookup, cmds[1..], n - l, pos + l, if kind.Multi? then pos else before, c.Run(cmds[0], kind))
  {
    hide Encode;
    var k := Whole(cmds[1..], n - |Encode(cmds[0])|);
    assert cmds[..Whole(cmds, n)][0] == cmds[0] && cmds[..Whole(cmds, n)][1..] == cmds[1..][..k];
  }

  /** The loader runs exactly the commands wholly inside the cut. */
  lemma {:induction false} LoadCutFrom(f: string, cfg: Config, lookup: Lookup, cmds: seq<Command>, n: nat, pos: nat, before: nat, c: Client)
    requires Loadable(cmds, lookup) && n <= |EncodeAll(cmds)|
    requires pos <= |f| && f[pos..] == EncodeAll(cmds)[..n]
    ensures LoadFrom(f, cfg, lookup, pos, Mark(cfg, pos), Mark(cfg, before), c) == CutResult(cfg, lookup, cmds, n, pos, before, c)
    decreases |cmds|
  {
    hide Encode, EncodeAll, ReadCommand, LoadFrom, CutResult, Mark;
    if n == 0 {
      LoadNothing(f, cfg, lookup, cmds, pos, before, c);
    } else {
      SplitFirst(cmds, n);
      var cmd, l := cmds[0], |Encode(cmds[0])|;
      if n < l {
        CutCommand(cmd, n);
        LoadInside(f, cfg, lookup, cmds, n, pos, before, c);
      } else {
        var rest := EncodeAll(cmds[1..])[..n - l];
        assert f[pos..][l..] == rest && f[pos..][l..] == f[pos + l..];
        ReadEncoded(cmd, rest);
        LoadStep(f, cfg, lookup, pos, before, c, cmd, l);
        CutResultStep(cfg, lookup, cmds, n, pos, before, c);
        var kind := lookup(cmd);
        LoadCutFrom(f, cfg, lookup, cmds[1..], n - l, pos + l, if kind.Multi? then pos else before, c.Run(cmd, kind));
      }
    }
  }

  lemma SplitFirst(cmds: seq<Command>, n: nat)
    requires 0 < n <= |EncodeAll(cmds)|
    ensures cmds != [] && |EncodeAll(cmds)| == |Encode(cmds[0])| + |EncodeAll(cmds[1..])|
    ensures n < |Encode(cmds[0])| ==> EncodeAll(cmds)[..n] == Encode(cmds[0])[..n]
    ensures n >= |Encode(cmds[0])| ==>
      EncodeAll(cmds)[..n] == Encode(cmds[0]) + EncodeAll(cmds[1..])[..n - |Encode(cmds[0])|]
  {
    hide Encode;
  }

  lemma LoadNothing(f: string, cfg: Config, lookup: Lookup, cmds: seq<Command>, pos: nat, before: nat, c: Client)
    requires pos <= |f| && f[pos..] == ""
    ensures LoadFrom(f, cfg, lookup, pos, Mark(cfg, pos), Mark(cfg, before), c) == CutResult(cfg, lookup, cmds, 0, pos, before, c)
  {
    assert cmds != [] ==> |Encode(cmds[0])| > 0;
    assert cmds[..Whole(cmds, 0)] == [];
    hide Encode, ReadCommand;
    NothingToRead();
  }

  lemma LoadInside(f: string, cfg: Config, lookup: Lookup, cmds: seq<Command>, n: nat, pos: nat, before: nat, c: Client)
    requires pos <= |f| && ReadCommand(f[pos..]) == ReadErr(true)
    requires cmds != [] && 0 < n < |Encode(cmds[0])|
    ensures LoadFrom(f, cfg, lookup, pos, Mark(cfg, pos), Mark(cfg, before), c) == CutResult(cfg, lookup, cmds, n, pos, before, c)
  {
    hide Encode, ReadCommand;
    assert cmds[..0] == [];
  }

  lemma LoadStep(f: string, cfg: Config, lookup: Lookup, pos: nat, before: nat, c: Client, cmd: Command, l: nat)
    requires pos <= |f| && ReadCommand(f[pos..]) == Cmd(cmd, l) && !lookup(cmd).Unknown?
    ensures l <= |f| - pos && LoadFrom(f, cfg, lookup, pos, Mark(cfg, pos), Mark(cfg, before), c) ==
      LoadFrom(f, cfg, lookup, pos + l, Mark(cfg, pos + l), Mark(cfg, if lookup(cmd).Multi? then pos else before), c.Run(cmd, lookup(cmd)))
  {
    hide ReadCommand;
  }

  lemma NothingToRead()
    ensures ReadCommand("") == Eof
  {
  }

  lemma StartsWithStar(cmds: seq<Command>, n: nat)
    requires 0 < n <= |EncodeAll(cmds)|
    ensures EncodeAll(cmds)[..n][0] == '*'
  {
  }

  /** Loading a log cut after `n > 0` bytes, under any settings: every command that lies
      wholly inside the cut is run and nothing else is; if the settings allow giving up a
      tail, the file keeps exactly their bytes, except that a cut right behind a command of
      an open transaction also gives up the bytes from the last MULTI on. */
  lemma LoadCut(cfg: Config, lookup: Lookup, cmds: seq<Command>, n: nat)
    requires Loadable(cmds, lookup) && 0 < n <= |EncodeAll(cmds)|
    ensures LoadFile(EncodeAll(cmds)[..n], cfg, lookup) == CutResult(cfg, lookup, cmds, n, 0, 0, Idle)
  {
    var f := EncodeAll(cmds)[..n];
    StartsWithStar(cmds, n);
    assert f[0..] == f;
    LoadCutFrom(f, cfg, lookup, cmds, n, 0, 0, Idle);
    hide LoadFrom, CutResult, EncodeAll;
    assert |f| >= 5 ==> f[..5][0] == '*';
  }

  lemma {:induction false} WholeAll(cmds: seq<Command>)
    ensures Whole(cmds, |EncodeAll(cmds)|) == |cmds|
  {
    hide Encode;
    if cmds != [] { WholeAll(cmds[1..]); }
  }

  /** What loading an uncut log gives. */
  function WholeResult(cfg: Config, lookup: Lookup, cmds: seq<Command>): Loaded {
    var c := RunAll(cmds, lookup, Idle);
    if cmds == [] then Loaded(AOF_EMPTY, [], 0)
    else if c.inMulti then UnexpectedEof(cfg, c.ran, Mark(cfg, LastMulti(cmds, lookup, 0, 0)))
    else Loaded(AOF_OK, c.ran, Mark(cfg, |EncodeAll(cmds)|))
  }

  /** Round trip: an uncut log, transactions included, loads without error and is kept
      whole under any settings, unless it ends inside a transaction. */
  lemma LoadWhole(cfg: Config, lookup: Lookup, cmds: seq<Command>)
    requires Loadable(cmds, lookup)
    ensures LoadFile(EncodeAll(cmds), cfg, lookup) == WholeResult(cfg, lookup, cmds)
  {
    if cmds != [] {
      var n := |EncodeAll(cmds)|;
      assert n > 0;
      assert EncodeAll(cmds)[..n] == EncodeAll(cmds);
      LoadCut(cfg, lookup, cmds, n);
      WholeAll(cmds);
      assert cmds[..|cmds|] == cmds;
    }
  }

  /** A MULTI that opens or an EXEC that closes a transaction. */
  predicate Bracket(kind: Kind, inMulti: bool) { if inMulti then kind.Exec? else kind.Multi? }

  /** The commands of a log without the MULTI and EXEC around its transactions. */
  function Unwrapped(cmds: seq<Command>, lookup: Lookup, inMulti: bool): seq<Command>
    decreases |cmds|
  {
    if cmds == [] then []
    else if Bracket(lookup(cmds[0]), inMulti) then Unwrapped(cmds[1..], lookup, !inMulti)
    else [cmds[0]] + Unwrapped(cmds[1..], lookup, inMulti)
  }

  /** What was run and what is still queued are all commands of the log in order. */
  lemma {:induction false} RunUnwrapped(cmds: seq<Command>, lookup: Lookup, c: Client)
    requires !c.inMulti ==> c.queue == []
    ensures var c' := RunAll(cmds, lookup, c);
      && c'.ran + c'.queue == c.ran + c.queue + Unwrapped(cmds, lookup, c.inMulti)
      && (!c'.inMulti ==> c'.queue == [])
    decreases |cmds|
  {
    if cmds == [] {
      assert c.ran + c.queue + [] == c.ran + c.queue;
    } else {
      var kind := lookup(cmds[0]);
      var next := c.Run(cmds[0], kind);
      RunUnwrapped(cmds[1..], lookup, next);
      var one := if Bracket(kind, c.inMulti) then [] else [cmds[0]];
      assert next.ran + next.queue == c.ran + c.queue + one;
      assert c.ran + c.queue + one + Unwrapped(cmds[1..], lookup, next.inMulti) == c.ran + c.queue + Unwrapped(cmds, lookup, c.inMulti);
    }
  }

  /** Outside transactions commands run as they come. */
  lemma {:induction false} RunPlain(cmds: seq<Command>, lookup: Lookup, c: Client)
    requires !c.inMulti && forall cmd | cmd in cmds :: lookup(cmd).Other?
    ensures RunAll(cmds, lookup, c) == c.(ran := c.ran + cmds)
  {
    if cmds == [] {
      assert c.ran + cmds == c.ran;
    } else {
      RunPlain(cmds[1..], lookup, c.Run(cmds[0], lookup(cmds[0])));
      assert c.ran + [cmds[0]] + cmds[1..] == c.ran + cmds;
    }
  }

  /** A complete transaction inside a log takes effect as its queued commands. */
  lemma RunTransaction(body: seq<Command>, lookup: Lookup, multi: Command, exec: Command, c: Client)
    requires !c.inMulti && lookup(multi).Multi? && lookup(exec).Exec?
    requires forall cmd | cmd in body :: !lookup(cmd).Exec?
    ensures RunAll([multi] + body + [exec], lookup, c) == c.(queue := [], ran := c.ran + body)
  {
    var all := [multi] + body + [exec];
    assert all[1..] == body + [exec];
    Queued(body, lookup, exec, c.Run(multi, Multi));
    assert [] + body == body;
  }

  lemma {:induction false} Queued(body: seq<Command>, lookup: Lookup, exec: Command, c: Client)
    requires c.inMulti && lookup(exec).Exec? && forall cmd | cmd in body :: !lookup(cmd).Exec?
    ensures RunAll(body + [exec], lookup, c) == Client(false, [], c.ran + (c.queue + body))
  {
    if body == [] {
      assert body + [exec] == [exec] && c.queue + body == c.queue;
      assert RunAll([exec], lookup, c) == RunAll([exec][1..], lookup, c.Run(exec, Exec));
    } else {
      assert (body + [exec])[0] == body[0] && (body + [exec])[1..] == body[1..] + [exec];
      Queued(body[1..], lookup, exec, c.Run(body[0], lookup(body[0])));
      assert c.queue + [body[0]] + body[1..] == c.queue + body;
    }
  }

  // ---------------------------------------------------------------------
  // Loading again what a first load left of a cut log

  lemma {:induction false} RunAppend(a: seq<Command>, b: seq<Command>, lookup: Lookup, c: Client)
    ensures RunAll(a + b, lookup, c) == RunAll(b, lookup, RunAll(a, lookup, c))
    decreases |a|
  {
    if a == [] {
      assert a + b == b;
    } else {
      assert (a + b)[1..] == a[1..] + b;
      RunAppend(a[1..], b, lookup, c.Run(a[0], lookup(a[0])));
    }
  }

  /** The bytes of the first `k` commands are a prefix of the log. */
  lemma EncodedPrefix(cmds: seq<Command>, k: nat)
    requires k <= |cmds|
    ensures EncodeAll(cmds) == EncodeAll(cmds[..k]) + EncodeAll(cmds[k..])
  {
    hide EncodeAll;
    EncodeAllAppend(cmds[..k], cmds[k..]);
    assert cmds == cmds[..k] + cmds[k..];
  }

  lemma {:induction false} WholeFits(cmds: seq<Command>, n: nat)
    ensures |EncodeAll(cmds[..Whole(cmds, n)])| <= n
  {
    hide Encode;
    if cmds != [] && n >= |Encode(cmds[0])| {
      WholeFits(cmds[1..], n - |Encode(cmds[0])|);
      assert cmds[..Whole(cmds, n)][1..] == cmds[1..][..Whole(cmds, n) - 1];
    }
  }

  predicate NoMulti(cmds: seq<Command>, lookup: Lookup) { forall i | 0 <= i < |cmds| :: !lookup(cmds[i]).Multi? }

  /** The place of the last MULTI, or 0. */
  function LastMultiAt(cmds: seq<Command>, lookup: Lookup): (k: nat)
    ensures k <= |cmds|
    ensures NoMulti(cmds, lookup) ==> k == 0
    ensures !NoMulti(cmds, lookup) ==> k < |cmds| && lookup(cmds[k]).Multi? && NoMulti(cmds[k + 1..], lookup)
  {
    if cmds == [] then 0
    else if !NoMulti(cmds[1..], lookup) then
      var k := LastMultiAt(cmds[1..], lookup);
      assert cmds[1..][k + 1..] == cmds[k + 2..];
      1 + k
    else 0
  }

  lemma {:induction false} LastMultiOffset(cmds: seq<Command>, lookup: Lookup, pos: nat, before: nat)
    ensures LastMulti(cmds, lookup, pos, before) ==
      if NoMulti(cmds, lookup) then before else pos + |EncodeAll(cmds[..LastMultiAt(cmds, lookup)])|
    decreases |cmds|
  {
    hide Encode;
    if cmds != [] {
      var k := LastMultiAt(cmds, lookup);
      LastMultiOffset(cmds[1..], lookup, pos + |Encode(cmds[0])|, if lookup(cmds[0]).Multi? then pos else before);
      if !NoMulti(cmds[1..], lookup) {
        assert cmds[..k][0] == cmds[0] && cmds[..k][1..] == cmds[1..][..k - 1];
        assert !lookup(cmds[1 + LastMultiAt(cmds[1..], lookup)]).Other?;
      } else if lookup(cmds[0]).Multi? {
        assert cmds[..0] == [];
      } else {
        assert forall i | 0 <= i < |cmds| :: i > 0 ==> cmds[i] == cmds[1..][i - 1];
      }
    }
  }

  /** Without another MULTI, a transaction still open was open all the time. */
  lemma {:induction false} StillOpen(cmds: seq<Command>, lookup: Lookup, c: Client)
    requires NoMulti(cmds, lookup) && RunAll(cmds, lookup, c).inMulti
    ensures c.inMulti && RunAll(cmds, lookup, c).ran == c.ran
  {
    if cmds != [] {
      assert !lookup(cmds[0]).Multi?;
      assert forall i | 0 <= i < |cmds[1..]| :: cmds[1..][i] == cmds[i + 1];
      StillOpen(cmds[1..], lookup, c.Run(cmds[0], lookup(cmds[0])));
    }
  }

  /** Giving up an open transaction takes back none of the commands that were run. */
  lemma OpenTransaction(cmds: seq<Command>, lookup: Lookup)
    requires RunAll(cmds, lookup, Idle).inMulti
    ensures !NoMulti(cmds, lookup)
    ensures RunAll(cmds[..LastMultiAt(cmds, lookup)], lookup, Idle).ran == RunAll(cmds, lookup, Idle).ran
  {
    if NoMulti(cmds, lookup) {
      StillOpen(cmds, lookup, Idle);
    } else {
      var k := LastMultiAt(cmds, lookup);
      var a, b := cmds[..k], cmds[k + 1..];
      assert cmds == a + ([cmds[k]] + b);
      RunAppend(a, [cmds[k]] + b, lookup, Idle);
      assert ([cmds[k]] + b)[1..] == b;
      var c := RunAll(a, lookup, Idle);
      StillOpen(b, lookup, c.Run(cmds[k], Multi));
    }
  }

  /** The commands that a first load of `n` bytes leaves in the file. */
  function Left(cmds: seq<Command>, lookup: Lookup, n: nat): seq<Command> {
    var done := cmds[..Whole(cmds, n)];
    if |EncodeAll(done)| == n && RunAll(done, lookup, Idle).inMulti then done[..LastMultiAt(done, lookup)] else done
  }

  lemma LeftIsValid(cfg: Config, cmds: seq<Command>, lookup: Lookup, n: nat)
    requires Tracks(cfg)
    ensures var r := CutResult(cfg, lookup, cmds, n, 0, 0, Idle); var left := Left(cmds, lookup, n);
      && left <= cmds && r.validUpTo == |EncodeAll(left)| <= n && r.ran == RunAll(left, lookup, Idle).ran
  {
    hide EncodeAll, RunAll, Whole, LastMulti, LastMultiAt;
    var done := cmds[..Whole(cmds, n)];
    WholeFits(cmds, n);
    if RunAll(done, lookup, Idle).inMulti {
      OpenTransaction(done, lookup);
      LastMultiOffset(done, lookup, 0, 0);
      EncodedPrefix(done, LastMultiAt(done, lookup));
    }
  }

  /** A short file is cut and loaded anyway. */
  predicate Truncates(cfg: Config) { cfg.loadTruncated && cfg.truncateWorks }

  /** The file a load leaves behind. */
  function FileAfter(f: string, r: Loaded): string {
    if r.status in {AOF_TRUNCATED, AOF_BROKEN_RECOVERED} && r.validUpTo <= |f| then f[..r.validUpTo] else f
  }

  /** The first load: either the file is cut to the commands left, or nothing is cut. */
  lemma LeftInFile(cfg: Config, cmds: seq<Command>, lookup: Lookup, n: nat)
    requires Loadable(cmds, lookup) && 0 < n <= |EncodeAll(cmds)|
    ensures var f := EncodeAll(cmds)[..n]; var r := LoadFile(f, cfg, lookup); var left := Left(cmds, lookup, n);
      && (Truncates(cfg) ==> FileAfter(f, r) == EncodeAll(left) && r.ran == RunAll(left, lookup, Idle).ran)
      && (!Truncates(cfg) ==> FileAfter(f, r) == f)
    ensures Left(cmds, lookup, n) <= cmds && Loadable(Left(cmds, lookup, n), lookup)
  {
    hide EncodeAll, RunAll, LoadFile, Fits, Whole, CutResult, Left;
    LoadCut(cfg, lookup, cmds, n);
    CutStatus(cfg, lookup, cmds, n);
    var left := Left(cmds, lookup, n);
    LeftIsPrefix(cmds, lookup, n);
    EncodedPrefix(cmds, |left|);
    assert cmds[..|left|] == left;
    if Truncates(cfg) {
      LeftIsValid(cfg, cmds, lookup, n);
      assert EncodeAll(cmds)[..|EncodeAll(left)|] == EncodeAll(left);
    }
  }

  lemma LeftIsPrefix(cmds: seq<Command>, lookup: Lookup, n: nat)
    ensures Left(cmds, lookup, n) <= cmds
  {
    hide EncodeAll, RunAll, Whole, LastMultiAt;
  }

  /** A load that is neither clean nor cuts the file fails. */
  lemma CutStatus(cfg: Config, lookup: Lookup, cmds: seq<Command>, n: nat)
    ensures var r := CutResult(cfg, lookup, cmds, n, 0, 0, Idle); var done := cmds[..Whole(cmds, n)];
      && (Truncates(cfg) ==> r.status == AOF_TRUNCATED || (r.status == AOF_OK && Left(cmds, lookup, n) == done && |EncodeAll(done)| == n))
      && (!Truncates(cfg) ==> r.status == AOF_FAILED || r.status == AOF_OK)
      && (r.status == AOF_OK <==> |EncodeAll(done)| == n && !RunAll(done, lookup, Idle).inMulti)
  {
    hide EncodeAll, RunAll, Whole, LastMulti, LastMultiAt;
  }

  /** Loading again what the first load of a cut log left. If the first load cut the file,
      the same commands are run, and the load is clean exactly if no transaction is open
      behind the commands left; otherwise the file is cut back to the last MULTI left. If
      it did not cut the file, nothing changes. */
  lemma ReloadCut(cfg: Config, lookup: Lookup, cmds: seq<Command>, n: nat)
    requires Loadable(cmds, lookup) && 0 < n <= |EncodeAll(cmds)|
    ensures var f := EncodeAll(cmds)[..n]; var r := LoadFile(f, cfg, lookup); var again := LoadFile(FileAfter(f, r), cfg, lookup);
      && again.ran == r.ran
      && again == if Truncates(cfg) then WholeResult(cfg, lookup, Left(cmds, lookup, n)) else r
  {
    LeftInFile(cfg, cmds, lookup, n);
    hide LoadFile, EncodeAll, Left, Loadable, RunAll;
    LoadWhole(cfg, lookup, Left(cmds, lookup, n));
    RunNothing(lookup);
  }

  /** No MULTI inside a transaction. */
  predicate Flat(cmds: seq<Command>, lookup: Lookup, c: Client)
    decreases |cmds|
  {
    cmds == [] || ((c.inMulti ==> !lookup(cmds[0]).Multi?) && Flat(cmds[1..], lookup, c.Run(cmds[0], lookup(cmds[0]))))
  }

  lemma {:induction false} FlatAt(a: seq<Command>, b: seq<Command>, lookup: Lookup, c: Client)
    requires Flat(a + b, lookup, c)
    ensures Flat(a, lookup, c) && Flat(b, lookup, RunAll(a, lookup, c))
    decreases |a|
  {
    if a == [] {
      assert a + b == b;
    } else {
      assert (a + b)[1..] == a[1..] + b;
      FlatAt(a[1..], b, lookup, c.Run(a[0], lookup(a[0])));
    }
  }

  /** The last MULTI of a log without nesting opened its transaction. */
  lemma FlatOpens(cmds: seq<Command>, lookup: Lookup)
    requires Flat(cmds, lookup, Idle) && !NoMulti(cmds, lookup)
    ensures !RunAll(cmds[..LastMultiAt(cmds, lookup)], lookup, Idle).inMulti
  {
    var k := LastMultiAt(cmds, lookup);
    assert cmds == cmds[..k] + cmds[k..];
    FlatAt(cmds[..k], cmds[k..], lookup, Idle);
  }

  predicate Clean(r: Loaded) { r.status == AOF_OK || r.status == AOF_EMPTY }

  /** The part of a log cut after `n` bytes ends inside a transaction. */
  predicate EndsOpen(cmds: seq<Command>, lookup: Lookup, n: nat) { RunAll(cmds[..Whole(cmds, n)], lookup, Idle).inMulti }

  /** The cut is inside a command. */
  predicate CutsInside(cmds: seq<Command>, n: nat) { |EncodeAll(cmds[..Whole(cmds, n)])| != n }

  lemma LeftOpen(cmds: seq<Command>, lookup: Lookup, n: nat)
    requires Flat(cmds, lookup, Idle)
    ensures RunAll(Left(cmds, lookup, n), lookup, Idle).inMulti <==> EndsOpen(cmds, lookup, n) && CutsInside(cmds, n)
  {
    var done := cmds[..Whole(cmds, n)];
    assert cmds == done + cmds[|done|..];
    FlatAt(done, cmds[|done|..], lookup, Idle);
    if RunAll(done, lookup, Idle).inMulti {
      OpenTransaction(done, lookup);
      FlatOpens(done, lookup);
    }
    hide EncodeAll, RunAll, Whole, Flat, LastMulti;
  }

  /** Without nesting: if the file may be cut, the second load of a cut log is clean exactly
      unless the cut was inside a command of an open transaction. If it may not, it is
      clean exactly if the first one was. */
  lemma SecondLoad(cfg: Config, lookup: Lookup, cmds: seq<Command>, n: nat)
    requires Loadable(cmds, lookup) && 0 < n <= |EncodeAll(cmds)| && Flat(cmds, lookup, Idle)
    ensures var f := EncodeAll(cmds)[..n]; var r := LoadFile(f, cfg, lookup);
      Clean(LoadFile(FileAfter(f, r), cfg, lookup)) <==>
        if Truncates(cfg) then !(EndsOpen(cmds, lookup, n) && CutsInside(cmds, n))
        else !EndsOpen(cmds, lookup, n) && !CutsInside(cmds, n)
  {
    hide EncodeAll, RunAll, Whole, Flat, LastMulti, LoadFile, Left, Loadable, CutResult;
    ReloadCut(cfg, lookup, cmds, n);
    LoadCut(cfg, lookup, cmds, n);
    CutStatus(cfg, lookup, cmds, n);
    LeftOpen(cmds, lookup, n);
    RunNothing(lookup);
  }

  lemma RunNothing(lookup: Lookup)
    ensures RunAll([], lookup, Idle) == Idle
  {
  }

  /** Without nesting, all loads of a cut log run the same commands, and if the file may be
      cut the third one is clean. */
  lemma ThirdLoad(cfg: Config, lookup: Lookup, cmds: seq<Command>, n: nat)
    requires Loadable(cmds, lookup) && 0 < n <= |EncodeAll(cmds)| && Flat(cmds, lookup, Idle)
    ensures var f := EncodeAll(cmds)[..n]; var r := LoadFile(f, cfg, lookup);
      var g := FileAfter(f, r); var again := LoadFile(g, cfg, lookup);
      var third := LoadFile(FileAfter(g, again), cfg, lookup);
      third.ran == again.ran == r.ran && (Truncates(cfg) ==> Clean(third))
  {
    LeftInFile(cfg, cmds, lookup, n);
    ReloadCut(cfg, lookup, cmds, n);
    LeftFlat(cmds, lookup, n);
    hide LoadFile, EncodeAll, Left, Loadable, RunAll, Flat, WholeResult, FileAfter;
    if Truncates(cfg) {
      WholeAgain(cfg, lookup, Left(cmds, lookup, n));
    }
  }

  lemma LeftFlat(cmds: seq<Command>, lookup: Lookup, n: nat)
    requires Flat(cmds, lookup, Idle)
    ensures Flat(Left(cmds, lookup, n), lookup, Idle)
  {
    LeftIsPrefix(cmds, lookup, n);
    hide EncodeAll, RunAll, Whole, Flat;
    var left := Left(cmds, lookup, n);
    assert cmds == left + cmds[|left|..];
    FlatAt(left, cmds[|left|..], lookup, Idle);
  }

  /** Loading an uncut log without nesting twice. */
  lemma WholeAgain(cfg: Config, lookup: Lookup, cmds: seq<Command>)
    requires Truncates(cfg) && Loadable(cmds, lookup) && Flat(cmds, lookup, Idle)
    ensures var f := EncodeAll(cmds); var r := LoadFile(f, cfg, lookup); var again := LoadFile(FileAfter(f, r), cfg, lookup);
      Clean(again) && again.ran == r.ran
  {
    if cmds == [] {
      LoadWhole(cfg, lookup, cmds);
    } else {
      var n := |EncodeAll(cmds)|;
      assert n > 0 && EncodeAll(cmds)[..n] == EncodeAll(cmds);
      hide LoadFile, EncodeAll, FileAfter, Flat;
      WholeAll(cmds);
      assert cmds[..|cmds|] == cmds;
      ReloadCut(cfg, lookup, cmds, n);
      SecondLoad(cfg, lookup, cmds, n);
    }
  }

  predicate NoExec(cmds: seq<Command>, lookup: Lookup) { forall i | 0 <= i < |cmds| :: !lookup(cmds[i]).Exec? }

  /** Without EXEC, nothing of an open transaction is run. */
  lemma {:induction false} NeverRuns(cmds: seq<Command>, lookup: Lookup, c: Client)
    requires c.inMulti && NoExec(cmds, lookup)
    ensures var c' := RunAll(cmds, lookup, c); c'.inMulti && c'.ran == c.ran
  {
    if cmds != [] {
      assert !lookup(cmds[0]).Exec?;
      assert forall i | 0 <= i < |cmds[1..]| :: cmds[1..][i] == cmds[i + 1];
      NeverRuns(cmds[1..], lookup, c.Run(cmds[0], lookup(cmds[0])));
    }
  }

  /** What becomes of commands written behind the log that a first load left and cut: the
      next load runs them behind those run before if and only if there are none or the cut
      was not inside a command of an open transaction. */
  lemma WrittenAfterCut(cfg: Config, lookup: Lookup, cmds: seq<Command>, n: nat, more: seq<Command>)
    requires Truncates(cfg) && Loadable(cmds, lookup) && 0 < n <= |EncodeAll(cmds)| && Flat(cmds, lookup, Idle)
    requires Loadable(more, lookup) && forall cmd | cmd in more :: lookup(cmd).Other?
    ensures var f := EncodeAll(cmds)[..n]; var r := LoadFile(f, cfg, lookup);
      LoadFile(FileAfter(f, r) + EncodeAll(more), cfg, lookup).ran == r.ran + more <==>
        more == [] || !(EndsOpen(cmds, lookup, n) && CutsInside(cmds, n))
  {
    LeftInFile(cfg, cmds, lookup, n);
    LeftOpen(cmds, lookup, n);
    var left := Left(cmds, lookup, n);
    var c := RunAll(left, lookup, Idle);
    RunAppend(left, more, lookup, Idle);
    EncodeAllAppend(left, more);
    if c.inMulti {
      assert NoExec(more, lookup) by { assert forall i | 0 <= i < |more| :: more[i] in more; }
      NeverRuns(more, lookup, c);
    } else {
      RunPlain(more, lookup, c);
    }
    hide LoadFile, EncodeAll, Left, RunAll, Flat, Fits, FileAfter;
    LoadWhole(cfg, lookup, left + more);
    RunNothing(lookup);
    assert |c.ran + more| == |c.ran| + |more|;
  }

  // ---------------------------------------------------------------------
  // A cut inside a transaction

  /** A command table with MULTI and EXEC. */
  function SmallTable(cmd: Command): Kind {
    if cmd == ["MULTI"] then Multi else if cmd == ["EXEC"] then Exec else Other
  }

  /** MULTI, and the first byte of another command: the file that the first load leaves
      does not load cleanly, and a command written behind it is lost. */
  lemma TornTransaction(cfg: Config)
    requires Truncates(cfg)
    ensures var multi, del, later := ["MULTI"], ["DEL", "k"], ["SET", "k", "v"];
      |EncodeAll([multi, del])| > |Encode(multi)| && var f := EncodeAll([multi, del])[..|Encode(multi)| + 1];
      var r := LoadFile(f, cfg, SmallTable);
      && r == Loaded(AOF_TRUNCATED, [], |Encode(multi)|)
      && LoadFile(FileAfter(f, r), cfg, SmallTable) == Loaded(AOF_TRUNCATED, [], 0)
      && LoadFile(FileAfter(f, r) + EncodeAll([later]), cfg, SmallTable).ran == []
  {
    hide Encode, EncodeAll, LoadFile, FileAfter;
    TornMulti(cfg, SmallTable, ["MULTI"], ["DEL", "k"], ["SET", "k", "v"]);
  }

  lemma TornMulti(cfg: Config, lookup: Lookup, multi: Command, next: Command, later: Command)
    requires Truncates(cfg) && Loadable([multi, next, later], lookup)
    requires lookup(multi).Multi? && lookup(next).Other? && lookup(later).Other?
    ensures |EncodeAll([multi, next])| > |Encode(multi)| && var f := EncodeAll([multi, next])[..|Encode(multi)| + 1];
      var r := LoadFile(f, cfg, lookup);
      && r == Loaded(AOF_TRUNCATED, [], |Encode(multi)|)
      && LoadFile(FileAfter(f, r), cfg, lookup) == Loaded(AOF_TRUNCATED, [], 0)
      && LoadFile(FileAfter(f, r) + EncodeAll([later]), cfg, lookup).ran == []
  {
    var cmds, n := [multi, next], |Encode(multi)| + 1;
    TornShape(lookup, multi, next);
    assert multi in [multi, next, later] && next in [multi, next, later] && later in [multi, next, later];
    hide Encode, EncodeAll, LoadFile, Fits, Whole, RunAll, Left, LastMulti;
    LoadCut(cfg, lookup, cmds, n);
    ReloadCut(cfg, lookup, cmds, n);
    LeftInFile(cfg, cmds, lookup, n);
    TornAppend(cfg, lookup, multi, later);
  }

  lemma OneEncoded(cmd: Command)
    ensures EncodeAll([cmd]) == Encode(cmd) && |Encode(cmd)| > 1
  {
    assert [cmd][1..] == [];
    assert Encode(cmd) + "" == Encode(cmd);
  }

  lemma TornShape(lookup: Lookup, multi: Command, next: Command)
    requires lookup(multi).Multi? && lookup(next).Other?
    ensures var cmds, n := [multi, next], |Encode(multi)| + 1;
      && |EncodeAll(cmds)| > n && cmds[..Whole(cmds, n)] == [multi] && |EncodeAll([multi])| == |Encode(multi)|
      && Left(cmds, lookup, n) == [multi] && LastMulti([multi], lookup, 0, 0) == 0
      && RunAll([multi], lookup, Idle).inMulti && RunAll([multi], lookup, Idle).ran == []
  {
    OneEncoded(multi);
    OneEncoded(next);
    hide Encode;
    var cmds, n := [multi, next], |Encode(multi)| + 1;
    assert cmds[1..] == [next];
    assert Whole([next], 1) == 0;
    assert Whole(cmds, n) == 1;
    assert cmds[..1] == [multi];
    RunOne(multi, lookup, Idle);
    assert [multi][1..] == [];
    assert LastMulti([], lookup, |Encode(multi)|, 0) == 0;
  }

  lemma TornAppend(cfg: Config, lookup: Lookup, multi: Command, later: Command)
    requires Loadable([multi, later], lookup) && lookup(multi).Multi? && lookup(later).Other?
    ensures LoadFile(EncodeAll([multi]) + EncodeAll([later]), cfg, lookup).ran == []
  {
    hide Encode, LoadFile, Fits, EncodeAll;
    assert [multi, later] == [multi] + [later];
    EncodeAllAppend([multi], [later]);
    LoadWhole(cfg, lookup, [multi, later]);
    RunAppend([multi], [later], lookup, Idle);
    RunOne(multi, lookup, Idle);
    NeverRuns([later], lookup, RunAll([multi], lookup, Idle));
  }

  // ---------------------------------------------------------------------
  // Feeding commands and the database they belong to

  function LowerChar(c: char): char { if 'A' <= c <= 'Z' then (c as int + 32) as char else c }

  function Lower(s: string): string { seq(|s|, i requires 0 <= i < |s| => LowerChar(s[i])) }

  predicate IsSelect(cmd: Command) { |cmd| == 2 && Lower(cmd[0]) == "select" }

  function Select(db: nat): Command { ["SELECT", Digits(db)] }

  /** A command to be logged, with its database or -1. */
  datatype Fed = Fed(dictid: int, argv: Command)

  /** The commands appended for one feed while `selected` is the database last selected. */
  function Appended(selected: int, fed: Fed): seq<Command> {
    if fed.dictid != -1 && fed.dictid != selected && fed.dictid >= 0 then [Select(fed.dictid), fed.argv] else [fed.argv]
  }

  function SelectedAfter(selected: int, fed: Fed): int { if fed.dictid != -1 then fed.dictid else selected }

  function AppendedAll(selected: int, feds: seq<Fed>): seq<Command>
    decreases |feds|
  {
    if feds == [] then [] else Appended(selected, feds[0]) + AppendedAll(SelectedAfter(selected, feds[0]), feds[1..])
  }

  class Feeder {
    var aofBuf: string
    var selectedDb: int
    const dbnum: nat

    constructor (dbnum: nat)
      ensures aofBuf == "" && selectedDb == -1 && this.dbnum == dbnum
    {
      aofBuf, selectedDb, this.dbnum := "", -1, dbnum;
    }

    /** `feedAppendOnlyFile` while the log is on and timestamps are off. */
    method FeedAppendOnlyFile(fed: Fed)
      requires fed.dictid == -1 || 0 <= fed.dictid < dbnum
      modifies this
      ensures aofBuf == old(aofBuf) + EncodeAll(Appended(old(selectedDb), fed))
      ensures selectedDb == SelectedAfter(old(selectedDb), fed)
    {
      hide Encode, EncodeAll, SelectText, Appended;
      FedBytes(selectedDb, fed);
      var buf := "";
      if fed.dictid != -1 && fed.dictid != selectedDb {
        buf := buf + SelectText(fed.dictid);
        selectedDb := fed.dictid;
      }
      buf := CatAppendOnlyGenericCommand(buf, fed.argv);
      aofBuf := aofBuf + buf;
    }

    /** Any number of feeds. */
    method FeedAll(feds: seq<Fed>)
      requires forall fed | fed in feds :: fed.dictid == -1 || 0 <= fed.dictid < dbnum
      modifies this
      ensures aofBuf == old(aofBuf) + EncodeAll(AppendedAll(old(selectedDb), feds))
    {
      hide EncodeAll;
      ghost var was, sel := aofBuf, selectedDb;
      EncodeNothing();
      for i := 0 to |feds|
        invariant aofBuf + EncodeAll(AppendedAll(selectedDb, feds[i..])) == was + EncodeAll(AppendedAll(sel, feds))
      {
        ghost var selected, buf := selectedDb, aofBuf;
        FeedAppendOnlyFile(feds[i]);
        assert feds[i..][1..] == feds[i + 1..];
        EncodeAllAppend(Appended(selected, feds[i]), AppendedAll(selectedDb, feds[i + 1..]));
      }
    }
  }

  lemma EncodeNothing()
    ensures EncodeAll([]) == ""
  {
  }

  /** The text printed for SELECT. */
  function SelectText(db: nat): string {
    var seldb := Digits(db);
    "*2\r\n$6\r\nSELECT\r\n$" + Digits(|seldb|) + "\r\n" + seldb + "\r\n"
  }

  lemma SelectConstant()
    ensures Header('*', 2) + EncodeArg("SELECT") == "*2\r\n$6\r\nSELECT\r\n"
  {
    assert Digits(2) == "2" && Digits(6) == "6";
  }

  /** The text written for SELECT is the encoding of that command. */
  lemma SelectEncoded(db: nat)
    ensures SelectText(db) == Encode(Select(db))
  {
    var argv := Select(db);
    SelectConstant();
    TwoArgs(argv[0], argv[1]);
    hide Digits;
    assert argv == [argv[0], argv[1]];
    assert "*2\r\n$6\r\nSELECT\r\n" + "$" == "*2\r\n$6\r\nSELECT\r\n$";
  }

  lemma TwoArgs(a: string, b: string)
    ensures Encode([a, b]) == Header('*', 2) + EncodeArg(a) + EncodeArg(b)
  {
    hide EncodeArg, Header;
    assert [a, b][1..] == [b] && [b][1..] == [];
    assert EncodeArgs([b]) == EncodeArg(b) + EncodeArgs([]);
    assert EncodeArgs([a, b]) == EncodeArg(a) + EncodeArgs([b]);
  }

  /** The bytes of one feed, with and without SELECT. */
  lemma FedBytes(selected: int, fed: Fed)
    requires fed.dictid >= -1
    ensures EncodeAll(Appended(selected, fed)) ==
      (if fed.dictid != -1 && fed.dictid != selected then SelectText(fed.dictid) else "") + Encode(fed.argv)
  {
    hide Encode, SelectText;
    assert EncodeAll([fed.argv]) == Encode(fed.argv) + EncodeAll([]);
    if fed.dictid != -1 && fed.dictid != selected {
      var select := Select(fed.dictid);
      SelectEncoded(fed.dictid);
      assert [select, fed.argv][1..] == [fed.argv];
      assert EncodeAll([select, fed.argv]) == Encode(select) + EncodeAll([fed.argv]);
    }
  }

  /** Replay: each command other than SELECT with the database it runs in. */
  function Placed(cmds: seq<Command>, db: int): seq<(int, Command)>
    decreases |cmds|
  {
    if cmds == [] then []
    else if IsSelect(cmds[0]) then Placed(cmds[1..], StrTol(cmds[0][1]))
    else [(db, cmds[0])] + Placed(cmds[1..], db)
  }

  /** What the feeds mean: their commands, without the MULTI and EXEC around
      transactions, each with the database last named up to it. */
  function Meant(feds: seq<Fed>, lookup: Lookup, inMulti: bool, db: int): seq<(int, Command)>
    decreases |feds|
  {
    if feds == [] then []
    else
      var fed := feds[0];
      var db' := if fed.dictid != -1 then fed.dictid else db;
      if Bracket(lookup(fed.argv), inMulti) then Meant(feds[1..], lookup, !inMulti, db')
      else [(db', fed.argv)] + Meant(feds[1..], lookup, inMulti, db')
  }

  /** Every transaction is closed. */
  predicate Closed(feds: seq<Fed>, lookup: Lookup, inMulti: bool)
    decreases |feds|
  {
    if feds == [] then !inMulti
    else Closed(feds[1..], lookup, if Bracket(lookup(feds[0].argv), inMulti) then !inMulti else inMulti)
  }

  /** Whether a transaction is open behind one more feed. */
  lemma {:induction false} ClosedStep(feds: seq<Fed>, fed: Fed, lookup: Lookup, inMulti: bool)
    ensures Closed(feds + [fed], lookup, inMulti) <==>
      if Closed(feds, lookup, inMulti) then !lookup(fed.argv).Multi? else lookup(fed.argv).Exec?
    decreases |feds|
  {
    if feds == [] {
      assert feds + [fed] == [fed] && [fed][1..] == [];
    } else {
      assert (feds + [fed])[1..] == feds[1..] + [fed];
      ClosedStep(feds[1..], fed, lookup, if Bracket(lookup(feds[0].argv), inMulti) then !inMulti else inMulti);
    }
  }

  /** The place of the MULTI that stays open, or the end. */
  function OpenAt(feds: seq<Fed>, lookup: Lookup): (k: nat)
    ensures k <= |feds| && (k == |feds| <==> Closed(feds, lookup, false)) && Closed(feds[..k], lookup, false)
    ensures k < |feds| ==> lookup(feds[k].argv).Multi? && forall i | k < i < |feds| :: !lookup(feds[i].argv).Exec?
  {
    if feds == [] then 0
    else
      var n := |feds| - 1;
      assert feds == feds[..n] + [feds[n]];
      ClosedStep(feds[..n], feds[n], lookup, false);
      var k := OpenAt(feds[..n], lookup);
      assert feds[..n][..k] == feds[..k];
      assert feds[..|feds|] == feds;
      if k == n then if lookup(feds[n].argv).Multi? then n else |feds|
      else if lookup(feds[n].argv).Exec? then |feds| else k
  }

  /** SELECT is an ordinary command of the command table. */
  ghost predicate SelectKnown(lookup: Lookup) { forall db: nat :: lookup(Select(db)).Other? }

  /** The feeds that are not brackets of transactions. */
  function Inner(feds: seq<Fed>, lookup: Lookup, inMulti: bool): seq<Fed>
    decreases |feds|
  {
    if feds == [] then []
    else if Bracket(lookup(feds[0].argv), inMulti) then Inner(feds[1..], lookup, !inMulti)
    else [feds[0]] + Inner(feds[1..], lookup, inMulti)
  }

  /** Each fed command is meant once, in order, in the database it was fed with. */
  lemma {:induction false} MeantPlaces(feds: seq<Fed>, lookup: Lookup, inMulti: bool, db: int, i: nat)
    ensures |Meant(feds, lookup, inMulti, db)| == |Inner(feds, lookup, inMulti)|
    ensures i < |Inner(feds, lookup, inMulti)| ==>
      var fed := Inner(feds, lookup, inMulti)[i]; var placed := Meant(feds, lookup, inMulti, db)[i];
      placed.1 == fed.argv && (fed.dictid != -1 ==> placed.0 == fed.dictid)
    decreases |feds|
  {
    if feds != [] {
      var fed := feds[0];
      var db' := if fed.dictid != -1 then fed.dictid else db;
      if Bracket(lookup(fed.argv), inMulti) {
        MeantPlaces(feds[1..], lookup, !inMulti, db', i);
      } else {
        MeantPlaces(feds[1..], lookup, inMulti, db', if i > 0 then i - 1 else 0);
      }
    }
  }

  /** The SELECTs put every command where it is meant to run, also those queued inside
      a transaction. */
  lemma {:induction false} ReplayPlacement(feds: seq<Fed>, lookup: Lookup, inMulti: bool, selected: int, db: int)
    requires forall fed | fed in feds :: fed.dictid >= -1 && !IsSelect(fed.argv)
    requires SelectKnown(lookup) && (selected == -1 || selected == db)
    ensures Placed(Unwrapped(AppendedAll(selected, feds), lookup, inMulti), db) == Meant(feds, lookup, inMulti, db)
    decreases |feds|
  {
    if feds != [] {
      var fed := feds[0];
      var selected' := SelectedAfter(selected, fed);
      var tail := AppendedAll(selected', feds[1..]);
      var db' := if fed.dictid != -1 then fed.dictid else db;
      hide IsSelect, SelectKnown, Placed;
      ReplayPlacement(feds[1..], lookup, if Bracket(lookup(fed.argv), inMulti) then !inMulti else inMulti, selected', db');
      PlacedFeed(fed, lookup, inMulti, selected, db, tail);
    }
  }

  lemma PlacedFeed(fed: Fed, lookup: Lookup, inMulti: bool, selected: int, db: int, tail: seq<Command>)
    requires fed.dictid >= -1 && !IsSelect(fed.argv) && SelectKnown(lookup)
    requires selected == -1 || selected == db
    ensures var db' := if fed.dictid != -1 then fed.dictid else db;
      Placed(Unwrapped(Appended(selected, fed) + tail, lookup, inMulti), db) ==
        if Bracket(lookup(fed.argv), inMulti) then Placed(Unwrapped(tail, lookup, !inMulti), db')
        else [(db', fed.argv)] + Placed(Unwrapped(tail, lookup, inMulti), db')
  {
    var db' := if fed.dictid != -1 then fed.dictid else db;
    var cmds, one := Appended(selected, fed) + tail, [fed.argv] + tail;
    assert one[1..] == tail;
    var rest := Unwrapped(one, lookup, inMulti);
    assert Placed(rest, db') == if Bracket(lookup(fed.argv), inMulti) then Placed(Unwrapped(tail, lookup, !inMulti), db')
      else [(db', fed.argv)] + Placed(Unwrapped(tail, lookup, inMulti), db');
    if |Appended(selected, fed)| == 2 {
      var select := Select(fed.dictid);
      assert cmds[0] == select && cmds[1..] == one;
      SelectIsSelect(fed.dictid);
      hide IsSelect;
      assert Unwrapped(cmds, lookup, inMulti) == [select] + rest;
      assert ([select] + rest)[1..] == rest;
    }
  }

  lemma SelectIsSelect(db: nat)
    ensures IsSelect(Select(db)) && StrTol(Select(db)[1]) == db
  {
    assert Lower("SELECT") == "select";
    assert Digits(db) + "" == Digits(db);
    ParseDigits(db, "");
  }

  lemma {:induction false} AppendedFit(feds: seq<Fed>, lookup: Lookup, selected: int)
    requires SelectKnown(lookup)
    requires forall fed | fed in feds :: -1 <= fed.dictid < 0x8000_0000 && Fits(fed.argv) && !lookup(fed.argv).Unknown?
    ensures Loadable(AppendedAll(selected, feds), lookup)
    ensures feds != [] ==> AppendedAll(selected, feds) != []
    decreases |feds|
  {
    if feds != [] {
      AppendedFit(feds[1..], lookup, SelectedAfter(selected, feds[0]));
      if feds[0].dictid >= 0 { ShortNumber(feds[0].dictid); }
    }
  }

  /** The SELECTs do not open or close transactions. */
  lemma {:induction false} AppendedOpen(feds: seq<Fed>, lookup: Lookup, selected: int, c: Client)
    requires SelectKnown(lookup)
    ensures RunAll(AppendedAll(selected, feds), lookup, c).inMulti <==> !Closed(feds, lookup, c.inMulti)
    decreases |feds|
  {
    if feds != [] {
      var fed := feds[0];
      var selected' := SelectedAfter(selected, fed);
      var a, b := Appended(selected, fed), AppendedAll(selected', feds[1..]);
      RunAppend(a, b, lookup, c);
      var c' := RunAll(a, lookup, c);
      AppendedOpen(feds[1..], lookup, selected', c');
      RunOne(fed.argv, lookup, c);
      if |a| == 2 {
        var select := Select(fed.dictid);
        assert a == [select] + [fed.argv] && lookup(select).Other?;
        RunAppend([select], [fed.argv], lookup, c);
        RunOne(select, lookup, c);
        RunOne(fed.argv, lookup, c.Run(select, Other));
      }
    }
  }

  lemma RunOne(cmd: Command, lookup: Lookup, c: Client)
    ensures RunAll([cmd], lookup, c) == c.Run(cmd, lookup(cmd))
  {
    assert [cmd][1..] == [];
  }

  function SelectedAfterAll(selected: int, feds: seq<Fed>): int
    decreases |feds|
  {
    if feds == [] then selected else SelectedAfterAll(SelectedAfter(selected, feds[0]), feds[1..])
  }

  lemma {:induction false} AppendedSplit(selected: int, a: seq<Fed>, b: seq<Fed>)
    ensures AppendedAll(selected, a + b) == AppendedAll(selected, a) + AppendedAll(SelectedAfterAll(selected, a), b)
    decreases |a|
  {
    if a == [] {
      assert a + b == b;
    } else {
      assert (a + b)[0] == a[0] && (a + b)[1..] == a[1..] + b;
      AppendedSplit(SelectedAfter(selected, a[0]), a[1..], b);
    }
  }

  lemma {:induction false} AppendedNoExec(selected: int, feds: seq<Fed>, lookup: Lookup)
    requires SelectKnown(lookup) && forall i | 0 <= i < |feds| :: !lookup(feds[i].argv).Exec?
    ensures NoExec(AppendedAll(selected, feds), lookup)
    decreases |feds|
  {
    if feds != [] {
      assert forall i | 0 <= i < |feds[1..]| :: feds[1..][i] == feds[i + 1];
      AppendedNoExec(SelectedAfter(selected, feds[0]), feds[1..], lookup);
      if feds[0].dictid >= 0 { assert lookup(Select(feds[0].dictid)).Other?; }
    }
  }

  lemma {:induction false} PlacedSelect(a: seq<Command>, db: nat, cur: int)
    ensures Placed(a + [Select(db)], cur) == Placed(a, cur)
    decreases |a|
  {
    if a == [] {
      SelectIsSelect(db);
      hide IsSelect;
      assert a + [Select(db)] == [Select(db)] && [Select(db)][1..] == [];
    } else {
      assert (a + [Select(db)])[0] == a[0] && (a + [Select(db)])[1..] == a[1..] + [Select(db)];
      hide Lower, StrTol, Select;
      PlacedSelect(a[1..], db, if IsSelect(a[0]) then StrTol(a[0][1]) else cur);
    }
  }

  /** A MULTI that stays open, and all behind it, add at most a SELECT to what is run. */
  lemma OpenRuns(feds: seq<Fed>, lookup: Lookup, selected: int, c: Client)
    requires SelectKnown(lookup) && feds != [] && !c.inMulti && lookup(feds[0].argv).Multi?
    requires forall i | 0 < i < |feds| :: !lookup(feds[i].argv).Exec?
    ensures Placed(RunAll(AppendedAll(selected, feds), lookup, c).ran, 0) == Placed(c.ran, 0)
  {
    var fed := feds[0];
    var a, b := Appended(selected, fed), AppendedAll(SelectedAfter(selected, fed), feds[1..]);
    RunAppend(a, b, lookup, c);
    var c' := RunAll(a, lookup, c);
    assert forall i | 0 <= i < |feds[1..]| :: feds[1..][i] == feds[i + 1];
    AppendedNoExec(SelectedAfter(selected, fed), feds[1..], lookup);
    hide Placed, IsSelect;
    RunOne(fed.argv, lookup, c);
    if |a| == 2 {
      var select := Select(fed.dictid);
      assert a == [select] + [fed.argv] && lookup(select).Other?;
      RunAppend([select], [fed.argv], lookup, c);
      RunOne(select, lookup, c);
      RunOne(fed.argv, lookup, c.Run(select, Other));
      PlacedSelect(c.ran, fed.dictid, 0);
    }
    NeverRuns(b, lookup, c');
  }

  /** What feeds whose transactions are closed run. */
  lemma ClosedRuns(feds: seq<Fed>, lookup: Lookup)
    requires SelectKnown(lookup) && Closed(feds, lookup, false)
    requires forall fed | fed in feds :: fed.dictid >= -1 && !IsSelect(fed.argv)
    ensures var c := RunAll(AppendedAll(-1, feds), lookup, Idle);
      !c.inMulti && Placed(c.ran, 0) == Meant(feds, lookup, false, 0)
  {
    var cmds := AppendedAll(-1, feds);
    RunUnwrapped(cmds, lookup, Idle);
    AppendedOpen(feds, lookup, -1, Idle);
    ReplayPlacement(feds, lookup, false, -1, 0);
    hide AppendedAll, RunAll, Unwrapped, Placed, Meant, IsSelect;
    var c := RunAll(cmds, lookup, Idle);
    assert [] + [] + Unwrapped(cmds, lookup, false) == Unwrapped(cmds, lookup, false);
    assert c.queue == [] ==> c.ran + c.queue == c.ran;
  }

  /** What any feeds run: those in front of the MULTI that stays open, if any. */
  lemma FeedsRun(feds: seq<Fed>, lookup: Lookup)
    requires SelectKnown(lookup) && forall fed | fed in feds :: fed.dictid >= -1 && !IsSelect(fed.argv)
    ensures Placed(RunAll(AppendedAll(-1, feds), lookup, Idle).ran, 0) == Meant(feds[..OpenAt(feds, lookup)], lookup, false, 0)
  {
    hide Placed, Meant, IsSelect, AppendedAll, RunAll, SelectKnown, Closed;
    var k := OpenAt(feds, lookup);
    var a, b := feds[..k], feds[k..];
    assert feds == a + b;
    ClosedRuns(a, lookup);
    if k == |feds| {
      assert a == feds;
    } else {
      AppendedSplit(-1, a, b);
      RunAppend(AppendedAll(-1, a), AppendedAll(SelectedAfterAll(-1, a), b), lookup, Idle);
      OpenRuns(b, lookup, SelectedAfterAll(-1, a), RunAll(AppendedAll(-1, a), lookup, Idle));
    }
  }

  /** The log of any sequence of fed commands, transactions included, starting with no
      database selected, loads without error under any settings exactly if its
      transactions are closed. Its replay runs exactly the fed commands, up to the MULTI
      that stays open if there is one, without the MULTI and EXEC around transactions, in
      order, each one in the database it was fed with. */
  lemma FedLogReplays(cfg: Config, lookup: Lookup, feds: seq<Fed>)
    requires SelectKnown(lookup)
    requires forall fed | fed in feds ::
      -1 <= fed.dictid < 0x8000_0000 && Fits(fed.argv) && !IsSelect(fed.argv) && !lookup(fed.argv).Unknown?
    ensures var r := LoadFile(EncodeAll(AppendedAll(-1, feds)), cfg, lookup);
      && (Clean(r) <==> Closed(feds, lookup, false))
      && Placed(r.ran, 0) == Meant(feds[..OpenAt(feds, lookup)], lookup, false, 0)
    ensures Closed(feds, lookup, false) ==> feds[..OpenAt(feds, lookup)] == feds
  {
    AppendedFit(feds, lookup, -1);
    AppendedOpen(feds, lookup, -1, Idle);
    FeedsRun(feds, lookup);
    hide AppendedAll, EncodeAll, LoadFile, RunAll, Placed, Meant, Fits, IsSelect, Closed;
    LoadWhole(cfg, lookup, AppendedAll(-1, feds));
    RunNothing(lookup);
  }
}
