/** The manifest naming the BASE, HISTORY and INCR files (aof.c): its mutators, its
    printer and its loader. */
module AofManifest {
  import opened Base
  import opened Decimal
  import opened Sds
  import AofLog

  datatype AofInfo = AofInfo(name: string, number: int, ftype: char, startOffset: int, endOffset: int)

  const BASE := 'b'
  const HIST := 'h'
  const INCR := 'i'

  datatype Manifest = Manifest(
    base: Option<AofInfo>, history: seq<AofInfo>, incr: seq<AofInfo>,
    baseSeq: int, incrSeq: int, dirty: bool)

  const EMPTY := Manifest(None, [], [], 0, 0, false)

  // ---------------------------------------------------------------------
  // Mutators

  function BaseName(filename: string, n: int, rdb: bool): string {
    filename + ("." + Show(n) + ".base" + if rdb then ".rdb" else ".aof")
  }

  function IncrName(filename: string, n: int): string { filename + ("." + Show(n) + ".incr" + ".aof") }

  function AsHistory(infos: seq<AofInfo>): seq<AofInfo> {
    seq(|infos|, i requires 0 <= i < |infos| => infos[i].(ftype := HIST))
  }

  function Bases(m: Manifest): seq<AofInfo> { if m.base.Some? then [m.base.value] else [] }

  function NewBase(m: Manifest, filename: string, rdb: bool): Manifest {
    var n := m.baseSeq + 1;
    m.(base := Some(AofInfo(BaseName(filename, n, rdb), n, BASE, -1, -1)),
       history := AsHistory(Bases(m)) + m.history, baseSeq := n, dirty := true)
  }

  function NewIncr(m: Manifest, filename: string, replOffset: int): Manifest {
    var n := m.incrSeq + 1;
    m.(incr := m.incr + [AofInfo(IncrName(filename, n), n, INCR, replOffset, -1)], incrSeq := n, dirty := true)
  }

  /** All INCR files, except the one being written if any, become history. */
  function MarkRewritten(m: Manifest, writing: bool): Manifest {
    if m.incr == [] then m
    else
      var n := if writing then |m.incr| - 1 else |m.incr|;
      m.(history := AsHistory(m.incr[..n]) + m.history, incr := m.incr[n..], dirty := true)
  }

  function DropHistory(m: Manifest, persisted: bool): Manifest {
    if m.history == [] then m else m.(history := [], dirty := !persisted)
  }

  function Names(infos: seq<AofInfo>): seq<string> {
    seq(|infos|, i requires 0 <= i < |infos| => infos[i].name)
  }

  function SetEndOffset(m: Manifest, offset: int): Manifest {
    if m.incr == [] then m
    else var k := |m.incr| - 1; m.(incr := m.incr[k := m.incr[k].(endOffset := offset)], dirty := true)
  }

  lemma NoHistory(none: seq<AofInfo>, history: seq<AofInfo>)
    requires none == []
    ensures AsHistory(none) + history == history
  {
  }

  lemma HistoryStep(all: seq<AofInfo>, n: nat, stop: nat)
    requires n < stop <= |all|
    ensures AsHistory(all[n..stop]) == [all[n].(ftype := HIST)] + AsHistory(all[n + 1..stop])
  {
  }

  lemma RemoveStep(all: seq<AofInfo>, n: nat, stop: nat)
    requires n < stop <= |all|
    ensures var incr := all[..n + 1] + all[stop..];
      incr[n] == all[n] && incr[..n] + incr[n + 1..] == all[..n] + all[stop..]
  {
    var incr := all[..n + 1] + all[stop..];
    assert incr[..n] == all[..n] && incr[n + 1..] == all[stop..];
  }

  class AofManifestObject {
    var base: Option<AofInfo>
    var history: seq<AofInfo>
    var incr: seq<AofInfo>
    var baseSeq: int
    var incrSeq: int
    var dirty: bool

    function View(): Manifest
      reads this
    {
      Manifest(base, history, incr, baseSeq, incrSeq, dirty)
    }

    /** `aofManifestCreate`. */
    constructor ()
      ensures View() == EMPTY
    {
      base, history, incr := None, [], [];
      baseSeq, incrSeq, dirty := 0, 0, false;
    }

    method GetNewBaseFileNameAndMarkPreAsHistory(filename: string, rdb: bool) returns (name: string)
      modifies this
      ensures View() == NewBase(old(View()), filename, rdb) && base.Some? && name == base.value.name
    {
      if base.Some? {
        var pre := base.value.(ftype := HIST);
        history := [pre] + history;
      } else {
        assert AsHistory([]) + history == history;
      }
      baseSeq := baseSeq + 1;
      name := BaseName(filename, baseSeq, rdb);
      base := Some(AofInfo(name, baseSeq, BASE, -1, -1));
      dirty := true;
    }

    method GetNewIncrAofName(filename: string, replOffset: int) returns (name: string)
      modifies this
      ensures View() == NewIncr(old(View()), filename, replOffset) && incr != [] && name == incr[|incr| - 1].name
    {
      incrSeq := incrSeq + 1;
      name := IncrName(filename, incrSeq);
      incr := incr + [AofInfo(name, incrSeq, INCR, replOffset, -1)];
      dirty := true;
    }

    method GetLastIncrAofName(filename: string, replOffset: int) returns (name: string)
      modifies this
      ensures View() == if old(incr) == [] then NewIncr(old(View()), filename, replOffset) else old(View())
      ensures incr != [] && name == incr[|incr| - 1].name
    {
      if |incr| == 0 {
        name := GetNewIncrAofName(filename, replOffset);
        return;
      }
      name := incr[|incr| - 1].name;
    }

    /** Walks the list from its tail, moving node after node to the head of the history. */
    method MarkRewrittenIncrAofAsHistory(writing: bool)
      modifies this
      ensures View() == MarkRewritten(old(View()), writing)
    {
      if |incr| == 0 { return; }
      var n := |incr|;
      if writing { n := n - 1; }
      hide AsHistory;
      ghost var all, stop := incr, n;
      assert all == all[..n] + all[n..];
      NoHistory(all[n..n], history);
      while n > 0
        modifies this`history, this`incr
        invariant 0 <= n <= stop <= |all| && incr == all[..n] + all[stop..]
        invariant history == AsHistory(all[n..stop]) + old(history)
      {
        n := n - 1;
        var hai := incr[n].(ftype := HIST);
        HistoryStep(all, n, stop);
        RemoveStep(all, n, stop);
        history := [hai] + history;
        incr := incr[..n] + incr[n + 1..];
      }
      assert all[0..stop] == all[..stop] && all[..0] + all[stop..] == all[stop..];
      dirty := true;
    }

    /** `aofDelHistoryFiles`: the files unlinked; `ok` if the manifest was persisted. */
    method AofDelHistoryFiles(disableAutoGc: bool, ok: bool) returns (unlinked: seq<string>)
      modifies this
      ensures View() == if disableAutoGc then old(View()) else DropHistory(old(View()), ok)
      ensures unlinked == if disableAutoGc then [] else Names(old(history))
    {
      unlinked := [];
      if disableAutoGc || |history| == 0 { return; }
      while |history| > 0
        modifies this`history
        invariant unlinked + Names(history) == Names(old(history))
      {
        unlinked := unlinked + [history[0].name];
        history := history[1..];
      }
      dirty := true;
      if ok { dirty := false; }
    }

    /** `updateCurIncrAofEndOffset`. */
    method UpdateCurIncrAofEndOffset(offset: int)
      modifies this
      ensures View() == SetEndOffset(old(View()), offset)
    {
      if |incr| == 0 { return; }
      var k := |incr| - 1;
      incr := incr[k := incr[k].(endOffset := offset)];
      dirty := true;
    }
  }

  // ---------------------------------------------------------------------
  // Printing

  function OffsetWords(ai: AofInfo): seq<string> {
    if ai.startOffset == -1 then []
    else if ai.endOffset == -1 then ["startoffset", Show(ai.startOffset)]
    else ["startoffset", Show(ai.startOffset)] + ["endoffset", Show(ai.endOffset)]
  }

  function Words(ai: AofInfo): seq<string> {
    ["file", ai.name] + (["seq", Show(ai.number)] + (["type", [ai.ftype]] + OffsetWords(ai)))
  }

  function Line(ai: AofInfo): string { Join(Words(ai)) + "\n" }

  function Lines(infos: seq<AofInfo>): string {
    if infos == [] then "" else Line(infos[0]) + Lines(infos[1..])
  }

  function Infos(m: Manifest): seq<AofInfo> { Bases(m) + m.history + m.incr }

  /** Digits and signs are printed as they are. */
  lemma ShownPlain(n: int)
    ensures Splittable(Show(n)) && !NeedsRepr(Show(n))
  {
  }

  lemma KeysPlain()
    ensures !NeedsRepr("file") && !NeedsRepr("seq") && !NeedsRepr("type")
    ensures !NeedsRepr("startoffset") && !NeedsRepr("endoffset")
  {
  }

  lemma JoinMore(w: string, ws: seq<string>)
    requires ws != []
    ensures Join([w] + ws) == Printed(w) + " " + Join(ws)
  {
    assert ([w] + ws)[1..] == ws;
  }

  lemma JoinTwo(a: string, b: string)
    ensures Join([a, b]) == Printed(a) + " " + Printed(b)
  {
    JoinMore(a, [b]);
    assert [a, b] == [a] + [b];
  }

  lemma JoinPair(a: string, b: string, ws: seq<string>)
    requires ws != []
    ensures Join([a, b] + ws) == Printed(a) + " " + Printed(b) + " " + Join(ws)
  {
    JoinMore(a, [b] + ws);
    JoinMore(b, ws);
    assert [a, b] + ws == [a] + ([b] + ws);
  }

  function OffsetText(ai: AofInfo): string {
    if ai.startOffset == -1 then ""
    else if ai.endOffset == -1 then " startoffset " + Show(ai.startOffset)
    else " startoffset " + Show(ai.startOffset) + (" endoffset " + Show(ai.endOffset))
  }

  lemma TypeText(ai: AofInfo)
    requires !Special(ai.ftype)
    ensures Join(["type", [ai.ftype]] + OffsetWords(ai)) == "type " + [ai.ftype] + OffsetText(ai)
  {
    KeysPlain();
    ShownPlain(ai.startOffset);
    ShownPlain(ai.endOffset);
    var ty, s, e := [ai.ftype], Show(ai.startOffset), Show(ai.endOffset);
    hide NeedsRepr, Repr, Join, Show;
    assert Printed(ty) == ty by { assert !Special(ty[0]); NotSpecial(ty); }
    JoinTwo("type", ty);
    JoinTwo("startoffset", s);
    JoinTwo("endoffset", e);
    if ai.startOffset == -1 {
      assert ["type", ty] + OffsetWords(ai) == ["type", ty];
    } else {
      JoinPair("type", ty, OffsetWords(ai));
      JoinPair("startoffset", s, ["endoffset", e]);
    }
  }

  lemma NotSpecial(s: string)
    requires forall i | 0 <= i < |s| :: !Special(s[i])
    ensures !NeedsRepr(s)
  {
  }

  lemma LineSpacing(name: string, number: string, ty: string, offsets: string)
    ensures "file" + " " + name + " " + ("seq" + " " + number + " " + ("type " + ty + offsets))
         == ("file " + name + " seq " + number + " type " + ty) + offsets
  {
    assert "file" + " " == "file ";
    assert " " + ("seq" + " ") == " seq ";
    assert " " + "type " == " type ";
    var a, b, c := "file ", " seq ", " type ";
    calc {
      "file" + " " + name + " " + ("seq" + " " + number + " " + ("type " + ty + offsets));
      a + name + " " + ("seq" + " " + number + " " + ("type " + ty + offsets));
      { assert " " + ("seq" + " " + number + " " + ("type " + ty + offsets)) == b + number + " " + ("type " + ty + offsets); }
      a + name + (b + number + " " + ("type " + ty + offsets));
      { assert " " + ("type " + ty + offsets) == c + ty + offsets; }
      a + name + (b + number + (c + ty + offsets));
      (a + name + b + number + c + ty) + offsets;
    }
  }

  /** The printf of `aofInfoFormat` prints the words of a line. */
  lemma LineText(ai: AofInfo)
    requires !Special(ai.ftype)
    ensures Line(ai) ==
      ("file " + Printed(ai.name) + " seq " + Show(ai.number) + " type " + [ai.ftype]) + OffsetText(ai) + "\n"
  {
    KeysPlain();
    ShownPlain(ai.number);
    TypeText(ai);
    hide NeedsRepr, Repr, Join, Show, OffsetWords, OffsetText;
    var tail := ["type", [ai.ftype]] + OffsetWords(ai);
    JoinPair("seq", Show(ai.number), tail);
    JoinPair("file", ai.name, ["seq", Show(ai.number)] + tail);
    LineSpacing(Printed(ai.name), Show(ai.number), [ai.ftype], OffsetText(ai));
  }

  /** `aofInfoFormat`. */
  method AofInfoFormat(buf: string, ai: AofInfo) returns (r: string)
    requires !Special(ai.ftype)
    ensures r == buf + Line(ai)
  {
    LineText(ai);
    hide Line, NeedsRepr, Repr, Show;
    var name := if NeedsRepr(ai.name) then Repr(ai.name) else ai.name;
    r := "file " + name + " seq " + Show(ai.number) + " type " + [ai.ftype];
    if ai.startOffset != -1 {
      var from := r;
      r := r + (" startoffset " + Show(ai.startOffset));
      if ai.endOffset != -1 {
        r := r + (" endoffset " + Show(ai.endOffset));
      }
      assert r == from + OffsetText(ai);
    }
    r := buf + (r + "\n");
  }

  lemma {:induction false} LinesAppend(a: seq<AofInfo>, b: seq<AofInfo>)
    ensures Lines(a + b) == Lines(a) + Lines(b)
  {
    hide Line;
    if a == [] {
      assert a + b == b;
    } else {
      assert (a + b)[1..] == a[1..] + b;
      LinesAppend(a[1..], b);
    }
  }

  predicate Typed(infos: seq<AofInfo>) { forall ai | ai in infos :: !Special(ai.ftype) }

  /** `appendAofInfoFromList`. */
  method AppendAofInfoFromList(buf: string, infos: seq<AofInfo>) returns (r: string)
    requires Typed(infos)
    ensures r == buf + Lines(infos)
  {
    hide Line;
    r := buf;
    assert infos[0..] == infos;
    for i := 0 to |infos|
      invariant r + Lines(infos[i..]) == buf + Lines(infos)
    {
      assert infos[i..][1..] == infos[i + 1..];
      r := AofInfoFormat(r, infos[i]);
    }
  }

  /** `getAofManifestAsString`. */
  method GetAofManifestAsString(m: Manifest) returns (r: string)
    requires Typed(Infos(m))
    ensures r == Lines(Infos(m))
  {
    hide Line, Lines;
    r := "";
    NoLines();
    if m.base.Some? {
      assert m.base.value in Infos(m);
      r := AofInfoFormat(r, m.base.value);
      OneLine(m.base.value);
    }
    assert forall ai | ai in m.history :: ai in Infos(m);
    assert forall ai | ai in m.incr :: ai in Infos(m);
    r := AppendAofInfoFromList(r, m.history);
    LinesAppend(Bases(m), m.history);
    r := AppendAofInfoFromList(r, m.incr);
    LinesAppend(Bases(m) + m.history, m.incr);
  }

  lemma NoLines()
    ensures Lines([]) == ""
  {
  }

  lemma OneLine(ai: AofInfo)
    ensures Lines([ai]) == Line(ai)
  {
    assert [ai][1..] == [];
    assert Line(ai) + "" == Line(ai);
  }

  // ---------------------------------------------------------------------
  // Loading

  datatype Error = EmptyManifest | TooLongLine | BadFormat | NotBaseName | DuplicateBase | NonMonotonic | UnknownType

  datatype Result<T> = Ok(value: T) | Fatal(error: Error)

  const MANIFEST_MAX_LINE := 1024

  /** What C sees of a string. */
  function CString(s: string): string { if End(s) then "" else [s[0]] + CString(s[1..]) }

  function TrimLeft(s: string): string { if s != "" && Stop(s[0]) then TrimLeft(s[1..]) else s }

  function TrimRight(s: string): string {
    if s != "" && Stop(s[|s| - 1]) then TrimRight(s[..|s| - 1]) else s
  }

  /** `sdstrim` of spaces, tabs and line ends. */
  function Trim(s: string): string { TrimRight(TrimLeft(s)) }

  predicate IsBaseName(s: string) { '/' !in s && '\\' !in s }

  /** `strcasecmp(word, key) == 0` for a lower-case key. */
  predicate IsKey(word: string, key: string) { AofLog.Lower(CString(word)) == key }

  /** An aofInfo while its line is read; all zero but the offsets. */
  datatype Partial = Partial(name: Option<string>, number: int, ftype: char, startOffset: int, endOffset: int)

  function FirstChar(s: string): char { if s == "" then '\0' else s[0] }

  function ReadPair(p: Partial, key: string, value: string): Result<Partial> {
    if IsKey(key, "file") then
      if IsBaseName(CString(value)) then Ok(p.(name := Some(CString(value)))) else Fatal(NotBaseName)
    else if IsKey(key, "seq") then Ok(p.(number := StrTol(value)))
    else if IsKey(key, "type") then Ok(p.(ftype := FirstChar(value)))
    else if IsKey(key, "startoffset") then Ok(p.(startOffset := StrTol(value)))
    else if IsKey(key, "endoffset") then Ok(p.(endOffset := StrTol(value)))
    else Ok(p)
  }

  function ReadPairs(argv: seq<string>, p: Partial): Result<Partial>
    requires |argv| % 2 == 0
    decreases |argv|
  {
    if argv == [] then Ok(p)
    else match ReadPair(p, argv[0], argv[1])
      case Fatal(e) => Fatal(e)
      case Ok(q) => ReadPairs(argv[2..], q)
  }

  const BLANK := Partial(None, 0, '\0', -1, -1)

  function ReadWords(argv: seq<string>): Result<AofInfo> {
    if |argv| < 6 || |argv| % 2 == 1 then Fatal(BadFormat)
    else match ReadPairs(argv, BLANK)
      case Fatal(e) => Fatal(e)
      case Ok(p) =>
        if p.name == None || p.number == 0 || p.ftype == '\0' then Fatal(BadFormat)
        else Ok(AofInfo(p.name.value, p.number, p.ftype, p.startOffset, p.endOffset))
  }

  function ReadLine(buf: string): Result<AofInfo> {
    var line := Trim(CString(buf));
    if '\n' !in CString(buf) then Fatal(TooLongLine)
    else if line == "" then Fatal(BadFormat)
    else match SplitArgs(line)
      case None => Fatal(BadFormat)
      case Some(argv) => ReadWords(argv)
  }

  function Add(m: Manifest, maxSeq: int, ai: AofInfo): Result<Manifest> {
    if ai.ftype == BASE then
      if m.base.Some? then Fatal(DuplicateBase) else Ok(m.(base := Some(ai), baseSeq := ai.number))
    else if ai.ftype == HIST then Ok(m.(history := m.history + [ai]))
    else if ai.ftype == INCR then
      if ai.number <= maxSeq then Fatal(NonMonotonic) else Ok(m.(incr := m.incr + [ai], incrSeq := ai.number))
    else Fatal(UnknownType)
  }

  function MaxAfter(maxSeq: int, ai: AofInfo): int { if ai.ftype == INCR then ai.number else maxSeq }

  function LoadLines(s: string, lines: nat, m: Manifest, maxSeq: int): Result<Manifest>
    decreases |s|
  {
    if s == "" then if lines == 0 then Fatal(EmptyManifest) else Ok(m)
    else
      var n := AofLog.LineLength(s, MANIFEST_MAX_LINE);
      if s[0] == '#' then LoadLines(s[n..], lines + 1, m, maxSeq)
      else match ReadLine(s[..n])
        case Fatal(e) => Fatal(e)
        case Ok(ai) =>
          match Add(m, maxSeq, ai)
          case Fatal(e) => Fatal(e)
          case Ok(m') => LoadLines(s[n..], lines + 1, m', MaxAfter(maxSeq, ai))
  }

  method LoadInfo(argv: seq<string>) returns (r: Result<AofInfo>)
    ensures r == ReadWords(argv)
  {
    hide ReadPair;
    if |argv| < 6 || |argv| % 2 == 1 { return Fatal(BadFormat); }
    var p := BLANK;
    var i := 0;
    assert argv[0..] == argv;
    while i < |argv|
      invariant 0 <= i <= |argv| && i % 2 == 0
      invariant ReadPairs(argv[i..], p) == ReadPairs(argv, BLANK)
    {
      assert argv[i..][2..] == argv[i + 2..];
      var q := ReadPair(p, argv[i], argv[i + 1]);
      if q.Fatal? { return Fatal(q.error); }
      p := q.value;
      i := i + 2;
    }
    if p.name == None || p.number == 0 || p.ftype == '\0' { return Fatal(BadFormat); }
    return Ok(AofInfo(p.name.value, p.number, p.ftype, p.startOffset, p.endOffset));
  }

  /** `aofLoadManifestFromFile`; a fatal error ends the process. */
  method AofLoadManifestFromFile(file: string) returns (r: Result<Manifest>)
    ensures r == LoadLines(file, 0, EMPTY, 0)
  {
    hide Trim, SplitArgs, ReadWords, CString, AofLog.LineLength;
    var m, maxSeq, pos, lines: nat := EMPTY, 0, 0, 0;
    assert file[0..] == file;
    while true
      invariant 0 <= pos <= |file|
      invariant LoadLines(file[pos..], lines, m, maxSeq) == LoadLines(file, 0, EMPTY, 0)
      decreases |file| - pos
    {
      if pos == |file| {
        if lines == 0 { return Fatal(EmptyManifest); }
        return Ok(m);
      }
      var n := AofLog.LineLength(file[pos..], MANIFEST_MAX_LINE);
      var buf := file[pos..pos + n];
      assert file[pos..][..n] == buf && file[pos..][n..] == file[pos + n..];
      lines, pos := lines + 1, pos + n;
      if buf[0] == '#' { continue; }
      if '\n' !in CString(buf) { return Fatal(TooLongLine); }
      var line := Trim(CString(buf));
      if |line| == 0 { return Fatal(BadFormat); }
      var argv := SplitArgs(line);
      if argv == None { return Fatal(BadFormat); }
      var ai := LoadInfo(argv.value);
      if ai.Fatal? { return Fatal(ai.error); }
      var added := Add(m, maxSeq, ai.value);
      if added.Fatal? { return Fatal(added.error); }
      m, maxSeq := added.value, MaxAfter(maxSeq, ai.value);
    }
  }

  // ---------------------------------------------------------------------
  // Loading undoes printing

  predicate AllPrint(s: string) { forall i | 0 <= i < |s| :: IsPrint(s[i]) }

  lemma {:induction false} EscapedPrint(s: string)
    ensures AllPrint(EscapeAll(s))
  {
    if s != "" {
      assert AllPrint(Escape(s[0]));
      hide Escape;
      EscapedPrint(s[1..]);
    }
  }

  lemma PrintedPrint(w: string)
    ensures AllPrint(Printed(w))
  {
    if NeedsRepr(w) {
      hide EscapeAll;
      EscapedPrint(w);
    } else {
      assert forall i | 0 <= i < |w| :: !Special(w[i]);
    }
  }

  lemma {:induction false} JoinPrint(ws: seq<string>)
    ensures AllPrint(Join(ws))
  {
    hide Printed;
    if ws != [] {
      PrintedPrint(ws[0]);
      JoinPrint(ws[1..]);
    }
  }

  lemma {:induction false} JoinEnds(ws: seq<string>)
    requires ws != [] && forall i | 0 <= i < |ws| :: ws[i] != ""
    ensures var j := Join(ws); j != "" && !Stop(j[0]) && !Stop(j[|j| - 1])
  {
    PrintedEnds(ws[0]);
    hide Printed;
    if |ws| > 1 {
      JoinEnds(ws[1..]);
    }
  }

  lemma {:induction false} CStringAll(s: string)
    requires '\0' !in s
    ensures CString(s) == s
  {
    if s != "" {
      assert s[0] in s;
      CStringAll(s[1..]);
    }
  }

  lemma TrimLine(s: string)
    requires s != "" && !Stop(s[0]) && !Stop(s[|s| - 1])
    ensures Trim(s + "\n") == s
  {
    var line := s + "\n";
    assert line[0] == s[0];
    assert TrimLeft(line) == line;
    assert line[|line| - 1] == '\n' && line[..|line| - 1] == s;
    assert TrimRight(s) == s;
  }

  predicate Readable(ai: AofInfo) {
    && Splittable(ai.name) && '\0' !in ai.name && IsBaseName(ai.name)
    && ai.number != 0 && ai.ftype in {BASE, HIST, INCR}
    && (ai.startOffset == -1 ==> ai.endOffset == -1)
  }

  lemma OwnKey(k: string)
    requires forall i | 0 <= i < |k| :: 'a' <= k[i] <= 'z'
    ensures IsKey(k, k)
  {
    CStringAll(k);
    hide CString;
    assert AofLog.Lower(k) == k;
  }

  lemma KeyWords()
    ensures IsKey("file", "file") && IsKey("seq", "seq") && IsKey("type", "type")
    ensures IsKey("startoffset", "startoffset") && IsKey("endoffset", "endoffset")
  {
    hide *;
    OwnKey("file");
    OwnKey("seq");
    OwnKey("type");
    OwnKey("startoffset");
    OwnKey("endoffset");
  }

  /** A word is at most one key. */
  lemma OneKey(w: string, k: string, other: string)
    requires IsKey(w, k) && k != other
    ensures !IsKey(w, other)
  {
  }

  lemma PairFile(p: Partial, name: string)
    requires '\0' !in name && IsBaseName(name)
    ensures ReadPair(p, "file", name) == Ok(p.(name := Some(name)))
  {
    KeyWords();
    CStringAll(name);
    hide IsKey, CString;
  }

  lemma PairSeq(p: Partial, n: int)
    ensures ReadPair(p, "seq", Show(n)) == Ok(p.(number := n))
  {
    KeyWords();
    OneKey("seq", "seq", "file");
    ReadBack(n);
    hide IsKey, Show, StrTol;
  }

  lemma PairType(p: Partial, c: char)
    ensures ReadPair(p, "type", [c]) == Ok(p.(ftype := c))
  {
    KeyWords();
    OneKey("type", "type", "file");
    OneKey("type", "type", "seq");
    hide IsKey;
  }

  lemma PairStart(p: Partial, n: int)
    ensures ReadPair(p, "startoffset", Show(n)) == Ok(p.(startOffset := n))
  {
    var k := "startoffset";
    KeyWords();
    OneKey(k, k, "file");
    OneKey(k, k, "seq");
    OneKey(k, k, "type");
    ReadBack(n);
    hide IsKey, Show, StrTol;
  }

  lemma PairEnd(p: Partial, n: int)
    ensures ReadPair(p, "endoffset", Show(n)) == Ok(p.(endOffset := n))
  {
    var k := "endoffset";
    KeyWords();
    OneKey(k, k, "file");
    OneKey(k, k, "seq");
    OneKey(k, k, "type");
    OneKey(k, k, "startoffset");
    ReadBack(n);
    hide IsKey, Show, StrTol;
  }

  lemma ReadBack(n: int)
    ensures StrTol(Show(n)) == n
  {
    ParseShow(n, "");
    assert Show(n) + "" == Show(n);
  }

  lemma PairsStep(p: Partial, key: string, value: string, rest: seq<string>)
    requires |rest| % 2 == 0 && ReadPair(p, key, value).Ok?
    ensures ReadPairs([key, value] + rest, p) == ReadPairs(rest, ReadPair(p, key, value).value)
  {
    hide ReadPair;
    assert ([key, value] + rest)[2..] == rest;
  }

  lemma ReadOffsets(ai: AofInfo, p: Partial)
    requires p.startOffset == p.endOffset == -1 && (ai.startOffset == -1 ==> ai.endOffset == -1)
    ensures |OffsetWords(ai)| % 2 == 0
    ensures ReadPairs(OffsetWords(ai), p) == Ok(p.(startOffset := ai.startOffset, endOffset := ai.endOffset))
  {
    hide ReadPair, Show;
    if ai.startOffset != -1 {
      var q := p.(startOffset := ai.startOffset);
      PairStart(p, ai.startOffset);
      PairEnd(q, ai.endOffset);
      var end := ["endoffset", Show(ai.endOffset)];
      if ai.endOffset == -1 {
        PairsStep(p, "startoffset", Show(ai.startOffset), []);
        assert OffsetWords(ai) == ["startoffset", Show(ai.startOffset)] + [];
      } else {
        PairsStep(p, "startoffset", Show(ai.startOffset), end);
        PairsStep(q, "endoffset", Show(ai.endOffset), []);
        assert end + [] == end;
      }
    }
  }

  lemma ThreePairs(k1: string, v1: string, k2: string, v2: string, k3: string, v3: string, rest: seq<string>,
                   p0: Partial, p1: Partial, p2: Partial, p3: Partial)
    requires |rest| % 2 == 0 && ReadPair(p0, k1, v1) == Ok(p1)
    requires ReadPair(p1, k2, v2) == Ok(p2) && ReadPair(p2, k3, v3) == Ok(p3)
    ensures ReadPairs([k1, v1] + ([k2, v2] + ([k3, v3] + rest)), p0) == ReadPairs(rest, p3)
  {
    hide *;
    PairsStep(p0, k1, v1, [k2, v2] + ([k3, v3] + rest));
    PairsStep(p1, k2, v2, [k3, v3] + rest);
    PairsStep(p2, k3, v3, rest);
  }

  lemma ReadWordsOf(ai: AofInfo)
    requires Readable(ai)
    ensures ReadWords(Words(ai)) == Ok(ai)
  {
    hide Show, Splittable, ReadPairs, ReadPair, OffsetWords, IsKey, CString;
    var p1 := Partial(Some(ai.name), 0, '\0', -1, -1);
    var p2 := p1.(number := ai.number);
    var p3 := p2.(ftype := ai.ftype);
    PairFile(BLANK, ai.name);
    PairSeq(p1, ai.number);
    PairType(p2, ai.ftype);
    ReadOffsets(ai, p3);
    ThreePairs("file", ai.name, "seq", Show(ai.number), "type", [ai.ftype], OffsetWords(ai), BLANK, p1, p2, p3);
  }

  lemma WordsSplittable(ai: AofInfo)
    requires Readable(ai)
    ensures forall w | w in Words(ai) :: Splittable(w)
  {
    ShownPlain(ai.number);
    ShownPlain(ai.startOffset);
    ShownPlain(ai.endOffset);
    KeysPlain();
    assert Splittable("file") && Splittable("seq") && Splittable("type") && Splittable("startoffset") && Splittable("endoffset");
    assert Splittable([ai.ftype]);
    hide Splittable, Show, NeedsRepr;
  }

  /** One printed line is read back. */
  lemma ReadLineOf(ai: AofInfo)
    requires Readable(ai)
    ensures ReadLine(Line(ai)) == Ok(ai)
  {
    var ws := Words(ai);
    WordsSplittable(ai);
    assert forall i | 0 <= i < |ws| :: ws[i] != "" by { hide Words; assert forall i | 0 <= i < |ws| :: ws[i] in ws; }
    JoinPrint(ws);
    JoinEnds(ws);
    SplitJoin(ws);
    ReadWordsOf(ai);
    hide Join, Words, ReadWords, SplitArgs, Readable, Splittable;
    ReadJoined(Join(ws));
    hide ReadLine;
  }

  /** Reading a line without trailing blanks splits it. */
  lemma ReadJoined(j: string)
    requires AllPrint(j) && j != "" && !Stop(j[0]) && !Stop(j[|j| - 1])
    ensures ReadLine(j + "\n") == if SplitArgs(j).None? then Fatal(BadFormat) else ReadWords(SplitArgs(j).value)
  {
    hide ReadWords, SplitArgs;
    assert '\0' !in j + "\n";
    CStringAll(j + "\n");
    TrimLine(j);
    assert (j + "\n")[|j|] == '\n';
    hide Trim, CString;
  }

  function AddAll(m: Manifest, maxSeq: int, infos: seq<AofInfo>): Result<Manifest>
    decreases |infos|
  {
    if infos == [] then Ok(m)
    else match Add(m, maxSeq, infos[0])
      case Fatal(e) => Fatal(e)
      case Ok(m') => AddAll(m', MaxAfter(maxSeq, infos[0]), infos[1..])
  }

  predicate Printable(infos: seq<AofInfo>) {
    forall i | 0 <= i < |infos| :: Readable(infos[i]) && |Line(infos[i])| <= MANIFEST_MAX_LINE
  }

  lemma FirstLine(ai: AofInfo, rest: string)
    requires !Special(ai.ftype) && |Line(ai)| <= MANIFEST_MAX_LINE
    ensures AofLog.LineLength(Line(ai) + rest, MANIFEST_MAX_LINE) == |Line(ai)|
    ensures Line(ai) != "" && (Line(ai) + rest)[0] != '#'
  {
    JoinPrint(Words(ai));
    assert Line(ai)[0] == 'f' by { LineText(ai); hide Line, Show; }
    hide Join, Words;
    var j := Join(Words(ai));
    AofLog.LineOf(j, rest, MANIFEST_MAX_LINE);
    assert Line(ai) + rest == j + "\n" + rest;
  }

  /** The loader reads printed lines one by one. */
  lemma {:induction false} LoadInfos(infos: seq<AofInfo>, lines: nat, m: Manifest, maxSeq: int)
    requires Printable(infos) && (infos != [] || lines > 0)
    ensures LoadLines(Lines(infos), lines, m, maxSeq) == AddAll(m, maxSeq, infos)
    decreases |infos|
  {
    hide Line, ReadLine, Add;
    if infos != [] {
      var ai, rest := infos[0], Lines(infos[1..]);
      assert Readable(ai) && !Special(ai.ftype);
      hide Readable;
      FirstLine(ai, rest);
      ReadLineOf(ai);
      assert Lines(infos)[..|Line(ai)|] == Line(ai) && Lines(infos)[|Line(ai)|..] == rest;
      var added := Add(m, maxSeq, ai);
      if added.Ok? {
        LoadInfos(infos[1..], lines + 1, added.value, MaxAfter(maxSeq, ai));
      }
    }
  }

  // ---------------------------------------------------------------------
  // What the mutators keep

  predicate Tame(s: string) {
    forall i | 0 <= i < |s| :: IsDigit(s[i]) || 'a' <= s[i] <= 'z' || s[i] == '.' || s[i] == '-'
  }

  /** A name made from the configured file name. */
  predicate Named(filename: string, name: string) {
    |filename| < |name| && name[..|filename|] == filename && Tame(name[|filename|..])
  }

  predicate Entry(filename: string, ai: AofInfo, ftype: char) {
    Named(filename, ai.name) && ai.ftype == ftype && ai.number >= 1 && (ai.startOffset == -1 ==> ai.endOffset == -1)
  }

  predicate Increasing(infos: seq<AofInfo>) { forall i, j | 0 <= i < j < |infos| :: infos[i].number < infos[j].number }

  predicate WellFormed(m: Manifest, filename: string) {
    && (m.base.Some? ==> Entry(filename, m.base.value, BASE) && m.base.value.number == m.baseSeq)
    && (forall i | 0 <= i < |m.history| :: Entry(filename, m.history[i], HIST))
    && (forall i | 0 <= i < |m.incr| :: Entry(filename, m.incr[i], INCR) && m.incr[i].number <= m.incrSeq && m.incr[i].startOffset != -1)
    && Increasing(m.incr) && m.baseSeq >= 0 && m.incrSeq >= 0
  }

  datatype Change =
    | AddBase(rdb: bool)
    | AddIncr(replOffset: nat)
    | MarkHistory(writing: bool)
    | DeleteHistory(persisted: bool)
    | EndIncr(replOffset: nat)

  function Changed(m: Manifest, filename: string, c: Change): Manifest {
    match c
    case AddBase(rdb) => NewBase(m, filename, rdb)
    case AddIncr(off) => NewIncr(m, filename, off)
    case MarkHistory(writing) => MarkRewritten(m, writing)
    case DeleteHistory(ok) => DropHistory(m, ok)
    case EndIncr(off) => SetEndOffset(m, off)
  }

  /** The manifest after a sequence of changes to an empty one. */
  function Built(filename: string, changes: seq<Change>): Manifest {
    if changes == [] then EMPTY
    else Changed(Built(filename, changes[..|changes| - 1]), filename, changes[|changes| - 1])
  }

  lemma NamesNamed(filename: string, n: int, rdb: bool)
    ensures Named(filename, BaseName(filename, n, rdb)) && Named(filename, IncrName(filename, n))
  {
    assert Tame(Show(n));
    hide Show;
    var b, i := "." + Show(n) + ".base" + (if rdb then ".rdb" else ".aof"), "." + Show(n) + ".incr" + ".aof";
    assert Tame(b) && Tame(i);
    assert BaseName(filename, n, rdb)[|filename|..] == b && IncrName(filename, n)[|filename|..] == i;
  }

  lemma ChangeKeeps(m: Manifest, filename: string, c: Change)
    requires WellFormed(m, filename)
    ensures WellFormed(Changed(m, filename, c), filename)
  {
    NamesNamed(filename, m.baseSeq + 1, c.AddBase? && c.rdb);
    NamesNamed(filename, m.incrSeq + 1, false);
    hide Named, BaseName, IncrName;
  }

  /** Whatever is done to a manifest, its INCR sequence numbers are positive and strictly
      increasing, and its entries carry their types and names. */
  lemma {:induction false} BuiltWellFormed(filename: string, changes: seq<Change>)
    ensures WellFormed(Built(filename, changes), filename)
  {
    hide Changed, WellFormed;
    if changes == [] {
      EmptyWellFormed(filename);
    } else {
      BuiltWellFormed(filename, changes[..|changes| - 1]);
      ChangeKeeps(Built(filename, changes[..|changes| - 1]), filename, changes[|changes| - 1]);
    }
  }

  lemma EmptyWellFormed(filename: string)
    ensures WellFormed(EMPTY, filename)
  {
  }

  // ---------------------------------------------------------------------
  // The round trip

  function LastNumber(infos: seq<AofInfo>): int { if infos == [] then 0 else infos[|infos| - 1].number }

  /** The same lists; the sequence counters are those of the last files listed. */
  function Reloaded(m: Manifest): Manifest {
    Manifest(m.base, m.history, m.incr, if m.base.Some? then m.base.value.number else 0, LastNumber(m.incr), false)
  }

  lemma {:induction false} AddHistory(m: Manifest, maxSeq: int, infos: seq<AofInfo>, rest: seq<AofInfo>)
    requires forall i | 0 <= i < |infos| :: infos[i].ftype == HIST
    ensures AddAll(m, maxSeq, infos + rest) == AddAll(m.(history := m.history + infos), maxSeq, rest)
    decreases |infos|
  {
    if infos == [] {
      assert infos + rest == rest && m.history + infos == m.history;
    } else {
      assert (infos + rest)[1..] == infos[1..] + rest;
      var m' := m.(history := m.history + [infos[0]]);
      AddHistory(m', maxSeq, infos[1..], rest);
      assert m'.history + infos[1..] == m.history + infos;
    }
  }

  lemma {:induction false} AddIncrs(m: Manifest, maxSeq: int, infos: seq<AofInfo>)
    requires forall i | 0 <= i < |infos| :: infos[i].ftype == INCR && infos[i].number > maxSeq
    requires Increasing(infos)
    ensures AddAll(m, maxSeq, infos)
         == Ok(m.(incr := m.incr + infos, incrSeq := if infos == [] then m.incrSeq else LastNumber(infos)))
    decreases |infos|
  {
    if infos == [] {
      assert m.incr + infos == m.incr;
    } else {
      var m' := m.(incr := m.incr + [infos[0]], incrSeq := infos[0].number);
      AddIncrs(m', infos[0].number, infos[1..]);
      assert m'.incr + infos[1..] == m.incr + infos;
    }
  }

  function OnlyBase(m: Manifest): Manifest {
    if m.base.Some? then EMPTY.(base := m.base, baseSeq := m.base.value.number) else EMPTY
  }

  lemma AddBases(m: Manifest)
    requires m.base.Some? ==> m.base.value.ftype == BASE
    ensures AddAll(EMPTY, 0, Infos(m)) == AddAll(OnlyBase(m), 0, m.history + m.incr)
  {
    if m.base.Some? {
      assert Infos(m)[0] == m.base.value && Infos(m)[1..] == m.history + m.incr;
    } else {
      assert Infos(m) == m.history + m.incr;
    }
  }

  lemma AddInfos(m: Manifest, filename: string)
    requires WellFormed(m, filename)
    ensures AddAll(EMPTY, 0, Infos(m)) == Ok(Reloaded(m))
  {
    hide Named, AddAll, Infos;
    AddBases(m);
    var m1 := OnlyBase(m);
    AddHistory(m1, 0, m.history, m.incr);
    assert m1.history + m.history == m.history;
    var m2 := m1.(history := m.history);
    AddIncrs(m2, 0, m.incr);
    assert m2.incr + m.incr == m.incr;
  }

  /** What the configuration accepts as a file name. */
  predicate ValidFilename(filename: string) { Bytes(filename) && '\0' !in filename && IsBaseName(filename) }

  predicate WithinLimit(infos: seq<AofInfo>) { forall i | 0 <= i < |infos| :: |Line(infos[i])| <= MANIFEST_MAX_LINE }

  /** The name survives: either it is quoted, or it holds no single quote. */
  predicate Survives(filename: string) { NeedsRepr(filename) || '\'' !in filename }

  lemma NamedReadable(filename: string, name: string)
    requires ValidFilename(filename) && Named(filename, name)
    ensures Bytes(name) && '\0' !in name && IsBaseName(name) && name != ""
    ensures NeedsRepr(filename) <==> NeedsRepr(name)
    ensures '\'' in filename <==> '\'' in name
  {
    var tail := name[|filename|..];
    assert name == filename + tail;
    assert forall i | 0 <= i < |tail| :: !Special(tail[i]) && tail[i] !in "/\\'\0";
    if NeedsRepr(filename) {
      var i :| 0 <= i < |filename| && Special(filename[i]);
      assert Special(name[i]);
    }
    if !NeedsRepr(filename) {
      forall i | 0 <= i < |name|
        ensures !Special(name[i])
      {
        assert name[i] == if i < |filename| then filename[i] else tail[i - |filename|];
      }
    }
  }

  lemma EntryReadable(filename: string, ai: AofInfo, ftype: char)
    requires ValidFilename(filename) && Survives(filename) && Entry(filename, ai, ftype) && ftype in {BASE, HIST, INCR}
    ensures Readable(ai)
  {
    NamedReadable(filename, ai.name);
    hide NeedsRepr, Bytes, Named;
  }

  lemma InfosReadable(m: Manifest, filename: string)
    requires WellFormed(m, filename) && ValidFilename(filename) && Survives(filename)
    ensures forall i | 0 <= i < |Infos(m)| :: Readable(Infos(m)[i])
  {
    hide Readable, Entry, ValidFilename, Survives;
    forall i | 0 <= i < |Infos(m)|
      ensures Readable(Infos(m)[i])
    {
      var b, h := |Bases(m)|, |m.history|;
      var ai := Infos(m)[i];
      if i < b {
        EntryReadable(filename, ai, BASE);
      } else if i < b + h {
        assert ai == m.history[i - b];
        EntryReadable(filename, ai, HIST);
      } else {
        assert ai == m.incr[i - b - h];
        EntryReadable(filename, ai, INCR);
      }
    }
  }

  /** A manifest with a surviving name and lines within the limit is read back. */
  lemma Loads(m: Manifest, filename: string)
    requires WellFormed(m, filename) && ValidFilename(filename) && Survives(filename)
    requires Infos(m) != [] && WithinLimit(Infos(m))
    ensures LoadLines(Lines(Infos(m)), 0, EMPTY, 0) == Ok(Reloaded(m))
  {
    InfosReadable(m, filename);
    hide Readable, Line, Infos, Lines, WellFormed, ValidFilename, Survives, AddAll, LoadLines;
    LoadInfos(Infos(m), 0, EMPTY, 0);
    AddInfos(m, filename);
  }

  // ---------------------------------------------------------------------
  // When the printed text is refused

  lemma {:induction false} LineIsFull(s: string, room: nat)
    requires |s| >= room && forall i | 0 <= i < room :: s[i] != '\n'
    ensures AofLog.LineLength(s, room) == room
  {
    if room > 0 {
      LineIsFull(s[1..], room - 1);
    }
  }

  /** A line beyond the limit is refused. */
  lemma TooLong(ai: AofInfo, rest: string, lines: nat, m: Manifest, maxSeq: int)
    requires !Special(ai.ftype) && |Line(ai)| > MANIFEST_MAX_LINE
    ensures LoadLines(Line(ai) + rest, lines, m, maxSeq) == Fatal(TooLongLine)
  {
    JoinPrint(Words(ai));
    assert Line(ai)[0] == 'f' by { LineText(ai); hide Line, Show; }
    hide Join, Words, AofLog.LineLength;
    var s, buf := Line(ai) + rest, Line(ai)[..MANIFEST_MAX_LINE];
    assert AllPrint(buf);
    LineIsFull(s, MANIFEST_MAX_LINE);
    assert s[..MANIFEST_MAX_LINE] == buf && s[0] == 'f';
    CStringAll(buf);
    hide Trim, CString, Line, SplitArgs, ReadWords;
    assert ReadLine(buf) == Fatal(TooLongLine);
  }

  lemma {:induction false} JoinQuoteless(ws: seq<string>)
    requires forall w | w in ws :: !NeedsRepr(w) && '\'' !in w
    ensures '\'' !in Join(ws)
  {
    hide NeedsRepr;
    if ws != [] {
      assert ws[0] in ws;
      JoinQuoteless(ws[1..]);
    }
  }

  /** The words behind the name. */
  function MoreWords(ai: AofInfo): seq<string> { ["seq", Show(ai.number)] + (["type", [ai.ftype]] + OffsetWords(ai)) }

  lemma ShownQuoteless(n: int)
    ensures '\'' !in Show(n)
  {
  }

  lemma MoreQuoteless(ai: AofInfo)
    requires ai.ftype in {BASE, HIST, INCR}
    ensures '\'' !in Join(MoreWords(ai))
  {
    KeysPlain();
    ShownPlain(ai.number);
    ShownPlain(ai.startOffset);
    ShownPlain(ai.endOffset);
    ShownQuoteless(ai.number);
    ShownQuoteless(ai.startOffset);
    ShownQuoteless(ai.endOffset);
    NotSpecial([ai.ftype]);
    hide NeedsRepr, Show, Join;
    JoinQuoteless(MoreWords(ai));
  }

  /** The name of an entry holds a bare single quote. */
  predicate QuotedBare(ai: AofInfo) {
    && ai.ftype in {BASE, HIST, INCR} && ai.name != ""
    && !NeedsRepr(ai.name) && '\'' in ai.name && ai.name[|ai.name| - 1] != '\''
  }

  lemma SplitFails(w: string, s: string)
    requires !NeedsRepr(w) && w != "" && '\'' !in w
    requires s != "" && !IsSpace(s[0]) && s[0] != '\0' && Token(s, Bare, "") == None
    ensures SplitArgs(w + (" " + s)) == None
  {
    assert !Special(w[0]);
    TokenBare(w, "", " " + s);
    assert (" " + s)[1..] == s && "" + w == w;
    hide Token, NeedsRepr;
    assert SkipBlanks(w + (" " + s)) == w + (" " + s);
    assert SkipBlanks(s) == s;
  }

  lemma SecondWordFails(key: string, name: string, more: string)
    requires !NeedsRepr(key) && key != "" && '\'' !in key
    requires name != "" && !NeedsRepr(name) && '\'' in name && name[|name| - 1] != '\'' && '\'' !in more
    ensures SplitArgs(key + " " + name + " " + more) == None
  {
    QuoteInside(name, " " + more, Bare, "");
    var s := name + (" " + more);
    assert !Special(name[0]);
    hide SplitArgs, NeedsRepr, Token;
    SplitFails(key, s);
    assert key + " " + name + " " + more == key + (" " + s);
  }

  lemma NameUnsplittable(ai: AofInfo)
    requires QuotedBare(ai)
    ensures SplitArgs(Join(Words(ai))) == None
  {
    MoreQuoteless(ai);
    KeysPlain();
    hide Join, Show, OffsetWords, NeedsRepr, SplitArgs;
    var key := "file";
    JoinPair(key, ai.name, MoreWords(ai));
    SecondWordFails(key, ai.name, Join(MoreWords(ai)));
  }

  lemma ReadBareQuote(ai: AofInfo)
    requires QuotedBare(ai)
    ensures ReadLine(Line(ai)) == Fatal(BadFormat)
  {
    NameUnsplittable(ai);
    JoinPrint(Words(ai));
    assert forall i | 0 <= i < |Words(ai)| :: Words(ai)[i] != "" by { hide NeedsRepr; }
    JoinEnds(Words(ai));
    hide Join, Words, SplitArgs, ReadWords, QuotedBare;
    ReadJoined(Join(Words(ai)));
    hide ReadLine;
  }

  /** A line whose name holds a bare single quote is refused. */
  lemma BareQuote(ai: AofInfo, rest: string, lines: nat, m: Manifest, maxSeq: int)
    requires QuotedBare(ai) && |Line(ai)| <= MANIFEST_MAX_LINE
    ensures LoadLines(Line(ai) + rest, lines, m, maxSeq) == Fatal(BadFormat)
  {
    assert !Special(ai.ftype);
    ReadBareQuote(ai);
    hide QuotedBare, Line, ReadLine, AofLog.LineLength;
    FirstLine(ai, rest);
    assert (Line(ai) + rest)[..|Line(ai)|] == Line(ai);
  }

  /** Behind readable lines, one beyond the limit is refused as well. */
  lemma {:induction false} LongLineRefused(infos: seq<AofInfo>, lines: nat, m: Manifest, maxSeq: int)
    requires (forall i | 0 <= i < |infos| :: Readable(infos[i])) && !WithinLimit(infos)
    ensures LoadLines(Lines(infos), lines, m, maxSeq).Fatal?
    decreases |infos|
  {
    hide Line, ReadLine, Add;
    var ai, rest := infos[0], Lines(infos[1..]);
    assert !Special(ai.ftype);
    if |Line(ai)| > MANIFEST_MAX_LINE {
      TooLong(ai, rest, lines, m, maxSeq);
      hide LoadLines;
    } else {
      FirstLine(ai, rest);
      ReadLineOf(ai);
      hide Readable;
      assert Lines(infos)[..|Line(ai)|] == Line(ai) && Lines(infos)[|Line(ai)|..] == rest;
      assert !WithinLimit(infos[1..]) by {
        var i :| 0 <= i < |infos| && |Line(infos[i])| > MANIFEST_MAX_LINE;
        assert infos[1..][i - 1] == infos[i];
      }
      var added := Add(m, maxSeq, ai);
      if added.Ok? {
        LongLineRefused(infos[1..], lines + 1, added.value, MaxAfter(maxSeq, ai));
      }
    }
  }

  lemma InfosNamed(m: Manifest, filename: string, i: nat)
    requires WellFormed(m, filename) && i < |Infos(m)|
    ensures Named(filename, Infos(m)[i].name) && Infos(m)[i].ftype in {BASE, HIST, INCR}
  {
    hide Named;
    var b, h := |Bases(m)|, |m.history|;
    var ai := Infos(m)[i];
    assert b <= i < b + h ==> ai == m.history[i - b];
    assert b + h <= i ==> ai == m.incr[i - b - h];
  }

  /** With a single quote in a name that is printed bare, the loader refuses the first
      line. */
  lemma DoesNotLoad(m: Manifest, filename: string)
    requires WellFormed(m, filename) && ValidFilename(filename) && !Survives(filename) && Infos(m) != []
    ensures LoadLines(Lines(Infos(m)), 0, EMPTY, 0)
         == Fatal(if |Line(Infos(m)[0])| > MANIFEST_MAX_LINE then TooLongLine else BadFormat)
  {
    var ai := Infos(m)[0];
    InfosNamed(m, filename, 0);
    NamedReadable(filename, ai.name);
    NameEnds(filename, ai.name);
    hide WellFormed, Named, NeedsRepr, ValidFilename, LoadLines, Line, Infos;
    if |Line(ai)| > MANIFEST_MAX_LINE {
      TooLong(ai, Lines(Infos(m)[1..]), 0, EMPTY, 0);
    } else {
      BareQuote(ai, Lines(Infos(m)[1..]), 0, EMPTY, 0);
    }
  }

  lemma NameEnds(filename: string, name: string)
    requires Named(filename, name)
    ensures name != "" && name[|name| - 1] != '\''
  {
    var tail := name[|filename|..];
    assert name[|name| - 1] == tail[|tail| - 1];
  }

  /** The printed text of a manifest is read back as the same lists if the name survives
      and no line is beyond the limit, and is refused otherwise. */
  lemma LoadsExactly(m: Manifest, filename: string)
    requires WellFormed(m, filename) && ValidFilename(filename) && Infos(m) != []
    ensures var r := LoadLines(Lines(Infos(m)), 0, EMPTY, 0);
      if Survives(filename) && WithinLimit(Infos(m)) then r == Ok(Reloaded(m)) else r.Fatal?
  {
    hide WellFormed, Infos, Lines, LoadLines, Reloaded, ValidFilename, Survives;
    if !Survives(filename) {
      hide WithinLimit;
      DoesNotLoad(m, filename);
    } else if WithinLimit(Infos(m)) {
      Loads(m, filename);
    } else {
      InfosReadable(m, filename);
      hide Readable, WithinLimit;
      LongLineRefused(Infos(m), 0, EMPTY, 0);
    }
  }

  /** A non-empty manifest built by the mutators is read back as the same lists with the
      same offsets exactly when the configured file name is printed in quotes or holds no
      single quote, and every printed line is within the limit; otherwise the loader
      refuses it. */
  lemma RoundTrip(filename: string, changes: seq<Change>)
    requires ValidFilename(filename) && Infos(Built(filename, changes)) != []
    ensures var m := Built(filename, changes); var r := LoadLines(Lines(Infos(m)), 0, EMPTY, 0);
      && (r == Ok(Reloaded(m)) <==> (NeedsRepr(filename) || '\'' !in filename) && WithinLimit(Infos(m)))
      && (r.Ok? ==> r == Ok(Reloaded(m)))
  {
    hide WellFormed, Built, Infos, Lines, LoadLines, Reloaded, WithinLimit, ValidFilename, NeedsRepr;
    BuiltWellFormed(filename, changes);
    LoadsExactly(Built(filename, changes), filename);
  }

  lemma ShortLine(ai: AofInfo)
    requires !Special(ai.ftype) && !NeedsRepr(ai.name) && |ai.name| <= 100
    requires |Show(ai.number)| <= 20 && |Show(ai.startOffset)| <= 20 && |Show(ai.endOffset)| <= 20
    ensures |Line(ai)| <= MANIFEST_MAX_LINE
  {
    LineText(ai);
    hide Line, Show, NeedsRepr;
  }

  lemma QuotedName()
    ensures ValidFilename("it's") && !NeedsRepr("it's") && '\'' in "it's"
  {
    assert "it's"[2] == '\'';
  }

  lemma QuotedNameRefused(filename: string)
    requires |filename| == 4 && ValidFilename(filename) && !NeedsRepr(filename) && '\'' in filename
    ensures var m := Built(filename, [AddBase(true), AddIncr(0)]);
      WithinLimit(Infos(m)) && LoadLines(Lines(Infos(m)), 0, EMPTY, 0) == Fatal(BadFormat)
  {
    hide Built, NeedsRepr, ValidFilename, WellFormed, Line, Lines, LoadLines, Infos, BaseName, IncrName;
    BuiltWellFormed(filename, [AddBase(true), AddIncr(0)]);
    ExampleInfos(filename);
    ExampleShort(filename);
    DoesNotLoad(Built(filename, [AddBase(true), AddIncr(0)]), filename);
  }

  /** A file name the configuration accepts and a short manifest that is refused. */
  lemma QuoteExample()
    ensures var m := Built("it's", [AddBase(true), AddIncr(0)]);
      && ValidFilename("it's") && WithinLimit(Infos(m))
      && LoadLines(Lines(Infos(m)), 0, EMPTY, 0) == Fatal(BadFormat)
  {
    hide *;
    QuotedName();
    QuotedNameRefused("it's");
  }

  lemma ExampleInfos(filename: string)
    ensures Infos(Built(filename, [AddBase(true), AddIncr(0)]))
         == [AofInfo(BaseName(filename, 1, true), 1, BASE, -1, -1), AofInfo(IncrName(filename, 1), 1, INCR, 0, -1)]
  {
    hide BaseName, IncrName;
    var one, two := [AddBase(true)], [AddBase(true), AddIncr(0)];
    assert two[..1] == one && one[..0] == [];
    assert Built(filename, one) == NewBase(EMPTY, filename, true);
  }

  lemma NameLengths(filename: string)
    ensures |BaseName(filename, 1, true)| <= |filename| + 20 && |IncrName(filename, 1)| <= |filename| + 20
    ensures |Show(1)| == 1 && |Show(0)| == 1 && |Show(-1)| == 2
  {
    assert Show(1) == "1" && Show(0) == "0" && Show(-1) == "-" + Digits(1);
  }

  lemma ExamplePlain(filename: string)
    requires !NeedsRepr(filename) && ValidFilename(filename)
    ensures !NeedsRepr(BaseName(filename, 1, true)) && !NeedsRepr(IncrName(filename, 1))
  {
    hide Named, NeedsRepr, ValidFilename, BaseName, IncrName;
    NamesNamed(filename, 1, true);
    NamedReadable(filename, BaseName(filename, 1, true));
    NamedReadable(filename, IncrName(filename, 1));
  }

  lemma ExampleShort(filename: string)
    requires |filename| == 4 && !NeedsRepr(filename) && ValidFilename(filename)
    ensures WithinLimit(Infos(Built(filename, [AddBase(true), AddIncr(0)])))
  {
    hide Built, Line, Show, NeedsRepr, ValidFilename, Infos, BaseName, IncrName;
    ExampleInfos(filename);
    ExamplePlain(filename);
    NameLengths(filename);
    var base, incr := AofInfo(BaseName(filename, 1, true), 1, BASE, -1, -1), AofInfo(IncrName(filename, 1), 1, INCR, 0, -1);
    ShortLine(base);
    ShortLine(incr);
  }
}
