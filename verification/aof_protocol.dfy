/** The multi-file rewrite protocol (aof.c) as a state machine over its disk effects.
    A crash may come between any two of them. */
module AofProtocol {
  import opened Base
  import opened Decimal
  import opened AofManifest

  // ---------------------------------------------------------------------
  // Files

  /** A logged write: the SELECT put in front of it, if any, the database it was executed
      in, which is not in the file, and the command. */
  datatype Rec<C> = Rec(select: Option<int>, db: int, cmd: C)

  /** A BASE file as its effect on an empty server, or the records of an INCR file, with
      part of another record behind them if `torn`. */
  datatype Content<D, C> = Snapshot(d: D) | Log(recs: seq<Rec<C>>, torn: bool)

  /** What a command does is a parameter: `apply(dataset, database, command)`. */
  datatype Params<!D(!new), !C(!new)> = Params(filename: string, empty: D, apply: (D, int, C) -> D)

  /** The database a record runs in when `cur` is selected before it. */
  function RunsIn<C>(cur: int, r: Rec<C>): int { if r.select.Some? then r.select.value else cur }

  function LastDb<C>(cur: int, recs: seq<Rec<C>>): int
    decreases |recs|
  {
    if recs == [] then cur else LastDb(RunsIn(cur, recs[0]), recs[1..])
  }

  /** Running the records as the loader does, from database `cur`. */
  function Replay<D(!new), C(!new)>(p: Params<D, C>, d: D, cur: int, recs: seq<Rec<C>>): D
    decreases |recs|
  {
    if recs == [] then d
    else var db := RunsIn(cur, recs[0]); Replay(p, p.apply(d, db, recs[0].cmd), db, recs[1..])
  }

  /** Executing the records in the databases they were executed in. */
  function Execute<D(!new), C(!new)>(p: Params<D, C>, d: D, recs: seq<Rec<C>>): D
    decreases |recs|
  {
    if recs == [] then d else Execute(p, p.apply(d, recs[0].db, recs[0].cmd), recs[1..])
  }

  /** Every record runs in its own database. */
  predicate Chained<C>(cur: int, recs: seq<Rec<C>>)
    decreases |recs|
  {
    recs == [] || (RunsIn(cur, recs[0]) == recs[0].db && Chained(RunsIn(cur, recs[0]), recs[1..]))
  }

  lemma {:induction false} ReplayChained<D(!new), C(!new)>(p: Params<D, C>, d: D, cur: int, recs: seq<Rec<C>>)
    requires Chained(cur, recs)
    ensures Replay(p, d, cur, recs) == Execute(p, d, recs)
    decreases |recs|
  {
    if recs != [] {
      ReplayChained(p, p.apply(d, recs[0].db, recs[0].cmd), recs[0].db, recs[1..]);
    }
  }

  lemma {:induction false} ExecuteAppend<D(!new), C(!new)>(p: Params<D, C>, d: D, a: seq<Rec<C>>, b: seq<Rec<C>>)
    ensures Execute(p, d, a + b) == Execute(p, Execute(p, d, a), b)
    decreases |a|
  {
    if a == [] {
      assert a + b == b;
    } else {
      assert (a + b)[1..] == a[1..] + b;
      ExecuteAppend(p, p.apply(d, a[0].db, a[0].cmd), a[1..], b);
    }
  }

  lemma {:induction false} ChainedAppend<C(!new)>(cur: int, a: seq<Rec<C>>, b: seq<Rec<C>>)
    ensures Chained(cur, a + b) <==> Chained(cur, a) && Chained(LastDb(cur, a), b)
    ensures LastDb(cur, a + b) == LastDb(LastDb(cur, a), b)
    decreases |a|
  {
    if a == [] {
      assert a + b == b;
    } else {
      assert (a + b)[1..] == a[1..] + b;
      ChainedAppend(RunsIn(cur, a[0]), a[1..], b);
    }
  }

  type Files<D, C> = map<string, Content<D, C>>

  function NamesOf(infos: seq<AofInfo>): set<string> { set i | 0 <= i < |infos| :: infos[i].name }

  /** The files a start would load. */
  function Live(m: Manifest): set<string> { NamesOf(Bases(m)) + NamesOf(m.incr) }

  function LoadOne<D(!new), C(!new)>(p: Params<D, C>, d: D, content: Content<D, C>): D {
    match content
    case Snapshot(d') => d'
    case Log(recs, _) => Replay(p, d, 0, recs)
  }

  /** Loading files in order; every file is loaded by a fresh client in database 0. */
  function LoadSeq<D(!new), C(!new)>(p: Params<D, C>, d: D, files: Files<D, C>, infos: seq<AofInfo>): D
    requires forall i | 0 <= i < |infos| :: infos[i].name in files
  {
    if infos == [] then d
    else
      var n := |infos| - 1;
      LoadOne(p, LoadSeq(p, d, files, infos[..n]), files[infos[n].name])
  }

  predicate Present<D(!new), C(!new)>(files: Files<D, C>, m: Manifest) { Live(m) <= files.Keys }

  /** `loadAppendOnlyFiles`: the BASE file and then the INCR files of a manifest. */
  function Recover<D(!new), C(!new)>(p: Params<D, C>, files: Files<D, C>, m: Manifest): D
    requires Present(files, m)
  {
    PresentNames(files, m);
    LoadSeq(p, LoadSeq(p, p.empty, files, Bases(m)), files, m.incr)
  }

  lemma PresentNames<D(!new), C(!new)>(files: Files<D, C>, m: Manifest)
    requires Present(files, m)
    ensures forall i | 0 <= i < |Bases(m)| :: Bases(m)[i].name in files
    ensures forall i | 0 <= i < |m.incr| :: m.incr[i].name in files
  {
    forall i | 0 <= i < |Bases(m)|
      ensures Bases(m)[i].name in files
    {
      assert Bases(m)[i].name in Live(m);
    }
    forall i | 0 <= i < |m.incr|
      ensures m.incr[i].name in files
    {
      assert m.incr[i].name in Live(m);
    }
  }

  // ---------------------------------------------------------------------
  // The machine

  /** Where the main thread is inside `rewriteAppendOnlyFileBackground`,
      `backgroundRewriteDoneHandler` and a start. */
  datatype Pc = Idle | Opening | Opened(replOffset: nat) | Forking | Renamed(rdb: bool) | Resetting | Cleaning

  /** How far the first start, in an empty directory, has come. */
  datatype Boot = NoManifest | BaseMade(rdb: bool) | IncrMade(rdb: bool) | Booted

  /** The disk with the text of the manifest, the server's memory, and what the text was
      printed from and the writes flushed so far, which only the proofs look at. */
  datatype Sys<D, C> = Sys(
    files: Files<D, C>, text: string, disk: Manifest, log: seq<Rec<C>>,
    up: bool, am: Manifest, data: D, buf: seq<Rec<C>>, selected: int, child: Option<D>, pc: Pc, boot: Boot)

  datatype Action<C> =
    | Write(db: nat, cmd: C)
    | Flush(k: nat)
    | StartRewrite
    | CreateIncr(ok: bool, replOffset: nat)
    | PersistIncr(ok: bool)
    | Fork(ok: bool)
    | ChildFails
    | ChildDone(renamed: bool, rdb: bool)
    | PersistBase(ok: bool)
    | SkipCleaning
    | UnlinkHistory
    | PersistClean(ok: bool)
    | Shutdown(replOffset: nat, ok: bool)
    | Crash(torn: bool)
    | Restart(loadTruncated: bool)
    | PersistReset(ok: bool)
    | BootBase(rdb: bool)
    | BootIncr
    | BootPersist(replOffset: nat, ok: bool)
    | BootCrash

  function Current(m: Manifest): string
    requires m.incr != []
  {
    m.incr[|m.incr| - 1].name
  }

  predicate Writable<D(!new), C(!new)>(s: Sys<D, C>) {
    s.am.incr != [] && Current(s.am) in s.files && s.files[Current(s.am)].Log? && !s.files[Current(s.am)].torn
  }

  function Logged<D(!new), C(!new)>(s: Sys<D, C>): seq<Rec<C>>
    requires Writable(s)
  {
    s.files[Current(s.am)].recs
  }

  function FlushFirst<D(!new), C(!new)>(s: Sys<D, C>, k: nat): Sys<D, C>
    requires Writable(s) && k <= |s.buf|
  {
    s.(files := s.files[Current(s.am) := Log(Logged(s) + s.buf[..k], false)], buf := s.buf[k..], log := s.log + s.buf[..k])
  }

  function Fed<C(!new)>(selected: int, db: nat, cmd: C): Rec<C> {
    Rec(if selected == db then None else Some(db), db, cmd)
  }

  /** What a start makes of the manifest text. */
  function Parsed(text: string): Result<Manifest> { LoadLines(text, 0, EMPTY, 0) }

  /** A torn file is accepted only at the end, and only if truncated files are loaded. */
  predicate TornAllowed<D(!new), C(!new)>(files: Files<D, C>, m: Manifest, loadTruncated: bool) {
    forall i | 0 <= i < |m.incr| && m.incr[i].name in files && files[m.incr[i].name].Log? && files[m.incr[i].name].torn ::
      i == |m.incr| - 1 && loadTruncated
  }

  /** A start reads the manifest and needs all files it names. */
  predicate Startable<D(!new), C(!new)>(s: Sys<D, C>, loadTruncated: bool) {
    && s.boot.Booted? && Parsed(s.text).Ok? && Present(s.files, Parsed(s.text).value)
    && TornAllowed(s.files, Parsed(s.text).value, loadTruncated)
  }

  predicate Enabled<D(!new), C(!new)>(s: Sys<D, C>, a: Action<C>) {
    match a
    case Write(_, _) => s.up && s.pc.Idle?
    case Flush(k) => s.up && s.pc.Idle? && k <= |s.buf| && Writable(s)
    case StartRewrite => s.up && s.pc.Idle? && s.child.None? && Writable(s)
    case CreateIncr(_, _) => s.up && s.pc.Opening?
    case PersistIncr(_) => s.up && s.pc.Opened?
    case Fork(_) => s.up && s.pc.Forking?
    case ChildFails => s.up && s.pc.Idle? && s.child.Some?
    case ChildDone(_, _) => s.up && s.pc.Idle? && s.child.Some?
    case PersistBase(_) => s.up && s.pc.Renamed?
    case SkipCleaning => s.up && s.pc.Cleaning?
    case UnlinkHistory => s.up && s.pc.Cleaning? && s.am.history != []
    case PersistClean(_) => s.up && s.pc.Cleaning? && s.am.history == [] && s.am.dirty
    case Shutdown(_, _) => s.up && s.pc.Idle?
    case Crash(torn) => s.up && (torn ==> s.pc.Idle? && s.buf != [] && Writable(s))
    case Restart(loadTruncated) => !s.up && Startable(s, loadTruncated)
    case PersistReset(_) => s.up && s.pc.Resetting?
    case BootBase(_) => s.boot.NoManifest?
    case BootIncr => s.boot.BaseMade?
    case BootPersist(_, _) => s.boot.IncrMade?
    case BootCrash => s.boot.BaseMade? || s.boot.IncrMade?
  }

  function NextBase<D(!new), C(!new)>(p: Params<D, C>, s: Sys<D, C>, rdb: bool): string {
    BaseName(p.filename, s.am.baseSeq + 1, rdb)
  }

  function NextIncr<D(!new), C(!new)>(p: Params<D, C>, s: Sys<D, C>): string {
    IncrName(p.filename, s.am.incrSeq + 1)
  }

  function Written<D(!new), C(!new)>(p: Params<D, C>, s: Sys<D, C>, db: nat, cmd: C): Sys<D, C> {
    s.(data := p.apply(s.data, db, cmd), buf := s.buf + [Fed(s.selected, db, cmd)], selected := db)
  }

  /** The beginning of `rewriteAppendOnlyFileBackground`; the forced flush drains the buffer. */
  function Started<D(!new), C(!new)>(s: Sys<D, C>): Sys<D, C>
    requires Writable(s)
  {
    FlushFirst(s, |s.buf|).(selected := -1, pc := Opening)
  }

  /** `openNewIncrAofForAppend`: create the file, then persist the manifest. */
  function IncrCreated<D(!new), C(!new)>(p: Params<D, C>, s: Sys<D, C>, off: nat): Sys<D, C> {
    s.(files := s.files[NextIncr(p, s) := Log([], false)], pc := Opened(off))
  }

  function IncrPersisted<D(!new), C(!new)>(p: Params<D, C>, s: Sys<D, C>, off: nat): Sys<D, C> {
    var m := NewIncr(s.am, p.filename, off);
    s.(text := Lines(Infos(m)), disk := Reloaded(m), am := m.(dirty := false), pc := Forking)
  }

  /** `backgroundRewriteDoneHandler`: rename the child's file, then persist the manifest. */
  function BaseRenamed<D(!new), C(!new)>(p: Params<D, C>, s: Sys<D, C>, rdb: bool): Sys<D, C>
    requires s.child.Some?
  {
    s.(files := s.files[NextBase(p, s, rdb) := Snapshot(s.child.value)], pc := Renamed(rdb))
  }

  function BasePersisted<D(!new), C(!new)>(p: Params<D, C>, s: Sys<D, C>, rdb: bool): Sys<D, C> {
    var m := MarkRewritten(NewBase(s.am, p.filename, rdb), true);
    s.(text := Lines(Infos(m)), disk := Reloaded(m), am := m.(dirty := false), child := None, pc := Cleaning)
  }

  function BaseUndone<D(!new), C(!new)>(p: Params<D, C>, s: Sys<D, C>, rdb: bool): Sys<D, C> {
    s.(files := s.files - {NextBase(p, s, rdb)}, child := None, pc := Idle)
  }

  /** `aofDelHistoryFiles`: unlink the files, then persist the manifest. */
  function HistoryUnlinked<D(!new), C(!new)>(s: Sys<D, C>): Sys<D, C>
    requires s.am.history != []
  {
    s.(files := s.files - {s.am.history[0].name}, am := s.am.(history := s.am.history[1..], dirty := true))
  }

  function Cleaned<D(!new), C(!new)>(s: Sys<D, C>, ok: bool): Sys<D, C> {
    s.(text := if ok then Lines(Infos(s.am)) else s.text, disk := if ok then Reloaded(s.am) else s.disk,
       am := s.am.(dirty := !ok), pc := Idle)
  }

  /** The record being written is cut short by the crash. */
  function Torn<D(!new), C(!new)>(s: Sys<D, C>): Sys<D, C>
    requires Writable(s)
  {
    s.(up := false, files := s.files[Current(s.am) := Log(Logged(s), true)])
  }

  /** A shutdown notes the end offset of the last INCR file; nobody minds if that fails. */
  function ShutDown<D(!new), C(!new)>(s: Sys<D, C>, off: nat, ok: bool): Sys<D, C> {
    var m := SetEndOffset(s.am, off);
    if ok then s.(up := false, text := Lines(Infos(m)), disk := Reloaded(m)) else s.(up := false)
  }

  predicate HasEndOffset(m: Manifest) { m.incr != [] && m.incr[|m.incr| - 1].endOffset != -1 }

  /** The end offset of the last INCR file is forgotten when it is written again. */
  function WithoutEnd(m: Manifest): Manifest { if HasEndOffset(m) then SetEndOffset(m, -1) else m }

  /** The loader leaves the last INCR file without a torn record. */
  function Mended<D(!new), C(!new)>(files: Files<D, C>, m: Manifest): Files<D, C> {
    if m.incr != [] && Current(m) in files && files[Current(m)].Log? then files[Current(m) := Log(files[Current(m)].recs, false)]
    else files
  }

  /** A start loads the files named by the text, goes on with the last INCR file, forgets
      its end offset, and then deletes history files. */
  function Restarted<D(!new), C(!new)>(p: Params<D, C>, s: Sys<D, C>, loadTruncated: bool): Sys<D, C>
    requires Startable(s, loadTruncated)
  {
    var m := Parsed(s.text).value;
    s.(up := true, files := Mended(s.files, m), am := WithoutEnd(m), data := Recover(p, s.files, m), buf := [], selected := -1,
       child := None, pc := if HasEndOffset(m) then Resetting else Cleaning)
  }

  /** Persisting the manifest without the end offset; the process exits if that fails. */
  function ResetPersisted<D(!new), C(!new)>(s: Sys<D, C>, ok: bool): Sys<D, C> {
    if ok then s.(text := Lines(Infos(s.am)), disk := Reloaded(s.am), am := s.am.(dirty := false), pc := Cleaning) else s.(up := false)
  }

  /** The first start: an empty BASE file, an INCR file, and the manifest. */
  function FirstBase<D(!new), C(!new)>(p: Params<D, C>, s: Sys<D, C>, rdb: bool): Sys<D, C> {
    s.(files := s.files[BaseName(p.filename, 1, rdb) := Snapshot(p.empty)], boot := BaseMade(rdb))
  }

  function FirstIncr<D(!new), C(!new)>(p: Params<D, C>, s: Sys<D, C>): Sys<D, C>
    requires s.boot.BaseMade?
  {
    var name := IncrName(p.filename, 1);
    s.(files := if name in s.files then s.files else s.files[name := Log([], false)], boot := IncrMade(s.boot.rdb))
  }

  function FirstManifest(filename: string, rdb: bool, off: nat): Manifest {
    NewIncr(NewBase(EMPTY, filename, rdb), filename, off)
  }

  function FirstPersisted<D(!new), C(!new)>(p: Params<D, C>, s: Sys<D, C>, off: nat): Sys<D, C>
    requires s.boot.IncrMade?
  {
    var m := FirstManifest(p.filename, s.boot.rdb, off);
    Sys(s.files, Lines(Infos(m)), Reloaded(m), s.log, true, m.(dirty := false), p.empty, [], -1, None, Cleaning, Booted)
  }

  function Step<D(!new), C(!new)>(p: Params<D, C>, s: Sys<D, C>, a: Action<C>): Sys<D, C>
    requires Enabled(s, a)
  {
    match a
    case Write(db, cmd) => Written(p, s, db, cmd)
    case Flush(k) => FlushFirst(s, k)
    case StartRewrite => Started(s)
    case CreateIncr(ok, off) => if ok then IncrCreated(p, s, off) else s.(pc := Idle)
    case PersistIncr(ok) => if ok then IncrPersisted(p, s, s.pc.replOffset) else s.(pc := Idle)
    case Fork(ok) => s.(child := if ok then Some(s.data) else None, pc := Idle)
    case ChildFails => s.(child := None)
    case ChildDone(renamed, rdb) => if renamed then BaseRenamed(p, s, rdb) else s.(child := None)
    case PersistBase(ok) => if ok then BasePersisted(p, s, s.pc.rdb) else BaseUndone(p, s, s.pc.rdb)
    case SkipCleaning => s.(pc := Idle)
    case UnlinkHistory => HistoryUnlinked(s)
    case PersistClean(ok) => Cleaned(s, ok)
    case Shutdown(off, ok) => ShutDown(s, off, ok)
    case Crash(torn) => if torn then Torn(s) else s.(up := false)
    case Restart(loadTruncated) => Restarted(p, s, loadTruncated)
    case PersistReset(ok) => ResetPersisted(s, ok)
    case BootBase(rdb) => FirstBase(p, s, rdb)
    case BootIncr => FirstIncr(p, s)
    case BootPersist(off, ok) => if ok then FirstPersisted(p, s, off) else s.(boot := NoManifest)
    case BootCrash => s.(boot := NoManifest)
  }

  /** An empty directory, and no server. */
  function Nothing<D(!new), C(!new)>(p: Params<D, C>): Sys<D, C> {
    Sys(map[], "", EMPTY, [], false, EMPTY, p.empty, [], -1, None, Idle, NoManifest)
  }

  // ---------------------------------------------------------------------
  // Names never clash

  lemma NumberOf(filename: string, n: int, suffix: string)
    requires n >= 0 && suffix != "" && suffix[0] == '.'
    ensures StrTol((filename + ("." + Show(n) + suffix))[|filename| + 1..]) == n
  {
    ParseShow(n, suffix);
    hide Show, StrTol;
    assert (filename + ("." + Show(n) + suffix))[|filename| + 1..] == Show(n) + suffix;
  }

  function BaseSuffix(rdb: bool): string { if rdb then ".base.rdb" else ".base.aof" }

  lemma BaseNameText(filename: string, n: int, rdb: bool)
    ensures BaseName(filename, n, rdb) == filename + ("." + Show(n) + BaseSuffix(rdb))
  {
    hide Show;
    var tail := if rdb then ".rdb" else ".aof";
    assert ".base" + tail == BaseSuffix(rdb);
    assert "." + Show(n) + ".base" + tail == "." + Show(n) + (".base" + tail);
  }

  lemma IncrNameText(filename: string, n: int)
    ensures IncrName(filename, n) == filename + ("." + Show(n) + ".incr.aof")
  {
    hide Show;
    assert ".incr" + ".aof" == ".incr.aof";
    assert "." + Show(n) + ".incr" + ".aof" == "." + Show(n) + (".incr" + ".aof");
  }

  lemma BaseNames(filename: string, a: int, b: int, r: bool, q: bool)
    requires a >= 0 && b >= 0 && BaseName(filename, a, r) == BaseName(filename, b, q)
    ensures a == b
  {
    BaseNameText(filename, a, r);
    BaseNameText(filename, b, q);
    NumberOf(filename, a, BaseSuffix(r));
    NumberOf(filename, b, BaseSuffix(q));
  }

  lemma IncrNames(filename: string, a: int, b: int)
    requires a >= 0 && b >= 0 && IncrName(filename, a) == IncrName(filename, b)
    ensures a == b
  {
    IncrNameText(filename, a);
    IncrNameText(filename, b);
    NumberOf(filename, a, ".incr.aof");
    NumberOf(filename, b, ".incr.aof");
  }

  lemma BaseIsNotIncr(filename: string, a: int, b: int, r: bool)
    requires a >= 0 && b >= 0
    ensures BaseName(filename, a, r) != IncrName(filename, b)
  {
    var x, y := BaseName(filename, a, r), IncrName(filename, b);
    BaseNameText(filename, a, r);
    IncrNameText(filename, b);
    NumberOf(filename, a, BaseSuffix(r));
    NumberOf(filename, b, ".incr.aof");
    hide Show;
    if a == b {
      var k := |filename| + 1 + |Show(a)| + 1;
      assert x[k] == 'b' && y[k] == 'i';
    }
  }

  predicate IsBaseName(filename: string, ai: AofInfo) {
    ai.number >= 1 && (ai.name == BaseName(filename, ai.number, true) || ai.name == BaseName(filename, ai.number, false))
  }

  predicate IsIncrName(filename: string, ai: AofInfo) { ai.number >= 1 && ai.name == IncrName(filename, ai.number) }

  /** The numbering that keeps names apart: history is older than what is live. */
  predicate Numbered(filename: string, m: Manifest) {
    && m.base.Some? && IsBaseName(filename, m.base.value) && m.base.value.number == m.baseSeq
    && m.incr != [] && Increasing(m.incr) && LastNumber(m.incr) == m.incrSeq
    && (forall i | 0 <= i < |m.incr| :: IsIncrName(filename, m.incr[i]))
    && (forall i | 0 <= i < |m.history| ::
          || (IsBaseName(filename, m.history[i]) && m.history[i].number < m.baseSeq)
          || (IsIncrName(filename, m.history[i]) && m.history[i].number < m.incr[0].number))
  }

  lemma BaseIsFresh(filename: string, ai: AofInfo, m: Manifest)
    requires Numbered(filename, m) && IsBaseName(filename, ai) && ai.number != m.baseSeq
    ensures ai.name !in Live(m)
  {
    hide BaseName, IncrName;
    var rdb := ai.name == BaseName(filename, ai.number, true);
    var pre := m.base.value;
    if ai.name == pre.name {
      BaseNames(filename, ai.number, pre.number, rdb, pre.name == BaseName(filename, pre.number, true));
    }
    forall i | 0 <= i < |m.incr|
      ensures ai.name != m.incr[i].name
    {
      BaseIsNotIncr(filename, ai.number, m.incr[i].number, rdb);
    }
  }

  lemma IncrIsFresh(filename: string, ai: AofInfo, m: Manifest)
    requires Numbered(filename, m) && IsIncrName(filename, ai)
    requires forall i | 0 <= i < |m.incr| :: m.incr[i].number != ai.number
    ensures ai.name !in Live(m)
  {
    hide BaseName, IncrName;
    var pre := m.base.value;
    BaseIsNotIncr(filename, pre.number, ai.number, pre.name == BaseName(filename, pre.number, true));
    forall i | 0 <= i < |m.incr|
      ensures ai.name != m.incr[i].name
    {
      if ai.name == m.incr[i].name {
        IncrNames(filename, ai.number, m.incr[i].number);
      }
    }
  }

  lemma HistoryIsDead(filename: string, m: Manifest, i: nat)
    requires Numbered(filename, m) && i < |m.history|
    ensures m.history[i].name !in Live(m)
  {
    hide BaseName, IncrName;
    var ai := m.history[i];
    if IsBaseName(filename, ai) && ai.number < m.baseSeq {
      BaseIsFresh(filename, ai, m);
    } else {
      IncrIsFresh(filename, ai, m);
    }
  }

  lemma NumberedIncr(filename: string, m: Manifest, off: nat)
    requires Numbered(filename, m)
    ensures Numbered(filename, NewIncr(m, filename, off)) && Current(NewIncr(m, filename, off)) !in Live(m)
  {
    hide BaseName, IncrName;
    var m' := NewIncr(m, filename, off);
    IncrIsFresh(filename, m'.incr[|m'.incr| - 1], m);
  }

  lemma NumberedBase(filename: string, m: Manifest, rdb: bool)
    requires Numbered(filename, m)
    ensures var m' := NewBase(m, filename, rdb);
      Numbered(filename, m') && Numbered(filename, MarkRewritten(m', true)) && m'.base.value.name !in Live(m)
  {
    hide BaseName, IncrName;
    var m' := NewBase(m, filename, rdb);
    BaseIsFresh(filename, m'.base.value, m);
  }

  // ---------------------------------------------------------------------
  // The invariant

  /** The same files; the end offset of an INCR file does not matter. */
  predicate SameFiles(a: seq<AofInfo>, b: seq<AofInfo>) {
    |a| == |b| && forall i | 0 <= i < |a| :: a[i].(endOffset := b[i].endOffset) == b[i]
  }

  predicate SameLive(a: Manifest, b: Manifest) { a.base == b.base && SameFiles(a.incr, b.incr) }

  /** The live files are there, of the right kind, and place their records correctly. */
  predicate Sound<D(!new), C(!new)>(files: Files<D, C>, m: Manifest) {
    && m.base.Some? && m.base.value.name in files && files[m.base.value.name].Snapshot?
    && (forall i | 0 <= i < |m.incr| ::
          && m.incr[i].name in files && files[m.incr[i].name].Log? && Chained(0, files[m.incr[i].name].recs)
          && (i < |m.incr| - 1 ==> !files[m.incr[i].name].torn))
  }

  /** What a start would load is what was flushed. */
  ghost predicate DiskOk<D(!new), C(!new)>(p: Params<D, C>, files: Files<D, C>, disk: Manifest, log: seq<Rec<C>>) {
    && Numbered(p.filename, disk) && Sound(files, disk) && Present(files, disk)
    && Recover(p, files, disk) == Execute(p, p.empty, log)
  }

  ghost predicate MemoryOk<D(!new), C(!new)>(p: Params<D, C>, s: Sys<D, C>) {
    && Numbered(p.filename, s.am) && SameLive(s.am, s.disk) && Writable(s)
    && Chained(0, Logged(s) + s.buf)
    && (s.selected != -1 ==> LastDb(0, Logged(s) + s.buf) == s.selected)
    && s.data == Execute(p, p.empty, s.log + s.buf)
    && (s.child.Some? ==> Execute(p, s.child.value, Logged(s)) == Execute(p, p.empty, s.log))
  }

  ghost predicate PcOk<D(!new), C(!new)>(p: Params<D, C>, s: Sys<D, C>) {
    match s.pc
    case Idle => true
    case Opening => s.buf == [] && s.selected == -1 && s.child.None?
    case Opened(_) =>
      && s.buf == [] && s.selected == -1 && s.child.None?
      && NextIncr(p, s) in s.files && s.files[NextIncr(p, s)] == Log([], false)
    case Forking => s.buf == [] && s.selected == -1 && s.child.None? && Writable(s) && Logged(s) == []
    case Renamed(rdb) =>
      s.child.Some? && NextBase(p, s, rdb) in s.files && s.files[NextBase(p, s, rdb)] == Snapshot(s.child.value)
    case Resetting => s.child.None?
    case Cleaning => s.child.None?
  }

  /** The text is that of a manifest made by the mutators. */
  predicate TextOk(filename: string, text: string, disk: Manifest) {
    && ValidFilename(filename) && text == Lines(Infos(disk)) && disk.incr != []
    && WellFormed(disk, filename) && Reloaded(disk) == disk
  }

  ghost predicate Inv<D(!new), C(!new)>(p: Params<D, C>, s: Sys<D, C>) {
    && s.boot.Booted? && DiskOk(p, s.files, s.disk, s.log) && TextOk(p.filename, s.text, s.disk)
    && (s.up ==> MemoryOk(p, s) && WellFormed(s.am, p.filename) && PcOk(p, s))
  }

  // ---------------------------------------------------------------------
  // The text of the manifest

  /** What is printed for a manifest in memory. */
  lemma TextPrinted(filename: string, m: Manifest)
    requires ValidFilename(filename) && WellFormed(m, filename) && m.incr != []
    ensures TextOk(filename, Lines(Infos(m)), Reloaded(m))
    ensures WellFormed(m.(dirty := false), filename) && WellFormed(m.(dirty := true), filename)
  {
    hide ValidFilename, Lines, Named;
    assert Infos(Reloaded(m)) == Infos(m);
  }

  lemma ValidName(filename: string, text: string, disk: Manifest)
    requires TextOk(filename, text, disk)
    ensures ValidFilename(filename)
  {
  }

  /** The text parses exactly if the file name survives and no line is beyond the limit,
      and then gives the manifest it was printed from. */
  lemma TextParses(filename: string, text: string, disk: Manifest)
    requires TextOk(filename, text, disk)
    ensures if Survives(filename) && WithinLimit(Infos(disk)) then Parsed(text) == Ok(disk) else Parsed(text).Fatal?
  {
    hide ValidFilename, Lines, LoadLines, WellFormed, Survives, WithinLimit;
    assert Infos(disk) != [];
    LoadsExactly(disk, filename);
  }

  // ---------------------------------------------------------------------
  // Loading depends on the live files only

  lemma {:induction false} LoadFrame<D(!new), C(!new)>(p: Params<D, C>, d: D, f: Files<D, C>, g: Files<D, C>, infos: seq<AofInfo>)
    requires forall i | 0 <= i < |infos| :: infos[i].name in f && infos[i].name in g && f[infos[i].name] == g[infos[i].name]
    ensures LoadSeq(p, d, f, infos) == LoadSeq(p, d, g, infos)
  {
    if infos != [] {
      LoadFrame(p, d, f, g, infos[..|infos| - 1]);
    }
  }

  /** Changing files that are not live changes nothing. */
  lemma DeadFiles<D(!new), C(!new)>(p: Params<D, C>, f: Files<D, C>, g: Files<D, C>, m: Manifest)
    requires Present(f, m) && Sound(f, m)
    requires forall name | name in Live(m) :: name in g && g[name] == f[name]
    ensures Present(g, m) && Sound(g, m) && Recover(p, g, m) == Recover(p, f, m)
  {
    PresentNames(f, m);
    forall i | 0 <= i < |Bases(m)|
      ensures Bases(m)[i].name in g && g[Bases(m)[i].name] == f[Bases(m)[i].name]
    {
      assert Bases(m)[i].name in Live(m);
    }
    forall i | 0 <= i < |m.incr|
      ensures m.incr[i].name in g && g[m.incr[i].name] == f[m.incr[i].name]
    {
      assert m.incr[i].name in Live(m);
    }
    assert Bases(m) == [m.base.value];
    LoadFrame(p, p.empty, f, g, Bases(m));
    LoadFrame(p, LoadSeq(p, p.empty, f, Bases(m)), f, g, m.incr);
    hide LoadSeq, Chained;
    assert Sound(g, m) by { assert Bases(m)[0].name in g; }
  }

  /** The dataset before the last INCR file is loaded. */
  function Before<D(!new), C(!new)>(p: Params<D, C>, files: Files<D, C>, m: Manifest): D
    requires Present(files, m) && m.incr != []
  {
    PresentNames(files, m);
    LoadSeq(p, LoadSeq(p, p.empty, files, Bases(m)), files, m.incr[..|m.incr| - 1])
  }

  lemma RecoverLast<D(!new), C(!new)>(p: Params<D, C>, files: Files<D, C>, m: Manifest)
    requires Present(files, m) && Sound(files, m) && m.incr != []
    ensures Recover(p, files, m) == Execute(p, Before(p, files, m), files[Current(m)].recs)
  {
    ReplayChained(p, Before(p, files, m), 0, files[Current(m)].recs);
  }

  lemma CurrentIsApart(filename: string, m: Manifest, i: nat)
    requires Numbered(filename, m) && i < |m.incr| - 1
    ensures m.incr[i].name != Current(m)
  {
    hide IncrName, BaseName;
    var last := m.incr[|m.incr| - 1];
    if m.incr[i].name == last.name {
      IncrNames(filename, m.incr[i].number, last.number);
    }
  }

  lemma BaseIsApart(filename: string, m: Manifest)
    requires Numbered(filename, m)
    ensures m.base.value.name != Current(m)
  {
    hide IncrName, BaseName;
    var b := m.base.value;
    BaseIsNotIncr(filename, b.number, m.incr[|m.incr| - 1].number, b.name == BaseName(filename, b.number, true));
  }

  lemma BeforeFrame<D(!new), C(!new)>(p: Params<D, C>, files: Files<D, C>, m: Manifest, recs: seq<Rec<C>>, torn: bool)
    requires Numbered(p.filename, m) && Present(files, m) && Sound(files, m) && Chained(0, recs)
    ensures var g := files[Current(m) := Log(recs, torn)];
      Present(g, m) && Sound(g, m) && Before(p, g, m) == Before(p, files, m)
  {
    NumberedHasIncr(p.filename, m);
    hide Numbered, Chained, LoadSeq;
    var g := files[Current(m) := Log(recs, torn)];
    BaseIsApart(p.filename, m);
    PresentNames(files, m);
    forall i | 0 <= i < |m.incr| - 1
      ensures m.incr[i].name != Current(m)
    {
      CurrentIsApart(p.filename, m, i);
    }
    LoadFrame(p, p.empty, files, g, Bases(m));
    LoadFrame(p, LoadSeq(p, p.empty, files, Bases(m)), files, g, m.incr[..|m.incr| - 1]);
  }

  /** Appending records to the file being written executes them. */
  lemma AppendToCurrent<D(!new), C(!new)>(p: Params<D, C>, files: Files<D, C>, m: Manifest, more: seq<Rec<C>>, torn: bool)
    requires Numbered(p.filename, m) && Present(files, m) && Sound(files, m)
    requires Chained(0, files[Current(m)].recs + more)
    ensures var g := files[Current(m) := Log(files[Current(m)].recs + more, torn)];
      Present(g, m) && Sound(g, m) && Recover(p, g, m) == Execute(p, Recover(p, files, m), more)
  {
    NumberedHasIncr(p.filename, m);
    hide Numbered, Chained, Before, Recover, Present;
    var recs := files[Current(m)].recs;
    BeforeFrame(p, files, m, recs + more, torn);
    RecoverLast(p, files, m);
    RecoverLast(p, files[Current(m) := Log(recs + more, torn)], m);
    ExecuteAppend(p, Before(p, files, m), recs, more);
  }

  lemma NumberedHasIncr(filename: string, m: Manifest)
    requires Numbered(filename, m)
    ensures m.incr != []
  {
  }

  // ---------------------------------------------------------------------
  // Every step keeps the invariant

  lemma DiskFrame<D(!new), C(!new)>(p: Params<D, C>, f: Files<D, C>, g: Files<D, C>, disk: Manifest, log: seq<Rec<C>>)
    requires DiskOk(p, f, disk, log) && forall name | name in Live(disk) :: name in g && g[name] == f[name]
    ensures DiskOk(p, g, disk, log)
  {
    hide Numbered, Sound, Present, Recover, Live, Execute;
    DeadFiles(p, f, g, disk);
  }

  /** Memory does not depend on files other than the one being written. */
  lemma MemoryFrame<D(!new), C(!new)>(p: Params<D, C>, s: Sys<D, C>, g: Files<D, C>, pc: Pc)
    requires MemoryOk(p, s) && forall name | name in Live(s.disk) :: name in s.files && name in g && g[name] == s.files[name]
    ensures MemoryOk(p, s.(files := g, pc := pc))
  {
    hide Numbered, Chained, LastDb, Execute, Live;
    SameCurrent(s.am, s.disk);
    CurrentIsLive(s.disk);
  }

  lemma ForgetChild<D(!new), C(!new)>(p: Params<D, C>, s: Sys<D, C>)
    requires MemoryOk(p, s)
    ensures MemoryOk(p, s.(child := None, pc := Idle))
  {
    hide Numbered, Chained, LastDb, Execute;
  }

  lemma CurrentIsLive(m: Manifest)
    requires m.incr != []
    ensures Current(m) in Live(m)
  {
  }

  lemma DiskIsThere<D(!new), C(!new)>(p: Params<D, C>, s: Sys<D, C>)
    requires DiskOk(p, s.files, s.disk, s.log)
    ensures forall name | name in Live(s.disk) :: name in s.files
  {
    hide Numbered, Sound, Recover, Live, Execute;
  }

  lemma SameCurrent(a: Manifest, b: Manifest)
    requires SameLive(a, b)
    ensures Live(a) == Live(b) && |a.incr| == |b.incr| && (a.incr != [] ==> Current(a) == Current(b))
    ensures forall i | 0 <= i < |a.incr| :: a.incr[i].name == b.incr[i].name
  {
    forall i | 0 <= i < |a.incr|
      ensures a.incr[i].name == b.incr[i].name
    {
      assert a.incr[i].(endOffset := b.incr[i].endOffset) == b.incr[i];
    }
    assert NamesOf(a.incr) == NamesOf(b.incr);
  }

  lemma AmNumbered<D(!new), C(!new)>(p: Params<D, C>, s: Sys<D, C>)
    requires MemoryOk(p, s)
    ensures Numbered(p.filename, s.am) && Live(s.am) == Live(s.disk)
  {
    hide Numbered;
    SameCurrent(s.am, s.disk);
  }

  lemma WriteKeeps<D(!new), C(!new)>(p: Params<D, C>, s: Sys<D, C>, db: nat, cmd: C)
    requires Inv(p, s) && s.up && s.pc.Idle?
    ensures Inv(p, Written(p, s, db, cmd))
  {
    hide DiskOk, Numbered, TextOk, WellFormed;
    var r := Fed(s.selected, db, cmd);
    ChainedAppend(0, Logged(s) + s.buf, [r]);
    ExecuteAppend(p, p.empty, s.log + s.buf, [r]);
    assert Logged(s) + (s.buf + [r]) == Logged(s) + s.buf + [r];
    assert s.log + (s.buf + [r]) == s.log + s.buf + [r];
    assert [r][1..] == [];
  }

  lemma FlushKeeps<D(!new), C(!new)>(p: Params<D, C>, s: Sys<D, C>, k: nat)
    requires Inv(p, s) && s.up && s.pc.Idle? && k <= |s.buf|
    ensures Writable(s) && Inv(p, FlushFirst(s, k))
  {
    hide Numbered, Chained, LastDb, Execute, Recover, Present, TextOk, WellFormed;
    var recs, more := Logged(s), s.buf[..k];
    assert s.buf == more + s.buf[k..];
    assert recs + s.buf == recs + more + s.buf[k..];
    ChainedAppend(0, recs + more, s.buf[k..]);
    SameCurrent(s.am, s.disk);
    AppendToCurrent(p, s.files, s.disk, more, false);
    ExecuteAppend(p, p.empty, s.log, more);
    assert s.log + s.buf == s.log + more + s.buf[k..];
    if s.child.Some? {
      ExecuteAppend(p, s.child.value, recs, more);
    }
  }

  lemma StartKeeps<D(!new), C(!new)>(p: Params<D, C>, s: Sys<D, C>)
    requires Inv(p, s) && s.up && s.pc.Idle? && s.child.None?
    ensures Writable(s) && Inv(p, Started(s))
  {
    hide DiskOk, Numbered, Chained, LastDb, Execute, TextOk, WellFormed;
    FlushKeeps(p, s, |s.buf|);
  }

  lemma CreateIncrKeeps<D(!new), C(!new)>(p: Params<D, C>, s: Sys<D, C>, off: nat)
    requires Inv(p, s) && s.up && s.pc.Opening?
    ensures Inv(p, IncrCreated(p, s, off))
  {
    hide DiskOk, MemoryOk, Live, IncrName, Numbered, TextOk, WellFormed;
    AmNumbered(p, s);
    NumberedIncr(p.filename, s.am, off);
    DiskIsThere(p, s);
    var g := s.files[NextIncr(p, s) := Log([], false)];
    DiskFrame(p, s.files, g, s.disk, s.log);
    MemoryFrame(p, s, g, Opened(off));
  }

  lemma BackToIdle<D(!new), C(!new)>(p: Params<D, C>, s: Sys<D, C>)
    requires Inv(p, s) && s.up
    ensures Inv(p, s.(pc := Idle))
  {
    hide DiskOk, MemoryOk, Live, TextOk, WellFormed;
    DiskIsThere(p, s);
    MemoryFrame(p, s, s.files, Idle);
  }

  lemma ReloadedLive(m: Manifest)
    ensures SameLive(m, Reloaded(m))
  {
  }

  lemma NumberedReloaded(filename: string, m: Manifest)
    requires Numbered(filename, m)
    ensures Numbered(filename, Reloaded(m)) && Numbered(filename, m.(dirty := false)) && Numbered(filename, m.(dirty := true))
  {
    hide IsBaseName, IsIncrName;
  }

  lemma SameRecovery<D(!new), C(!new)>(p: Params<D, C>, files: Files<D, C>, m: Manifest, m': Manifest)
    requires Present(files, m) && Sound(files, m) && SameLive(m, m')
    ensures Present(files, m') && Sound(files, m') && Recover(p, files, m') == Recover(p, files, m)
  {
    SameCurrent(m, m');
    PresentNames(files, m);
    hide Live;
    assert Bases(m) == Bases(m');
    LoadSame(p, LoadSeq(p, p.empty, files, Bases(m)), files, m.incr, m'.incr);
  }

  lemma {:induction false} LoadSame<D(!new), C(!new)>(p: Params<D, C>, d: D, files: Files<D, C>, a: seq<AofInfo>, b: seq<AofInfo>)
    requires |a| == |b| && forall i | 0 <= i < |a| :: a[i].name == b[i].name && a[i].name in files
    ensures LoadSeq(p, d, files, a) == LoadSeq(p, d, files, b)
  {
    if a != [] {
      LoadSame(p, d, files, a[..|a| - 1], b[..|b| - 1]);
    }
  }

  predicate TornFree<D(!new), C(!new)>(files: Files<D, C>, m: Manifest) {
    m.incr != [] ==> Current(m) in files && files[Current(m)].Log? && !files[Current(m)].torn
  }

  /** A new, empty INCR file at the end changes nothing. */
  lemma RecoverNewIncr<D(!new), C(!new)>(p: Params<D, C>, files: Files<D, C>, m: Manifest, off: nat)
    requires Present(files, m) && Sound(files, m)
    requires TornFree(files, m)
    requires var m' := NewIncr(m, p.filename, off); Current(m') in files && files[Current(m')] == Log([], false)
    ensures var m' := NewIncr(m, p.filename, off);
      Present(files, m') && Sound(files, m') && Recover(p, files, m') == Recover(p, files, m)
  {
    hide IncrName;
    var m' := NewIncr(m, p.filename, off);
    PresentNames(files, m);
    assert m'.incr[..|m'.incr| - 1] == m.incr;
  }

  lemma DiskNewIncr<D(!new), C(!new)>(p: Params<D, C>, s: Sys<D, C>, off: nat)
    requires DiskOk(p, s.files, s.disk, s.log) && SameLive(s.am, s.disk) && Numbered(p.filename, s.am)
    requires NextIncr(p, s) in s.files && s.files[NextIncr(p, s)] == Log([], false) && TornFree(s.files, s.am)
    ensures DiskOk(p, s.files, Reloaded(NewIncr(s.am, p.filename, off)), s.log)
  {
    hide Numbered, Chained, Execute, Recover, Sound, Present, IncrName;
    var m := NewIncr(s.am, p.filename, off);
    SameRecovery(p, s.files, s.disk, s.am);
    NumberedIncr(p.filename, s.am, off);
    NumberedReloaded(p.filename, m);
    RecoverNewIncr(p, s.files, s.am, off);
    SameRecovery(p, s.files, m, Reloaded(m));
  }

  lemma PersistIncrKeeps<D(!new), C(!new)>(p: Params<D, C>, s: Sys<D, C>, off: nat)
    requires Inv(p, s) && s.up && s.pc == Opened(off)
    ensures Inv(p, IncrPersisted(p, s, off))
  {
    hide Numbered, Execute, DiskOk, IncrName, TextOk, WellFormed, Lines, Infos, Reloaded;
    var m := NewIncr(s.am, p.filename, off);
    DiskNewIncr(p, s, off);
    ChangeKeeps(s.am, p.filename, AddIncr(off));
    ValidName(p.filename, s.text, s.disk);
    TextPrinted(p.filename, m);
    ReloadedLive(m);
    NumberedIncr(p.filename, s.am, off);
    NumberedReloaded(p.filename, m);
    var s' := IncrPersisted(p, s, off);
    assert Logged(s') + s'.buf == [];
  }

  lemma ForkKeeps<D(!new), C(!new)>(p: Params<D, C>, s: Sys<D, C>, ok: bool)
    requires Inv(p, s) && s.up && s.pc.Forking?
    ensures Inv(p, s.(child := if ok then Some(s.data) else None, pc := Idle))
  {
    hide DiskOk, Numbered, Chained, LastDb, TextOk, WellFormed;
    assert s.log + s.buf == s.log;
  }

  lemma RenameKeeps<D(!new), C(!new)>(p: Params<D, C>, s: Sys<D, C>, rdb: bool)
    requires Inv(p, s) && s.up && s.pc.Idle? && s.child.Some?
    ensures Inv(p, BaseRenamed(p, s, rdb))
  {
    hide DiskOk, MemoryOk, Live, BaseName, Numbered, TextOk, WellFormed;
    AmNumbered(p, s);
    NumberedBase(p.filename, s.am, rdb);
    DiskIsThere(p, s);
    var g := s.files[NextBase(p, s, rdb) := Snapshot(s.child.value)];
    DiskFrame(p, s.files, g, s.disk, s.log);
    MemoryFrame(p, s, g, Renamed(rdb));
  }

  lemma UndoKeeps<D(!new), C(!new)>(p: Params<D, C>, s: Sys<D, C>, rdb: bool)
    requires Inv(p, s) && s.up && s.pc == Renamed(rdb)
    ensures Inv(p, BaseUndone(p, s, rdb))
  {
    hide DiskOk, MemoryOk, Live, BaseName, Numbered, TextOk, WellFormed;
    AmNumbered(p, s);
    NumberedBase(p.filename, s.am, rdb);
    DiskIsThere(p, s);
    var g := s.files - {NextBase(p, s, rdb)};
    DiskFrame(p, s.files, g, s.disk, s.log);
    MemoryFrame(p, s, g, Idle);
    ForgetChild(p, s.(files := g, pc := Idle));
  }

  /** The snapshot taken at the fork and the INCR file opened then are all that is needed. */
  lemma RecoverNewBase<D(!new), C(!new)>(p: Params<D, C>, files: Files<D, C>, m: Manifest, next: Manifest, snap: D)
    requires m.incr != [] && Sound(files, m) && next.base.Some? && next.incr == [m.incr[|m.incr| - 1]]
    requires next.base.value.name in files && files[next.base.value.name] == Snapshot(snap)
    ensures Present(files, next) && Sound(files, next)
    ensures Recover(p, files, next) == Execute(p, snap, files[Current(m)].recs)
  {
    var recs := files[Current(m)].recs;
    ReplayChained(p, snap, 0, recs);
    hide Chained, Replay, Execute;
    var b, i := next.base.value, next.incr[0];
    assert i == m.incr[|m.incr| - 1];
    assert Sound(files, next) && Present(files, next);
    assert Bases(next) == [b] && [b][..0] == [] && [i][..0] == [];
    assert LoadSeq(p, p.empty, files, [b]) == snap;
    assert LoadSeq(p, snap, files, [i]) == Replay(p, snap, 0, recs);
  }

  lemma DiskNewBase<D(!new), C(!new)>(p: Params<D, C>, s: Sys<D, C>, rdb: bool)
    requires DiskOk(p, s.files, s.disk, s.log) && MemoryOk(p, s) && s.child.Some?
    requires NextBase(p, s, rdb) in s.files && s.files[NextBase(p, s, rdb)] == Snapshot(s.child.value)
    ensures DiskOk(p, s.files, Reloaded(MarkRewritten(NewBase(s.am, p.filename, rdb), true)), s.log)
  {
    hide Numbered, Chained, LastDb, Execute, Recover, Sound, Present, BaseName;
    var b := NewBase(s.am, p.filename, rdb);
    var m := MarkRewritten(b, true);
    SameRecovery(p, s.files, s.disk, s.am);
    NumberedBase(p.filename, s.am, rdb);
    NumberedReloaded(p.filename, m);
    assert m.incr == [s.am.incr[|s.am.incr| - 1]];
    RecoverNewBase(p, s.files, s.am, m, s.child.value);
    SameRecovery(p, s.files, m, Reloaded(m));
  }

  lemma PersistBaseKeeps<D(!new), C(!new)>(p: Params<D, C>, s: Sys<D, C>, rdb: bool)
    requires Inv(p, s) && s.up && s.pc == Renamed(rdb)
    ensures Inv(p, BasePersisted(p, s, rdb))
  {
    hide Numbered, Chained, LastDb, Execute, DiskOk, BaseName, TextOk, WellFormed, Lines, Infos, Reloaded;
    var b := NewBase(s.am, p.filename, rdb);
    var m := MarkRewritten(b, true);
    DiskNewBase(p, s, rdb);
    ChangeKeeps(s.am, p.filename, AddBase(rdb));
    ChangeKeeps(b, p.filename, MarkHistory(true));
    ValidName(p.filename, s.text, s.disk);
    TextPrinted(p.filename, m);
    ReloadedLive(m);
    NumberedBase(p.filename, s.am, rdb);
    NumberedReloaded(p.filename, m);
  }

  lemma NumberedUnlinked(filename: string, m: Manifest)
    requires Numbered(filename, m) && m.history != []
    ensures Numbered(filename, m.(history := m.history[1..], dirty := true)) && m.history[0].name !in Live(m)
  {
    HistoryIsDead(filename, m, 0);
    hide IsBaseName, IsIncrName, Live;
  }

  lemma WellFormedUnlinked(filename: string, m: Manifest)
    requires WellFormed(m, filename) && m.history != []
    ensures WellFormed(m.(history := m.history[1..], dirty := true), filename)
  {
    hide Entry;
  }

  lemma ChangeHistory<D(!new), C(!new)>(p: Params<D, C>, s: Sys<D, C>, am: Manifest, text: string, disk: Manifest, pc: Pc)
    requires MemoryOk(p, s) && SameLive(am, s.am) && SameLive(disk, s.disk) && Numbered(p.filename, am)
    ensures MemoryOk(p, s.(am := am, text := text, disk := disk, pc := pc))
  {
    hide Numbered, Chained, LastDb, Execute;
  }

  lemma UnlinkKeeps<D(!new), C(!new)>(p: Params<D, C>, s: Sys<D, C>)
    requires Inv(p, s) && s.up && s.pc.Cleaning? && s.am.history != []
    ensures Inv(p, HistoryUnlinked(s))
  {
    hide DiskOk, MemoryOk, Live, Numbered, TextOk, WellFormed;
    AmNumbered(p, s);
    WellFormedUnlinked(p.filename, s.am);
    NumberedUnlinked(p.filename, s.am);
    DiskIsThere(p, s);
    var g := s.files - {s.am.history[0].name};
    DiskFrame(p, s.files, g, s.disk, s.log);
    MemoryFrame(p, s, g, Cleaning);
    ChangeHistory(p, s.(files := g), s.am.(history := s.am.history[1..], dirty := true), s.text, s.disk, Cleaning);
  }

  lemma CleanKeeps<D(!new), C(!new)>(p: Params<D, C>, s: Sys<D, C>, ok: bool)
    requires Inv(p, s) && s.up && s.pc.Cleaning?
    ensures Inv(p, Cleaned(s, ok))
  {
    hide Numbered, Chained, LastDb, Execute, Recover, Sound, Present, Logged, TextOk, WellFormed, Lines, Infos, Reloaded;
    NumberedReloaded(p.filename, s.am);
    ValidName(p.filename, s.text, s.disk);
    TextPrinted(p.filename, s.am);
    ReloadedLive(s.am);
    SameRecovery(p, s.files, s.disk, Reloaded(s.am));
    var t := Cleaned(s, ok);
    ChangeHistory(p, s, t.am, t.text, t.disk, Idle);
  }

  /** The last INCR file ends in a torn record. */
  predicate EndsTorn<D(!new), C(!new)>(s: Sys<D, C>) {
    s.disk.incr != [] && Current(s.disk) in s.files && s.files[Current(s.disk)].Log? && s.files[Current(s.disk)].torn
  }

  lemma OnlyLastTorn<D(!new), C(!new)>(files: Files<D, C>, m: Manifest, loadTruncated: bool)
    requires Sound(files, m) && m.incr != []
    ensures TornAllowed(files, m, loadTruncated) <==> (files[Current(m)].torn ==> loadTruncated)
  {
    hide Chained;
    if !(files[Current(m)].torn ==> loadTruncated) {
      var i := |m.incr| - 1;
      assert m.incr[i].name in files && files[m.incr[i].name].torn;
    }
  }

  lemma WithoutEndKeeps(filename: string, m: Manifest)
    requires Numbered(filename, m) && WellFormed(m, filename)
    ensures Numbered(filename, WithoutEnd(m)) && WellFormed(WithoutEnd(m), filename) && SameLive(m, WithoutEnd(m))
  {
    hide IsBaseName, IsIncrName, Named;
    EndOffsetKeeps(filename, m, -1);
  }

  lemma EndOffsetKeeps(filename: string, m: Manifest, off: int)
    requires Numbered(filename, m)
    ensures Numbered(filename, SetEndOffset(m, off)) && SameLive(m, SetEndOffset(m, off))
  {
    hide BaseName, IncrName;
  }

  lemma MendKeeps<D(!new), C(!new)>(p: Params<D, C>, files: Files<D, C>, m: Manifest, log: seq<Rec<C>>)
    requires DiskOk(p, files, m, log)
    ensures m.incr != [] && DiskOk(p, Mended(files, m), m, log) && TornFree(Mended(files, m), m)
    ensures Chained(0, Mended(files, m)[Current(m)].recs)
  {
    NumberedHasIncr(p.filename, m);
    hide Numbered, Chained, Execute, Recover, Present;
    var recs := files[Current(m)].recs;
    assert recs + [] == recs;
    AppendToCurrent(p, files, m, [], false);
    ExecuteNothing(p, Recover(p, files, m));
  }

  lemma ExecuteNothing<D(!new), C(!new)>(p: Params<D, C>, d: D)
    ensures Execute(p, d, []) == d
  {
  }

  /** A start is possible exactly if the file name survives being printed, no line on disk
      is beyond the limit, and truncated files are loaded if the last file is torn; it then
      recovers the flushed writes. */
  lemma RestartKeeps<D(!new), C(!new)>(p: Params<D, C>, s: Sys<D, C>, loadTruncated: bool)
    requires Inv(p, s) && !s.up
    ensures Startable(s, loadTruncated) <==>
      Survives(p.filename) && WithinLimit(Infos(s.disk)) && (EndsTorn(s) ==> loadTruncated)
    ensures Startable(s, loadTruncated) ==>
      Inv(p, Restarted(p, s, loadTruncated)) && Restarted(p, s, loadTruncated).data == Execute(p, p.empty, s.log)
  {
    hide Chained, LastDb, Execute, Recover, Present, Numbered, Parsed, Survives, WithinLimit, WellFormed, TornAllowed, Sound;
    TextParses(p.filename, s.text, s.disk);
    NumberedHasIncr(p.filename, s.disk);
    OnlyLastTorn(s.files, s.disk, loadTruncated);
    TornIs(s);
    if Startable(s, loadTruncated) {
      WellFormedDisk(p.filename, s.text, s.disk);
      hide TextOk;
      StartedOk(p, s, loadTruncated);
    }
  }

  lemma TornIs<D(!new), C(!new)>(s: Sys<D, C>)
    requires Sound(s.files, s.disk) && s.disk.incr != []
    ensures EndsTorn(s) <==> s.files[Current(s.disk)].torn
  {
  }

  lemma StartedOk<D(!new), C(!new)>(p: Params<D, C>, s: Sys<D, C>, loadTruncated: bool)
    requires Inv(p, s) && !s.up && Startable(s, loadTruncated) && Parsed(s.text) == Ok(s.disk) && WellFormed(s.disk, p.filename)
    ensures Inv(p, Restarted(p, s, loadTruncated)) && Restarted(p, s, loadTruncated).data == Execute(p, p.empty, s.log)
  {
    hide Chained, LastDb, Execute, Recover, Numbered, Parsed, WellFormed, TornAllowed, TextOk, Sound, Present, WithoutEnd, Mended;
    WithoutEndKeeps(p.filename, s.disk);
    MendKeeps(p, s.files, s.disk, s.log);
    SameCurrent(s.disk, WithoutEnd(s.disk));
    SameLiveSwap(s.disk, WithoutEnd(s.disk));
    var t := Restarted(p, s, loadTruncated);
    assert s.log + [] == s.log && Logged(t) + [] == Logged(t);
  }

  lemma SameLiveSwap(a: Manifest, b: Manifest)
    requires SameLive(a, b)
    ensures SameLive(b, a)
  {
    forall i | 0 <= i < |a.incr|
      ensures b.incr[i].(endOffset := a.incr[i].endOffset) == a.incr[i]
    {
      assert a.incr[i].(endOffset := b.incr[i].endOffset) == b.incr[i];
    }
  }

  lemma ResetKeeps<D(!new), C(!new)>(p: Params<D, C>, s: Sys<D, C>, ok: bool)
    requires Inv(p, s) && s.up && s.pc.Resetting?
    ensures Inv(p, ResetPersisted(s, ok))
  {
    if ok {
      hide Numbered, Chained, LastDb, Execute, Recover, Sound, Present, Logged, TextOk, WellFormed, Lines, Infos, Reloaded, SameLive;
      PersistSame(p, s, s.am);
      NumberedReloaded(p.filename, s.am);
      ReloadedLive(s.am);
      DirtySame(s.am);
      var t := ResetPersisted(s, true);
      ChangeHistory(p, s, t.am, t.text, t.disk, Cleaning);
    } else {
      CrashKeeps(p, s);
    }
  }

  lemma DirtySame(m: Manifest)
    ensures SameLive(m, m) && SameLive(m.(dirty := false), m)
  {
  }

  /** Persisting a manifest of the same files changes nothing. */
  lemma PersistSame<D(!new), C(!new)>(p: Params<D, C>, s: Sys<D, C>, m: Manifest)
    requires Inv(p, s) && WellFormed(m, p.filename) && Numbered(p.filename, m) && SameLive(s.disk, m)
    ensures DiskOk(p, s.files, Reloaded(m), s.log) && TextOk(p.filename, Lines(Infos(m)), Reloaded(m))
    ensures WellFormed(m.(dirty := false), p.filename)
  {
    hide Numbered, Execute, Recover, Sound, Present, TextOk, WellFormed, Lines, Infos, Reloaded, SameLive;
    NumberedHasIncr(p.filename, m);
    NumberedReloaded(p.filename, m);
    ValidName(p.filename, s.text, s.disk);
    TextPrinted(p.filename, m);
    ReloadedLive(m);
    SameRecovery(p, s.files, s.disk, m);
    SameRecovery(p, s.files, m, Reloaded(m));
  }

  lemma ShutdownKeeps<D(!new), C(!new)>(p: Params<D, C>, s: Sys<D, C>, off: nat, ok: bool)
    requires Inv(p, s) && s.up
    ensures Inv(p, ShutDown(s, off, ok))
  {
    if ok {
      hide Numbered, Chained, LastDb, Execute, TextOk, WellFormed, Lines, Infos, Reloaded, SameLive, DiskOk, SetEndOffset;
      var m := SetEndOffset(s.am, off);
      ChangeKeeps(s.am, p.filename, EndIncr(off));
      EndOffsetKeeps(p.filename, s.am, off);
      SameLiveSwap(s.am, s.disk);
      SameLiveTrans(s.disk, s.am, m);
      PersistSame(p, s, m);
    } else {
      CrashKeeps(p, s);
    }
  }

  lemma SameLiveTrans(a: Manifest, b: Manifest, c: Manifest)
    requires SameLive(a, b) && SameLive(b, c)
    ensures SameLive(a, c)
  {
    forall i | 0 <= i < |a.incr|
      ensures a.incr[i].(endOffset := c.incr[i].endOffset) == c.incr[i]
    {
      assert a.incr[i].(endOffset := b.incr[i].endOffset) == b.incr[i];
      assert b.incr[i].(endOffset := c.incr[i].endOffset) == c.incr[i];
    }
  }

  lemma TornKeeps<D(!new), C(!new)>(p: Params<D, C>, s: Sys<D, C>)
    requires Inv(p, s) && s.up && Writable(s)
    ensures Inv(p, Torn(s))
  {
    hide Numbered, Chained, LastDb, Execute, Recover, Present, TextOk, WellFormed;
    var recs := Logged(s);
    SameCurrent(s.am, s.disk);
    assert recs + [] == recs;
    LoggedChained(p, s);
    AppendToCurrent(p, s.files, s.disk, [], true);
    ExecuteNothing(p, Recover(p, s.files, s.disk));
  }

  lemma LoggedChained<D(!new), C(!new)>(p: Params<D, C>, s: Sys<D, C>)
    requires MemoryOk(p, s)
    ensures Chained(0, Logged(s))
  {
    hide Numbered, LastDb, Execute;
    ChainedAppend(0, Logged(s), s.buf);
  }

  lemma WellFormedDisk(filename: string, text: string, disk: Manifest)
    requires TextOk(filename, text, disk)
    ensures WellFormed(disk, filename)
  {
  }

  /** Before the first manifest: no server, no writes, and nothing in the first INCR file. */
  ghost predicate Fresh<D(!new), C(!new)>(p: Params<D, C>, s: Sys<D, C>) {
    && ValidFilename(p.filename) && !s.boot.Booted? && !s.up && s.log == []
    && (IncrName(p.filename, 1) in s.files ==> s.files[IncrName(p.filename, 1)] == Log([], false))
    && (s.boot.BaseMade? || s.boot.IncrMade? ==> HasFirstBase(p, s, s.boot.rdb))
    && (s.boot.IncrMade? ==> IncrName(p.filename, 1) in s.files)
  }

  ghost predicate HasFirstBase<D(!new), C(!new)>(p: Params<D, C>, s: Sys<D, C>, rdb: bool) {
    BaseName(p.filename, 1, rdb) in s.files && s.files[BaseName(p.filename, 1, rdb)] == Snapshot(p.empty)
  }

  lemma FirstFiles<D(!new), C(!new)>(p: Params<D, C>, s: Sys<D, C>)
    requires Fresh(p, s)
    ensures forall rdb :: Fresh(p, FirstBase(p, s, rdb))
    ensures s.boot.BaseMade? ==> Fresh(p, FirstIncr(p, s))
    ensures Fresh(p, s.(boot := NoManifest))
  {
    BaseIsNotIncr(p.filename, 1, 1, true);
    BaseIsNotIncr(p.filename, 1, 1, false);
    hide BaseName, IncrName, ValidFilename;
  }

  ghost predicate Reached<D(!new), C(!new)>(p: Params<D, C>, s: Sys<D, C>) { if s.boot.Booted? then Inv(p, s) else Fresh(p, s) }

  /** Every enabled step keeps the invariant. */
  lemma StepKeeps<D(!new), C(!new)>(p: Params<D, C>, s: Sys<D, C>, a: Action<C>)
    requires Reached(p, s) && Enabled(s, a)
    ensures Reached(p, Step(p, s, a))
  {
    hide Inv, Fresh, Written, FlushFirst, Started, IncrCreated, IncrPersisted, BaseRenamed, BasePersisted, BaseUndone, Torn, ShutDown;
    hide HistoryUnlinked, Cleaned, Restarted, ResetPersisted, FirstBase, FirstIncr, FirstPersisted, Writable, Present, Startable;
    if s.boot.Booted? {
      BootedStep(p, s, a);
      InvBooted(p, Step(p, s, a));
    } else {
      FreshIsDown(p, s);
      FirstFiles(p, s);
      StillFresh(p, s, a);
      match a
      case BootBase(rdb) => assert Fresh(p, FirstBase(p, s, rdb));
      case BootIncr => assert Fresh(p, FirstIncr(p, s));
      case BootPersist(off, ok) => if ok { FirstKeeps(p, s, off); InvBooted(p, FirstPersisted(p, s, off)); }
      case BootCrash =>
    }
  }

  lemma StillFresh<D(!new), C(!new)>(p: Params<D, C>, s: Sys<D, C>, a: Action<C>)
    requires !s.boot.Booted?
    ensures a.BootBase? ==> !FirstBase(p, s, a.rdb).boot.Booted?
    ensures a.BootIncr? && s.boot.BaseMade? ==> !FirstIncr(p, s).boot.Booted?
    ensures a.Restart? ==> !Startable(s, a.loadTruncated)
  {
  }

  lemma InvBooted<D(!new), C(!new)>(p: Params<D, C>, s: Sys<D, C>)
    requires Inv(p, s)
    ensures s.boot.Booted?
  {
    hide DiskOk, TextOk;
  }

  lemma FreshIsDown<D(!new), C(!new)>(p: Params<D, C>, s: Sys<D, C>)
    requires Fresh(p, s)
    ensures !s.up && !s.boot.Booted? && s.log == []
  {
  }

  lemma BootedStep<D(!new), C(!new)>(p: Params<D, C>, s: Sys<D, C>, a: Action<C>)
    requires Inv(p, s) && s.boot.Booted? && Enabled(s, a)
    ensures Inv(p, Step(p, s, a))
  {
    hide Inv, Written, FlushFirst, Started, IncrCreated, IncrPersisted, BaseRenamed, BasePersisted, BaseUndone, Torn, ShutDown;
    hide HistoryUnlinked, Cleaned, Restarted, ResetPersisted, Writable, Present, Startable, Survives, WithinLimit, EndsTorn;
    match a
    case Write(db, cmd) => WriteKeeps(p, s, db, cmd);
    case Flush(k) => FlushKeeps(p, s, k);
    case StartRewrite => StartKeeps(p, s);
    case CreateIncr(ok, off) => if ok { CreateIncrKeeps(p, s, off); } else { BackToIdle(p, s); }
    case PersistIncr(ok) => if ok { PersistIncrKeeps(p, s, s.pc.replOffset); } else { BackToIdle(p, s); }
    case Fork(ok) => ForkKeeps(p, s, ok);
    case ChildFails => DropChild(p, s);
    case ChildDone(ok, rdb) => if ok { RenameKeeps(p, s, rdb); } else { DropChild(p, s); }
    case PersistBase(ok) => if ok { PersistBaseKeeps(p, s, s.pc.rdb); } else { UndoKeeps(p, s, s.pc.rdb); }
    case SkipCleaning => BackToIdle(p, s);
    case UnlinkHistory => UnlinkKeeps(p, s);
    case PersistClean(ok) => CleanKeeps(p, s, ok);
    case Shutdown(off, ok) => ShutdownKeeps(p, s, off, ok);
    case Crash(torn) => if torn { TornKeeps(p, s); } else { CrashKeeps(p, s); }
    case Restart(loadTruncated) => RestartKeeps(p, s, loadTruncated);
    case PersistReset(ok) => ResetKeeps(p, s, ok);
  }

  lemma DropChild<D(!new), C(!new)>(p: Params<D, C>, s: Sys<D, C>)
    requires Inv(p, s) && s.up && s.pc.Idle?
    ensures Inv(p, s.(child := None))
  {
    hide DiskOk, MemoryOk, TextOk, WellFormed;
    ForgetChild(p, s);
  }

  lemma CrashKeeps<D(!new), C(!new)>(p: Params<D, C>, s: Sys<D, C>)
    requires Inv(p, s)
    ensures Inv(p, s.(up := false))
  {
    hide DiskOk, TextOk;
  }

  // ---------------------------------------------------------------------
  // All runs

  /** A run; an action that is not possible where it comes is skipped. */
  function Run<D(!new), C(!new)>(p: Params<D, C>, s: Sys<D, C>, actions: seq<Action<C>>): Sys<D, C>
    decreases |actions|
  {
    if actions == [] then s
    else Run(p, if Enabled(s, actions[0]) then Step(p, s, actions[0]) else s, actions[1..])
  }

  lemma {:induction false} RunKeeps<D(!new), C(!new)>(p: Params<D, C>, s: Sys<D, C>, actions: seq<Action<C>>)
    requires Reached(p, s)
    ensures Reached(p, Run(p, s, actions))
    decreases |actions|
  {
    hide Reached, Enabled, Step;
    if actions != [] {
      if Enabled(s, actions[0]) {
        StepKeeps(p, s, actions[0]);
        RunKeeps(p, Step(p, s, actions[0]), actions[1..]);
      } else {
        RunKeeps(p, s, actions[1..]);
      }
    }
  }

  lemma FirstNumbered(filename: string, rdb: bool, off: nat)
    ensures var m := FirstManifest(filename, rdb, off);
      && Numbered(filename, m) && |m.incr| == 1 && m.base.Some?
      && m.base.value.name == BaseName(filename, 1, rdb) && m.incr[0].name == IncrName(filename, 1)
  {
    hide BaseName, IncrName;
  }

  lemma FirstText(filename: string, rdb: bool, off: nat)
    requires ValidFilename(filename)
    ensures var m := FirstManifest(filename, rdb, off);
      TextOk(filename, Lines(Infos(m)), Reloaded(m)) && WellFormed(m.(dirty := false), filename)
  {
    var b := NewBase(EMPTY, filename, rdb);
    EmptyWellFormed(filename);
    hide WellFormed, BaseName, IncrName, TextOk, ValidFilename;
    ChangeKeeps(EMPTY, filename, AddBase(rdb));
    ChangeKeeps(b, filename, AddIncr(off));
    TextPrinted(filename, NewIncr(b, filename, off));
  }

  /** The first start ends in a server whose empty dataset is on disk. */
  lemma FirstKeeps<D(!new), C(!new)>(p: Params<D, C>, s: Sys<D, C>, off: nat)
    requires Fresh(p, s) && s.boot.IncrMade?
    ensures Inv(p, FirstPersisted(p, s, off))
  {
    hide BaseName, IncrName, Numbered, Recover, FirstManifest, TextOk, WellFormed, Lines, Infos, ValidFilename;
    var m := FirstManifest(p.filename, s.boot.rdb, off);
    FirstText(p.filename, s.boot.rdb, off);
    FirstNumbered(p.filename, s.boot.rdb, off);
    BaseIsNotIncr(p.filename, 1, 1, s.boot.rdb);
    NumberedReloaded(p.filename, m);
    ReloadedLive(m);
    var t := FirstPersisted(p, s, off);
    assert Sound(t.files, t.disk);
    assert t.disk.incr == [t.disk.incr[0]];
    RecoverNewBase(p, t.files, t.disk, t.disk, p.empty);
    assert Logged(t) + t.buf == [] && t.log + t.buf == [];
  }

  /** In every reachable state, from an empty directory on and after any interleaving of
      first starts, writes, flushes, rewrites, fork, child, rename and persist failures,
      shutdowns, restarts and crashes, also within a record: a start can read the manifest
      on disk exactly if the configured file name survives being printed and no line is
      beyond the limit; then the files it names are there, and loading the BASE file and
      the INCR files gives exactly the dataset after the flushed writes. A running server
      holds that dataset plus the writes not yet flushed. */
  lemma EveryRunRecovers<D(!new), C(!new)>(p: Params<D, C>, actions: seq<Action<C>>)
    requires ValidFilename(p.filename)
    ensures var s := Run(p, Nothing(p), actions);
      && (!s.boot.Booted? ==> !s.up && s.log == [])
      && (s.boot.Booted? ==>
            && s.text == Lines(Infos(s.disk))
            && (Parsed(s.text).Ok? <==> Survives(p.filename) && WithinLimit(Infos(s.disk)))
            && (Parsed(s.text).Ok? ==>
                  && Present(s.files, Parsed(s.text).value)
                  && Recover(p, s.files, Parsed(s.text).value) == Execute(p, p.empty, s.log)))
      && (s.up ==> s.data == Execute(p, p.empty, s.log + s.buf))
  {
    hide Run, Numbered, Sound, Present, Recover, Execute, Parsed, Survives, WithinLimit, Lines, Infos, WellFormed, ValidFilename;
    assert Reached(p, Nothing(p)) by { hide BaseName, IncrName; }
    hide Nothing;
    RunKeeps(p, Nothing(p), actions);
    var s := Run(p, Nothing(p), actions);
    if s.boot.Booted? {
      TextParses(p.filename, s.text, s.disk);
    } else {
      FreshIsDown(p, s);
    }
  }

  /** When a server that is down can be started. */
  lemma WhenStartable<D(!new), C(!new)>(p: Params<D, C>, actions: seq<Action<C>>, loadTruncated: bool)
    requires ValidFilename(p.filename)
    ensures var s := Run(p, Nothing(p), actions);
      s.boot.Booted? && !s.up ==>
        (Startable(s, loadTruncated) <==> Survives(p.filename) && WithinLimit(Infos(s.disk)) && (EndsTorn(s) ==> loadTruncated))
  {
    hide Run, Startable, Survives, WithinLimit, Infos, EndsTorn, Inv, ValidFilename;
    assert Reached(p, Nothing(p)) by { hide BaseName, IncrName; }
    hide Nothing;
    RunKeeps(p, Nothing(p), actions);
    var s := Run(p, Nothing(p), actions);
    if s.boot.Booted? && !s.up {
      RestartKeeps(p, s, loadTruncated);
    }
  }

  /** With a file name that does not survive, no crash is ever followed by a start. */
  lemma NeverStarts<D(!new), C(!new)>(p: Params<D, C>, before: seq<Action<C>>, after: seq<Action<C>>)
    requires ValidFilename(p.filename) && !Survives(p.filename)
    requires var s := Run(p, Nothing(p), before); s.boot.Booted? && !s.up
    ensures !Run(p, Run(p, Nothing(p), before), after).up
  {
    hide ValidFilename, Survives, Run, Inv;
    assert Reached(p, Nothing(p)) by { hide BaseName, IncrName; }
    hide Nothing;
    RunKeeps(p, Nothing(p), before);
    StaysDown(p, Run(p, Nothing(p), before), after);
  }

  lemma {:induction false} StaysDown<D(!new), C(!new)>(p: Params<D, C>, s: Sys<D, C>, actions: seq<Action<C>>)
    requires Inv(p, s) && s.boot.Booted? && !Survives(p.filename) && !s.up
    ensures !Run(p, s, actions).up
    decreases |actions|
  {
    hide Survives, Inv, Startable, Step;
    if actions != [] {
      RestartKeeps(p, s, true);
      RestartKeeps(p, s, false);
      assert !Enabled(s, actions[0]);
      StaysDown(p, s, actions[1..]);
    }
  }

  /** Flushed writes are never taken back. */
  lemma {:induction false} LogGrows<D(!new), C(!new)>(p: Params<D, C>, s: Sys<D, C>, actions: seq<Action<C>>)
    ensures s.log <= Run(p, s, actions).log
    decreases |actions|
  {
    if actions != [] {
      LogGrows(p, if Enabled(s, actions[0]) then Step(p, s, actions[0]) else s, actions[1..]);
    }
  }
}
