/** The bytes of an INCR file (aof.c): what the loader makes of the records of the rewrite
    protocol, and of a record torn by a crash. */
module AofRecords {
  import opened Base
  import opened Decimal
  import opened AofLog
  import P = AofProtocol

  type Record = P.Rec<Command>

  /** A command outside transactions, within the machine's ranges. */
  ghost predicate RecordOk(r: Record, lookup: Lookup) {
    && (r.select.Some? ==> 0 <= r.select.value < 0x8000_0000)
    && Fits(r.cmd) && !IsSelect(r.cmd) && lookup(r.cmd).Other?
  }

  ghost predicate AllOk(recs: seq<Record>, lookup: Lookup) { forall i | 0 <= i < |recs| :: RecordOk(recs[i], lookup) }

  /** SELECT, if any, and the command. */
  function CommandsOf(r: Record): seq<Command> {
    if r.select.Some? && r.select.value >= 0 then [Select(r.select.value), r.cmd] else [r.cmd]
  }

  function AllCommands(recs: seq<Record>): seq<Command> {
    if recs == [] then [] else CommandsOf(recs[0]) + AllCommands(recs[1..])
  }

  /** Running commands in the databases they are placed in. */
  function RunPlaced<D(!new)>(p: P.Params<D, Command>, d: D, placed: seq<(int, Command)>): D
    decreases |placed|
  {
    if placed == [] then d else RunPlaced(p, p.apply(d, placed[0].0, placed[0].1), placed[1..])
  }

  lemma {:induction false} AllCommandsAppend(a: seq<Record>, b: seq<Record>)
    ensures AllCommands(a + b) == AllCommands(a) + AllCommands(b)
    decreases |a|
  {
    if a == [] {
      assert a + b == b;
    } else {
      assert (a + b)[1..] == a[1..] + b;
      AllCommandsAppend(a[1..], b);
    }
  }

  lemma OneRecord(r: Record)
    ensures AllCommands([r]) == CommandsOf(r)
  {
    assert [r][1..] == [];
  }

  /** The replay of the protocol runs the commands where the log places them. */
  lemma {:induction false} ReplayIsRun<D(!new)>(p: P.Params<D, Command>, d: D, cur: int, recs: seq<Record>, lookup: Lookup)
    requires AllOk(recs, lookup)
    ensures RunPlaced(p, d, Placed(AllCommands(recs), cur)) == P.Replay(p, d, cur, recs)
    decreases |recs|
  {
    if recs != [] {
      var r, tail := recs[0], AllCommands(recs[1..]);
      var db := P.RunsIn(cur, r);
      assert RecordOk(r, lookup);
      assert forall i | 0 <= i < |recs[1..]| :: recs[1..][i] == recs[i + 1];
      ReplayIsRun(p, p.apply(d, db, r.cmd), db, recs[1..], lookup);
      PlacedRecord(r, cur, tail, lookup);
      hide Placed, RecordOk;
      var first := [(db, r.cmd)];
      assert (first + Placed(tail, db))[1..] == Placed(tail, db);
    }
  }

  lemma PlacedRecord(r: Record, cur: int, tail: seq<Command>, lookup: Lookup)
    requires RecordOk(r, lookup)
    ensures Placed(CommandsOf(r) + tail, cur) == [(P.RunsIn(cur, r), r.cmd)] + Placed(tail, P.RunsIn(cur, r))
  {
    var cmds := CommandsOf(r) + tail;
    assert ([r.cmd] + tail)[1..] == tail;
    if r.select.Some? {
      assert cmds[1..] == [r.cmd] + tail;
      SelectIsSelect(r.select.value);
      hide Lower;
    }
  }

  lemma {:induction false} RecordsLoadable(recs: seq<Record>, lookup: Lookup)
    requires AllOk(recs, lookup) && SelectKnown(lookup)
    ensures Loadable(AllCommands(recs), lookup) && forall cmd | cmd in AllCommands(recs) :: lookup(cmd).Other?
  {
    if recs != [] {
      assert RecordOk(recs[0], lookup);
      assert forall i | 0 <= i < |recs[1..]| :: recs[1..][i] == recs[i + 1];
      RecordsLoadable(recs[1..], lookup);
      if recs[0].select.Some? {
        ShortNumber(recs[0].select.value);
        assert lookup(Select(recs[0].select.value)).Other?;
      }
    }
  }

  /** The bytes of whole records load without error, and running them is the replay. */
  lemma WholeFile<D(!new)>(p: P.Params<D, Command>, d: D, recs: seq<Record>, cfg: Config, lookup: Lookup)
    requires AllOk(recs, lookup) && SelectKnown(lookup)
    ensures var r := LoadFile(EncodeAll(AllCommands(recs)), cfg, lookup);
      Clean(r) && RunPlaced(p, d, Placed(r.ran, 0)) == P.Replay(p, d, 0, recs)
  {
    var cmds := AllCommands(recs);
    RecordsLoadable(recs, lookup);
    ReplayIsRun(p, d, 0, recs, lookup);
    hide LoadFile, EncodeAll, Loadable, AllCommands, Placed, AllOk, SelectKnown;
    LoadWhole(cfg, lookup, cmds);
    RunPlain(cmds, lookup, Idle);
    assert [] + cmds == cmds;
  }

  lemma {:induction false} WholeSplit(a: seq<Command>, b: seq<Command>, n: nat)
    requires n >= |EncodeAll(a)|
    ensures Whole(a + b, n) == |a| + Whole(b, n - |EncodeAll(a)|)
    decreases |a|
  {
    hide Encode;
    if a == [] {
      assert a + b == b;
    } else {
      assert (a + b)[0] == a[0] && (a + b)[1..] == a[1..] + b;
      WholeSplit(a[1..], b, n - |Encode(a[0])|);
    }
  }

  /** At most the SELECT of a torn record is whole. */
  lemma TornRecord(r: Record, n: nat)
    requires n < |EncodeAll(CommandsOf(r))|
    ensures Whole(CommandsOf(r), n) <= 1 && Whole(CommandsOf(r), n) < |CommandsOf(r)|
    ensures var k := Whole(CommandsOf(r), n); k == 1 ==> r.select.Some? && r.select.value >= 0 && CommandsOf(r)[..1] == [Select(r.select.value)]
  {
    var cmds := CommandsOf(r);
    var k := Whole(cmds, n);
    WholeFits(cmds, n);
    hide EncodeAll, Whole, Select;
    assert cmds[..|cmds|] == cmds;
  }

  /** A crash left `n` bytes of a log with a torn last record: the records in front of it
      are run and nothing else, exactly as the replay of the protocol does. If the file may
      be cut, the next load is clean and runs the same. */
  lemma TornFile<D(!new)>(p: P.Params<D, Command>, d: D, recs: seq<Record>, next: Record, n: nat, cfg: Config, lookup: Lookup)
    requires AllOk(recs, lookup) && RecordOk(next, lookup) && SelectKnown(lookup)
    requires |EncodeAll(AllCommands(recs))| < n < |EncodeAll(AllCommands(recs + [next]))|
    ensures var f := EncodeAll(AllCommands(recs + [next]))[..n]; var r := LoadFile(f, cfg, lookup);
      && RunPlaced(p, d, Placed(r.ran, 0)) == P.Replay(p, d, 0, recs)
      && (Truncates(cfg) ==> Clean(LoadFile(FileAfter(f, r), cfg, lookup)) && LoadFile(FileAfter(f, r), cfg, lookup).ran == r.ran)
  {
    var cmds := AllCommands(recs + [next]);
    TornDone(recs, next, n);
    assert AllOk(recs + [next], lookup);
    RecordsLoadable(recs + [next], lookup);
    ReplayIsRun(p, d, 0, recs, lookup);
    TornRuns(cfg, lookup, cmds, n);
    var a, done := AllCommands(recs), cmds[..Whole(cmds, n)];
    hide AllCommands, Whole, EncodeAll, LoadFile, FileAfter, RecordOk, AllOk, Placed, Select;
    if done != a {
      PlacedSelect(a, next.select.value, 0);
    }
  }

  lemma TornDone(recs: seq<Record>, next: Record, n: nat)
    requires |EncodeAll(AllCommands(recs))| < n < |EncodeAll(AllCommands(recs + [next]))|
    ensures var a, cmds := AllCommands(recs), AllCommands(recs + [next]); var done := cmds[..Whole(cmds, n)];
      done == a || (next.select.Some? && next.select.value >= 0 && done == a + [Select(next.select.value)])
  {
    hide AllCommands, EncodeAll, Whole, Select, CommandsOf;
    var a, b := AllCommands(recs), CommandsOf(next);
    AllCommandsAppend(recs, [next]);
    OneRecord(next);
    EncodeAllAppend(a, b);
    WholeSplit(a, b, n);
    TornRecord(next, n - |EncodeAll(a)|);
    FirstFew(a, b, Whole(b, n - |EncodeAll(a)|));
  }

  lemma FirstFew(a: seq<Command>, b: seq<Command>, k: nat)
    requires k <= |b|
    ensures (a + b)[..|a| + k] == a + b[..k] && (k == 0 ==> a + b[..k] == a)
  {
  }

  /** Loading any part of a log without transactions. */
  lemma TornRuns(cfg: Config, lookup: Lookup, cmds: seq<Command>, n: nat)
    requires Loadable(cmds, lookup) && (forall cmd | cmd in cmds :: lookup(cmd).Other?) && 0 < n <= |EncodeAll(cmds)|
    ensures var f := EncodeAll(cmds)[..n]; var r := LoadFile(f, cfg, lookup);
      && r.ran == cmds[..Whole(cmds, n)]
      && (Truncates(cfg) ==> Clean(LoadFile(FileAfter(f, r), cfg, lookup)) && LoadFile(FileAfter(f, r), cfg, lookup).ran == r.ran)
  {
    var done := cmds[..Whole(cmds, n)];
    assert forall cmd | cmd in done :: cmd in cmds;
    RunPlain(done, lookup, Idle);
    assert [] + done == done;
    PlainFlat(cmds, lookup, Idle);
    hide EncodeAll, LoadFile, Whole, Loadable, RunAll, FileAfter, Flat, LastMulti;
    LoadCut(cfg, lookup, cmds, n);
    ReloadCut(cfg, lookup, cmds, n);
    SecondLoad(cfg, lookup, cmds, n);
  }

  lemma {:induction false} PlainFlat(cmds: seq<Command>, lookup: Lookup, c: Client)
    requires forall cmd | cmd in cmds :: lookup(cmd).Other?
    ensures Flat(cmds, lookup, c)
    decreases |cmds|
  {
    if cmds != [] {
      assert lookup(cmds[0]).Other?;
      PlainFlat(cmds[1..], lookup, c.Run(cmds[0], lookup(cmds[0])));
    }
  }
}
