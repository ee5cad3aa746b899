/** The dataset rewriter (aof.c): variadic commands in bounded chunks whose replay from
    an empty server rebuilds the same databases. */
module AofRewrite {
  import opened Base
  import opened Decimal
  import opened AofLog

  // ---------------------------------------------------------------------
  // Objects as the rewriter iterates over them

  /** A stored string, raw or integer encoded. */
  datatype Item = Raw(s: string) | Int(n: int) {
    function Text(): string { if Raw? then s else Show(n) }
  }

  /** Elements in iteration order; a score is the text its double is printed as. */
  datatype Obj =
    | StrObj(value: Item)
    | ListObj(items: seq<Item>)
    | SetObj(items: seq<Item>)
    | ZSetObj(scored: seq<(Item, string)>)
    | HashObj(fields: seq<(Item, Item)>)

  /** A key with its object and its expiry time, -1 for none. */
  datatype Entry = Entry(key: string, obj: Obj, expire: int)

  /** The arguments contributed by each element. */
  function Groups(o: Obj): seq<Command> {
    match o
    case StrObj(_) => []
    case ListObj(items) => seq(|items|, i requires 0 <= i < |items| => [items[i].Text()])
    case SetObj(items) => seq(|items|, i requires 0 <= i < |items| => [items[i].Text()])
    case ZSetObj(scored) => seq(|scored|, i requires 0 <= i < |scored| => [scored[i].1, scored[i].0.Text()])
    case HashObj(fields) => seq(|fields|, i requires 0 <= i < |fields| => [fields[i].0.Text(), fields[i].1.Text()])
  }

  datatype Aggregate = RPUSH | SADD | ZADD | HMSET {
    function Name(): string {
      match this case RPUSH => "RPUSH" case SADD => "SADD" case ZADD => "ZADD" case HMSET => "HMSET"
    }
    function Width(): (w: nat) ensures 1 <= w <= 2 { if RPUSH? || SADD? then 1 else 2 }
  }

  function AggregateOf(o: Obj): Aggregate
    requires !o.StrObj?
  {
    match o case ListObj(_) => RPUSH case SetObj(_) => SADD case ZSetObj(_) => ZADD case HashObj(_) => HMSET
  }

  predicate WidthOk(groups: seq<Command>, w: nat) { forall g | g in groups :: |g| == w }

  lemma GroupsHaveWidth(o: Obj)
    requires !o.StrObj?
    ensures WidthOk(Groups(o), AggregateOf(o).Width())
  {
  }

  // ---------------------------------------------------------------------
  // Chunks

  const ITEMS_PER_CMD := 64

  function Flatten(groups: seq<Command>): Command {
    if groups == [] then [] else groups[0] + Flatten(groups[1..])
  }

  function ChunkSize(n: nat): nat { if n > ITEMS_PER_CMD then ITEMS_PER_CMD else n }

  /** One variadic command for every ITEMS_PER_CMD elements, the last possibly shorter. */
  function Chunks(a: Aggregate, key: string, groups: seq<Command>): seq<Command>
    decreases |groups|
  {
    if groups == [] then []
    else
      var n := ChunkSize(|groups|);
      [[a.Name(), key] + Flatten(groups[..n])] + Chunks(a, key, groups[n..])
  }

  lemma {:induction false} FlattenLength(groups: seq<Command>, w: nat)
    requires WidthOk(groups, w)
    ensures |Flatten(groups)| == w * |groups|
  {
    if groups != [] {
      FlattenLength(groups[1..], w);
      assert groups[0] in groups;
      MulStep(w, |groups|);
    }
  }

  lemma MulStep(w: nat, n: nat)
    requires n >= 1
    ensures w * n == w + w * (n - 1)
  {
  }

  /** What is still to be written when element `i` comes next and the current chunk,
      which ends before element `end`, has begun. */
  ghost function Pending(a: Aggregate, key: string, groups: seq<Command>, i: nat, end: nat): string
    requires i <= end <= |groups|
  {
    EncodeArgs(Flatten(groups[i..end])) + EncodeAll(Chunks(a, key, groups[end..]))
  }

  lemma ChunksUnfold(a: Aggregate, key: string, groups: seq<Command>)
    requires groups != []
    ensures var n := ChunkSize(|groups|);
      Chunks(a, key, groups) == [[a.Name(), key] + Flatten(groups[..n])] + Chunks(a, key, groups[n..])
  {
  }

  /** The first chunk is a header that counts exactly the arguments following it. */
  lemma FirstChunk(a: Aggregate, key: string, groups: seq<Command>, i: nat)
    requires i < |groups| && WidthOk(groups, a.Width())
    ensures var n := ChunkSize(|groups| - i);
      EncodeAll(Chunks(a, key, groups[i..])) == ChunkHeader(a, key, n) + Pending(a, key, groups, i, i + n)
  {
    hide EncodeArgs, EncodeAll, Flatten, Chunks, ChunkHeader, WidthOk;
    var n := ChunkSize(|groups| - i);
    var chunk := groups[i..i + n];
    ChunksUnfold(a, key, groups[i..]);
    assert groups[i..][..n] == chunk && groups[i..][n..] == groups[i + n..];
    PartWidth(groups, a.Width(), i, i + n);
    FlattenLength(chunk, a.Width());
    ChunkBytes(a, key, chunk, Chunks(a, key, groups[i + n..]));
  }

  lemma PartWidth(groups: seq<Command>, w: nat, i: nat, j: nat)
    requires WidthOk(groups, w) && i <= j <= |groups|
    ensures WidthOk(groups[i..j], w)
  {
  }

  lemma ChunkBytes(a: Aggregate, key: string, chunk: seq<Command>, rest: seq<Command>)
    requires |Flatten(chunk)| == a.Width() * |chunk|
    ensures EncodeAll([[a.Name(), key] + Flatten(chunk)] + rest) ==
      ChunkHeader(a, key, |chunk|) + (EncodeArgs(Flatten(chunk)) + EncodeAll(rest))
  {
    hide Header, EncodeArg, EncodeArgs, EncodeAll, Encode, Flatten, ChunkHeader;
    CountedHeader(a, key, |chunk|, |Flatten(chunk)|);
    EncodeVariadic(a.Name(), key, Flatten(chunk));
    FirstEncoded([a.Name(), key] + Flatten(chunk), rest);
    var args := EncodeArgs(Flatten(chunk));
    assert ChunkHeader(a, key, |chunk|) + args + EncodeAll(rest) == ChunkHeader(a, key, |chunk|) + (args + EncodeAll(rest));
  }

  lemma CountedHeader(a: Aggregate, key: string, n: nat, count: nat)
    requires count == n * a.Width() || count == a.Width() * n
    ensures Header('*', 2 + count) + EncodeArg(a.Name()) + EncodeArg(key) == ChunkHeader(a, key, n)
  {
    hide Header, EncodeArg;
  }

  function ChunkHeader(a: Aggregate, key: string, n: nat): string {
    Header('*', 2 + n * a.Width()) + EncodeArg(a.Name()) + EncodeArg(key)
  }

  lemma EncodeVariadic(name: string, key: string, args: Command)
    ensures Encode([name, key] + args) == Header('*', 2 + |args|) + EncodeArg(name) + EncodeArg(key) + EncodeArgs(args)
  {
    hide Header, EncodeArg, EncodeArgs;
    assert [name, key] + args == [name] + ([key] + args);
    EncodeCons(name, [key] + args);
    EncodeCons(key, args);
  }

  lemma EncodeCons(arg: string, rest: Command)
    ensures EncodeArgs([arg] + rest) == EncodeArg(arg) + EncodeArgs(rest)
  {
    hide EncodeArg;
    assert ([arg] + rest)[1..] == rest;
  }

  lemma FirstEncoded(cmd: Command, rest: seq<Command>)
    ensures EncodeAll([cmd] + rest) == Encode(cmd) + EncodeAll(rest)
  {
    assert ([cmd] + rest)[1..] == rest;
  }

  lemma PendingStep(a: Aggregate, key: string, groups: seq<Command>, i: nat, end: nat)
    requires i < end <= |groups|
    ensures Pending(a, key, groups, i, end) == EncodeArgs(groups[i]) + Pending(a, key, groups, i + 1, end)
  {
    hide EncodeAll, EncodeArgs, Chunks;
    assert groups[i..end] == [groups[i]] + groups[i + 1..end];
    assert groups[i..end][1..] == groups[i + 1..end];
    EncodeArgsAppend(groups[i], Flatten(groups[i + 1..end]));
  }

  lemma PendingDone(a: Aggregate, key: string, groups: seq<Command>, i: nat)
    requires i <= |groups|
    ensures Pending(a, key, groups, i, i) == EncodeAll(Chunks(a, key, groups[i..]))
  {
    assert groups[i..i] == [];
  }

  lemma NothingPending(a: Aggregate, key: string, groups: seq<Command>)
    ensures EncodeAll(Chunks(a, key, groups[|groups|..])) == ""
  {
  }

  lemma OpenChunk(out: string, all: string, a: Aggregate, key: string, groups: seq<Command>, i: nat)
    requires i < |groups| && WidthOk(groups, a.Width()) && out + EncodeAll(Chunks(a, key, groups[i..])) == all
    ensures var n := ChunkSize(|groups| - i); out + ChunkHeader(a, key, n) + Pending(a, key, groups, i, i + n) == all
  {
    hide EncodeAll, Chunks, Pending, ChunkHeader;
    FirstChunk(a, key, groups, i);
  }

  lemma WriteElement(out: string, all: string, a: Aggregate, key: string, groups: seq<Command>, i: nat, end: nat)
    requires i < end <= |groups| && out + Pending(a, key, groups, i, end) == all
    ensures out + EncodeArgs(groups[i]) + Pending(a, key, groups, i + 1, end) == all
  {
    hide Pending, EncodeArgs;
    PendingStep(a, key, groups, i, end);
  }

  /** The common loop of `rewriteListObject`, `rewriteSetObject`, `rewriteSortedSetObject`
      and `rewriteHashObject`. */
  method RewriteItems(out0: string, a: Aggregate, key: string, groups: seq<Command>) returns (out: string)
    requires WidthOk(groups, a.Width())
    ensures out == out0 + EncodeAll(Chunks(a, key, groups))
  {
    hide EncodeAll, Chunks, EncodeArgs, EncodeArg, Header, Pending, WidthOk;
    ghost var all := out0 + EncodeAll(Chunks(a, key, groups));
    out := out0;
    var count, items := 0, |groups|;
    ghost var end := 0;
    assert groups[0..] == groups;
    for i := 0 to |groups|
      invariant items == |groups| - i && 0 <= count < ITEMS_PER_CMD
      invariant count == 0 ==> out + EncodeAll(Chunks(a, key, groups[i..])) == all
      invariant count != 0 ==> i <= end <= |groups| && (end == i + ITEMS_PER_CMD - count || end == |groups| < i + ITEMS_PER_CMD - count)
      invariant count != 0 ==> out + Pending(a, key, groups, i, end) == all
    {
      if count == 0 {
        var cmdItems := ChunkSize(items);
        OpenChunk(out, all, a, key, groups, i);
        end := i + cmdItems;
        out := out + ChunkHeader(a, key, cmdItems);
      }
      WriteElement(out, all, a, key, groups, i, end);
      out := out + EncodeArgs(groups[i]);
      PendingDone(a, key, groups, i + 1);
      count := count + 1;
      if count == ITEMS_PER_CMD { count := 0; }
      items := items - 1;
    }
    NothingPending(a, key, groups);
    PendingDone(a, key, groups, |groups|);
  }

  // ---------------------------------------------------------------------
  // Whole keys and databases

  function KeyCommands(e: Entry): seq<Command> {
    ValueCommands(e) + ExpireCommands(e)
  }

  function DbCommands(entries: seq<Entry>): seq<Command> {
    if entries == [] then [] else KeyCommands(entries[0]) + DbCommands(entries[1..])
  }

  /** The log of databases `j, j+1, ..`; an empty database is skipped. */
  function AllCommands(dbs: seq<seq<Entry>>, j: nat): seq<Command> {
    if dbs == [] then []
    else (if dbs[0] == [] then [] else [Select(j)] + DbCommands(dbs[0])) + AllCommands(dbs[1..], j + 1)
  }

  lemma ThreeArgs(a: string, b: string, c: string)
    ensures EncodeAll([[a, b, c]]) == Header('*', 3) + EncodeArg(a) + EncodeArg(b) + EncodeArg(c)
  {
    hide Header, EncodeArg;
    FirstEncoded([a, b, c], []);
    assert [a, b, c] == [a, b] + [c];
    EncodeVariadic(a, b, [c]);
    EncodeCons(c, []);
    assert [c] + [] == [c];
  }

  /** The constant texts in front of SET and PEXPIREAT. */
  lemma ConstantHeaders()
    ensures Header('*', 3) + EncodeArg("SET") == "*3\r\n$3\r\nSET\r\n"
    ensures Header('*', 3) + EncodeArg("PEXPIREAT") == "*3\r\n$9\r\nPEXPIREAT\r\n"
  {
    assert Digits(3) == "3" && Digits(9) == "9";
  }

  lemma SetText(key: string, value: string)
    ensures EncodeAll([["SET", key, value]]) == "*3\r\n$3\r\nSET\r\n" + EncodeArg(key) + EncodeArg(value)
  {
    ConstantHeaders();
    hide Header, EncodeArg;
    ThreeArgs("SET", key, value);
  }

  lemma ExpireText(key: string, value: string)
    ensures EncodeAll([["PEXPIREAT", key, value]]) == "*3\r\n$9\r\nPEXPIREAT\r\n" + EncodeArg(key) + EncodeArg(value)
  {
    ConstantHeaders();
    hide Header, EncodeArg;
    ThreeArgs("PEXPIREAT", key, value);
  }

  function ValueCommands(e: Entry): seq<Command> {
    if e.obj.StrObj? then [["SET", e.key, e.obj.value.Text()]] else Chunks(AggregateOf(e.obj), e.key, Groups(e.obj))
  }

  function ExpireCommands(e: Entry): seq<Command> {
    if e.expire != -1 then [["PEXPIREAT", e.key, Show(e.expire)]] else []
  }

  method RewriteObject(out0: string, e: Entry) returns (out: string)
    ensures out == out0 + EncodeAll(KeyCommands(e))
  {
    hide EncodeAll, EncodeArg, Chunks, Groups, Show;
    if e.obj.StrObj? {
      SetText(e.key, e.obj.value.Text());
      out := out0 + ("*3\r\n$3\r\nSET\r\n" + EncodeArg(e.key) + EncodeArg(e.obj.value.Text()));
    } else {
      GroupsHaveWidth(e.obj);
      out := RewriteItems(out0, AggregateOf(e.obj), e.key, Groups(e.obj));
    }
    assert out == out0 + EncodeAll(ValueCommands(e));
    EncodeAllAppend(ValueCommands(e), ExpireCommands(e));
    EncodeNothing();
    if e.expire != -1 {
      ExpireText(e.key, Show(e.expire));
      out := out + ("*3\r\n$9\r\nPEXPIREAT\r\n" + EncodeArg(e.key) + EncodeArg(Show(e.expire)));
    }
  }

  lemma SelectHeader(j: nat)
    ensures "*2\r\n$6\r\nSELECT\r\n" + EncodeArg(Digits(j)) == Encode(Select(j))
  {
    SelectConstant();
    TwoArgs("SELECT", Digits(j));
  }

  /** `rewriteAppendOnlyFileRio` without timestamps, functions and slot trimming. */
  method RewriteAppendOnlyFileRio(dbs: seq<seq<Entry>>) returns (out: string)
    ensures out == EncodeAll(AllCommands(dbs, 0))
  {
    hide EncodeAll, Encode, EncodeArg, KeyCommands;
    out := "";
    assert dbs[0..] == dbs;
    for j := 0 to |dbs|
      invariant out + EncodeAll(AllCommands(dbs[j..], j)) == EncodeAll(AllCommands(dbs, 0))
    {
      var db := dbs[j];
      ghost var rest := AllCommands(dbs[j + 1..], j + 1);
      assert dbs[j..][1..] == dbs[j + 1..];
      if |db| == 0 {
        assert [] + rest == rest;
        continue;
      }
      SelectHeader(j);
      FirstEncoded(Select(j), DbCommands(db) + rest);
      assert [Select(j)] + DbCommands(db) + rest == [Select(j)] + (DbCommands(db) + rest);
      out := out + ("*2\r\n$6\r\nSELECT\r\n" + EncodeArg(Digits(j)));
      assert db[0..] == db;
      for i := 0 to |db|
        invariant out + EncodeAll(DbCommands(db[i..]) + rest) == EncodeAll(AllCommands(dbs, 0))
      {
        assert db[i..][1..] == db[i + 1..];
        EncodeAllAppend(KeyCommands(db[i]), DbCommands(db[i + 1..]) + rest);
        assert KeyCommands(db[i]) + (DbCommands(db[i + 1..]) + rest) == DbCommands(db[i..]) + rest;
        out := RewriteObject(out, db[i]);
      }
      assert DbCommands(db[|db|..]) + rest == rest;
    }
    EncodeNothing();
  }

  // ---------------------------------------------------------------------
  // Replaying

  datatype Value =
    | VStr(s: string)
    | VList(l: seq<string>)
    | VSet(m: set<string>)
    | VZSet(scores: map<string, string>)
    | VHash(fields: map<string, string>)

  function PairsToMap(pairs: seq<(string, string)>): map<string, string> {
    if pairs == [] then map[]
    else var n := |pairs| - 1; PairsToMap(pairs[..n])[pairs[n].0 := pairs[n].1]
  }

  function ScorePairs(scored: seq<(Item, string)>): seq<(string, string)> {
    seq(|scored|, i requires 0 <= i < |scored| => (scored[i].0.Text(), scored[i].1))
  }

  function FieldPairs(fields: seq<(Item, Item)>): seq<(string, string)> {
    seq(|fields|, i requires 0 <= i < |fields| => (fields[i].0.Text(), fields[i].1.Text()))
  }

  /** The value an object stands for. */
  function ValueOf(o: Obj): Value {
    match o
    case StrObj(v) => VStr(v.Text())
    case ListObj(items) => VList(seq(|items|, i requires 0 <= i < |items| => items[i].Text()))
    case SetObj(items) => VSet(set i | 0 <= i < |items| :: items[i].Text())
    case ZSetObj(scored) => VZSet(PairsToMap(ScorePairs(scored)))
    case HashObj(fields) => VHash(PairsToMap(FieldPairs(fields)))
  }

  function Empty(a: Aggregate): Value {
    match a case RPUSH => VList([]) case SADD => VSet({}) case ZADD => VZSet(map[]) case HMSET => VHash(map[])
  }

  predicate HasType(v: Value, a: Aggregate) {
    match a case RPUSH => v.VList? case SADD => v.VSet? case ZADD => v.VZSet? case HMSET => v.VHash?
  }

  /** The effect of one element of a variadic command. */
  function Absorb(a: Aggregate, v: Value, g: Command): (r: Value)
    requires HasType(v, a) && |g| == a.Width()
    ensures HasType(r, a)
  {
    match a
    case RPUSH => VList(v.l + [g[0]])
    case SADD => VSet(v.m + {g[0]})
    case ZADD => VZSet(v.scores[g[1] := g[0]])
    case HMSET => VHash(v.fields[g[0] := g[1]])
  }

  function AbsorbAll(a: Aggregate, v: Value, groups: seq<Command>): (r: Value)
    requires HasType(v, a) && WidthOk(groups, a.Width())
    ensures HasType(r, a)
    decreases |groups|
  {
    if groups == [] then v else AbsorbAll(a, Absorb(a, v, groups[0]), groups[1..])
  }

  /** The effect of the argument tail of a variadic command. */
  function ApplyArgs(a: Aggregate, v: Value, args: Command): (r: Value)
    requires HasType(v, a)
    ensures HasType(r, a)
    decreases |args|
  {
    if |args| < a.Width() then v else ApplyArgs(a, Absorb(a, v, args[..a.Width()]), args[a.Width()..])
  }

  /** A value with its expiry time. */
  type Slot = (Value, Option<int>)

  /** The server during the replay: the selected database and all keys. */
  datatype Server = Server(db: int, data: map<(int, string), Slot>)

  function AggregateNamed(name: string): Option<Aggregate> {
    if name == "RPUSH" then Some(RPUSH) else if name == "SADD" then Some(SADD)
    else if name == "ZADD" then Some(ZADD) else if name == "HMSET" then Some(HMSET) else None
  }

  function Apply(st: Server, cmd: Command): Server {
    if |cmd| == 2 && cmd[0] == "SELECT" then st.(db := StrTol(cmd[1]))
    else if |cmd| < 3 then st
    else
      var at := (st.db, cmd[1]);
      if cmd[0] == "SET" then st.(data := st.data[at := (VStr(cmd[2]), None)])
      else if cmd[0] == "PEXPIREAT" then
        if at in st.data then st.(data := st.data[at := (st.data[at].0, Some(StrTol(cmd[2])))]) else st
      else match AggregateNamed(cmd[0])
        case None => st
        case Some(a) =>
          if at !in st.data then st.(data := st.data[at := (ApplyArgs(a, Empty(a), cmd[2..]), None)])
          else if HasType(st.data[at].0, a) then
            st.(data := st.data[at := (ApplyArgs(a, st.data[at].0, cmd[2..]), st.data[at].1)])
          else st
  }

  function ApplyAll(st: Server, cmds: seq<Command>): Server
    decreases |cmds|
  {
    if cmds == [] then st else ApplyAll(Apply(st, cmds[0]), cmds[1..])
  }

  lemma {:induction false} ApplyAllAppend(st: Server, a: seq<Command>, b: seq<Command>)
    ensures ApplyAll(st, a + b) == ApplyAll(ApplyAll(st, a), b)
    decreases |a|
  {
    hide Apply;
    if a == [] {
      assert a + b == b;
    } else {
      assert (a + b)[1..] == a[1..] + b;
      ApplyAllAppend(Apply(st, a[0]), a[1..], b);
    }
  }

  lemma {:induction false} AbsorbAllAppend(a: Aggregate, v: Value, g: seq<Command>, h: seq<Command>)
    requires HasType(v, a) && WidthOk(g, a.Width()) && WidthOk(h, a.Width())
    ensures WidthOk(g + h, a.Width()) && AbsorbAll(a, v, g + h) == AbsorbAll(a, AbsorbAll(a, v, g), h)
    decreases |g|
  {
    hide Absorb;
    if g == [] {
      assert g + h == h;
    } else {
      assert (g + h)[1..] == g[1..] + h;
      AbsorbAllAppend(a, Absorb(a, v, g[0]), g[1..], h);
    }
  }

  /** A flattened argument list is absorbed group by group. */
  lemma {:induction false} ApplyFlattened(a: Aggregate, v: Value, groups: seq<Command>)
    requires HasType(v, a) && WidthOk(groups, a.Width())
    ensures ApplyArgs(a, v, Flatten(groups)) == AbsorbAll(a, v, groups)
    decreases |groups|
  {
    hide Absorb;
    if groups != [] {
      var w := a.Width();
      assert groups[0] in groups;
      assert Flatten(groups)[..w] == groups[0] && Flatten(groups)[w..] == Flatten(groups[1..]);
      ApplyFlattened(a, Absorb(a, v, groups[0]), groups[1..]);
    }
  }

  /** The slot a variadic command for `key` starts from. */
  function Before(st: Server, a: Aggregate, key: string): Slot {
    if (st.db, key) in st.data then st.data[(st.db, key)] else (Empty(a), None)
  }

  function Put(st: Server, key: string, slot: Slot): Server {
    st.(data := st.data[(st.db, key) := slot])
  }

  lemma PutTwice(st: Server, a: Aggregate, key: string, first: Slot, second: Slot)
    ensures Before(Put(st, key, first), a, key) == first
    ensures Put(Put(st, key, first), key, second) == Put(st, key, second)
  {
    var at := (st.db, key);
    assert st.data[at := first][at := second] == st.data[at := second];
  }

  lemma ApplyVariadic(st: Server, a: Aggregate, key: string, args: Command)
    requires |args| >= 1 && HasType(Before(st, a, key).0, a)
    ensures Apply(st, [a.Name(), key] + args)
         == Put(st, key, (ApplyArgs(a, Before(st, a, key).0, args), Before(st, a, key).1))
  {
    NameIs(a);
    hide ApplyArgs, AggregateNamed, Aggregate.Name, HasType;
    var cmd := [a.Name(), key] + args;
    assert cmd[0] == a.Name() && cmd[1] == key && cmd[2..] == args;
  }

  lemma NameIs(a: Aggregate)
    ensures AggregateNamed(a.Name()) == Some(a) && a.Name() != "SELECT" && a.Name() != "SET" && a.Name() != "PEXPIREAT"
  {
  }

  lemma ApplyChunk(st: Server, a: Aggregate, key: string, groups: seq<Command>)
    requires WidthOk(groups, a.Width()) && groups != []
    requires HasType(Before(st, a, key).0, a)
    ensures Apply(st, [a.Name(), key] + Flatten(groups))
         == Put(st, key, (AbsorbAll(a, Before(st, a, key).0, groups), Before(st, a, key).1))
  {
    hide Apply, ApplyArgs, AbsorbAll, Before, Put, HasType;
    assert groups[0] in groups;
    FlattenLength(groups, a.Width());
    MulStep(a.Width(), |groups|);
    ApplyVariadic(st, a, key, Flatten(groups));
    ApplyFlattened(a, Before(st, a, key).0, groups);
  }

  /** Replaying the chunks of an object adds up its elements. */
  lemma {:induction false} ReplayChunks(st: Server, a: Aggregate, key: string, groups: seq<Command>)
    requires WidthOk(groups, a.Width()) && groups != []
    requires HasType(Before(st, a, key).0, a)
    ensures ApplyAll(st, Chunks(a, key, groups))
         == Put(st, key, (AbsorbAll(a, Before(st, a, key).0, groups), Before(st, a, key).1))
    decreases |groups|
  {
    hide Apply, ApplyAll, AbsorbAll, Flatten, Before, Put, HasType;
    var n, before := ChunkSize(|groups|), Before(st, a, key);
    var head, rest := groups[..n], groups[n..];
    ApplyChunk(st, a, key, head);
    ApplyFirst(st, [a.Name(), key] + Flatten(head), Chunks(a, key, rest));
    var slot := (AbsorbAll(a, before.0, head), before.1);
    if rest == [] {
      assert groups == head;
      ApplyNone(Put(st, key, slot));
    } else {
      assert groups == head + rest;
      PutTwice(st, a, key, slot, (AbsorbAll(a, before.0, groups), before.1));
      AbsorbAllAppend(a, before.0, head, rest);
      ReplayChunks(Put(st, key, slot), a, key, rest);
    }
  }

  lemma ApplyNone(st: Server)
    ensures ApplyAll(st, []) == st
  {
  }

  lemma ApplyFirst(st: Server, cmd: Command, rest: seq<Command>)
    ensures ApplyAll(st, [cmd] + rest) == ApplyAll(Apply(st, cmd), rest)
  {
    hide Apply;
    assert ([cmd] + rest)[1..] == rest;
  }

  /** The object made of the first `k` elements. */
  function FirstOf(o: Obj, k: nat): Obj
    requires !o.StrObj? && k <= |Groups(o)|
  {
    match o
    case ListObj(items) => ListObj(items[..k])
    case SetObj(items) => SetObj(items[..k])
    case ZSetObj(scored) => ZSetObj(scored[..k])
    case HashObj(fields) => HashObj(fields[..k])
  }

  lemma OneMorePair(pairs: seq<(string, string)>, x: (string, string))
    ensures PairsToMap(pairs + [x]) == PairsToMap(pairs)[x.0 := x.1]
  {
    assert (pairs + [x])[..|pairs|] == pairs;
  }

  lemma OneMoreScore(scored: seq<(Item, string)>, k: nat)
    requires k < |scored|
    ensures ScorePairs(scored[..k + 1]) == ScorePairs(scored[..k]) + [(scored[k].0.Text(), scored[k].1)]
  {
  }

  lemma OneMoreField(fields: seq<(Item, Item)>, k: nat)
    requires k < |fields|
    ensures FieldPairs(fields[..k + 1]) == FieldPairs(fields[..k]) + [(fields[k].0.Text(), fields[k].1.Text())]
  {
  }

  lemma ValueStep(o: Obj, k: nat)
    requires !o.StrObj? && k < |Groups(o)|
    ensures var a := AggregateOf(o); |Groups(o)[k]| == a.Width() && HasType(ValueOf(FirstOf(o, k)), a)
    ensures ValueOf(FirstOf(o, k + 1)) == Absorb(AggregateOf(o), ValueOf(FirstOf(o, k)), Groups(o)[k])
  {
    hide PairsToMap, ScorePairs, FieldPairs;
    match o
    case ListObj(items) => assert items[..k + 1][..k] == items[..k];
    case SetObj(items) =>
    case ZSetObj(scored) =>
      OneMoreScore(scored, k);
      OneMorePair(ScorePairs(scored[..k]), (scored[k].0.Text(), scored[k].1));
    case HashObj(fields) =>
      OneMoreField(fields, k);
      OneMorePair(FieldPairs(fields[..k]), (fields[k].0.Text(), fields[k].1.Text()));
  }

  lemma AbsorbOneMore(a: Aggregate, v: Value, g: seq<Command>, last: Command)
    requires HasType(v, a) && WidthOk(g, a.Width()) && |last| == a.Width()
    ensures WidthOk(g + [last], a.Width())
    ensures AbsorbAll(a, v, g + [last]) == Absorb(a, AbsorbAll(a, v, g), last)
  {
    hide Absorb;
    AbsorbAllAppend(a, v, g, [last]);
    assert [last][1..] == [];
  }

  lemma {:induction false} AbsorbElements(o: Obj, a: Aggregate, groups: seq<Command>, k: nat)
    requires !o.StrObj? && a == AggregateOf(o) && groups == Groups(o) && k <= |groups|
    requires WidthOk(groups, a.Width())
    ensures AbsorbAll(a, Empty(a), groups[..k]) == ValueOf(FirstOf(o, k))
  {
    hide Absorb, AbsorbAll, ValueOf, Groups, FirstOf, AggregateOf, Empty, HasType;
    if k == 0 {
      NoElements(o);
      AbsorbNone(a);
      assert groups[..0] == [];
    } else {
      AbsorbElements(o, a, groups, k - 1);
      ValueStep(o, k - 1);
      assert groups[..k] == groups[..k - 1] + [groups[k - 1]];
      EmptyHasType(a);
      AbsorbOneMore(a, Empty(a), groups[..k - 1], groups[k - 1]);
    }
  }

  lemma EmptyHasType(a: Aggregate)
    ensures HasType(Empty(a), a)
  {
  }

  lemma AbsorbNone(a: Aggregate)
    ensures HasType(Empty(a), a) && AbsorbAll(a, Empty(a), []) == Empty(a)
  {
  }

  lemma NoElements(o: Obj)
    requires !o.StrObj?
    ensures ValueOf(FirstOf(o, 0)) == Empty(AggregateOf(o))
  {
  }

  lemma WholeObject(o: Obj)
    requires !o.StrObj?
    ensures WidthOk(Groups(o), AggregateOf(o).Width())
    ensures AbsorbAll(AggregateOf(o), Empty(AggregateOf(o)), Groups(o)) == ValueOf(o)
  {
    GroupsHaveWidth(o);
    AbsorbElements(o, AggregateOf(o), Groups(o), |Groups(o)|);
    assert Groups(o)[..|Groups(o)|] == Groups(o);
    assert FirstOf(o, |Groups(o)|) == o;
  }

  // ---------------------------------------------------------------------
  // The whole dataset

  /** What the server keeps: aggregates are never stored empty. */
  predicate Stored(o: Obj) { o.StrObj? || Groups(o) != [] }

  function SlotOf(e: Entry): Slot { (ValueOf(e.obj), if e.expire != -1 then Some(e.expire) else None) }

  lemma ReplayValue(st: Server, e: Entry)
    requires (st.db, e.key) !in st.data && Stored(e.obj)
    ensures ApplyAll(st, ValueCommands(e)) == Put(st, e.key, (ValueOf(e.obj), None))
  {
    if e.obj.StrObj? {
      var cmd := ["SET", e.key, e.obj.value.Text()];
      assert [cmd] + [] == [cmd];
      ApplyFirst(st, cmd, []);
      ApplyNone(Apply(st, cmd));
    } else {
      hide ValueOf, Groups, Apply, ApplyAll, AbsorbAll, Chunks;
      WholeObject(e.obj);
      ReplayChunks(st, AggregateOf(e.obj), e.key, Groups(e.obj));
    }
  }

  lemma ReplayExpire(st: Server, e: Entry, v: Value)
    ensures ApplyAll(Put(st, e.key, (v, None)), ExpireCommands(e))
         == Put(st, e.key, (v, if e.expire != -1 then Some(e.expire) else None))
  {
    var st' := Put(st, e.key, (v, None));
    if e.expire == -1 {
      ApplyNone(st');
    } else {
      var cmd := ["PEXPIREAT", e.key, Show(e.expire)];
      assert [cmd] + [] == [cmd];
      ApplyFirst(st', cmd, []);
      ApplyNone(Apply(st', cmd));
      ParseShow(e.expire, "");
      assert Show(e.expire) + "" == Show(e.expire);
      PutTwice(st, RPUSH, e.key, (v, None), (v, Some(e.expire)));
      hide StrTol, Show, ApplyAll;
    }
  }

  lemma ReplayKey(st: Server, e: Entry)
    requires (st.db, e.key) !in st.data && Stored(e.obj)
    ensures ApplyAll(st, KeyCommands(e)) == Put(st, e.key, SlotOf(e))
  {
    hide ApplyAll, Put, ValueCommands, ExpireCommands, ValueOf;
    ApplyAllAppend(st, ValueCommands(e), ExpireCommands(e));
    ReplayValue(st, e);
    ReplayExpire(st, e, ValueOf(e.obj));
  }

  predicate DistinctKeys(entries: seq<Entry>) {
    forall i, j | 0 <= i < j < |entries| :: entries[i].key != entries[j].key
  }

  predicate WellFormed(entries: seq<Entry>) {
    DistinctKeys(entries) && forall e | e in entries :: Stored(e.obj)
  }

  /** The keys of one database added to a dataset. */
  function AddDb(data: map<(int, string), Slot>, db: int, entries: seq<Entry>): map<(int, string), Slot>
    decreases |entries|
  {
    if entries == [] then data else AddDb(data[(db, entries[0].key) := SlotOf(entries[0])], db, entries[1..])
  }

  predicate NoKeys(data: map<(int, string), Slot>, db: int, entries: seq<Entry>) {
    forall e | e in entries :: (db, e.key) !in data
  }

  lemma {:induction false} ReplayDb(st: Server, entries: seq<Entry>)
    requires WellFormed(entries) && NoKeys(st.data, st.db, entries)
    ensures ApplyAll(st, DbCommands(entries)) == st.(data := AddDb(st.data, st.db, entries))
    decreases |entries|
  {
    hide ApplyAll, KeyCommands, SlotOf, Stored;
    if entries == [] {
      ApplyNone(st);
    } else {
      var e, rest := entries[0], entries[1..];
      ReplayKey(st, e);
      ApplyAllAppend(st, KeyCommands(e), DbCommands(rest));
      ReplayDb(Put(st, e.key, SlotOf(e)), rest);
    }
  }

  /** What is in a dataset after adding a database. */
  lemma {:induction false} AddDbContents(data: map<(int, string), Slot>, db: int, entries: seq<Entry>, i: nat)
    requires DistinctKeys(entries)
    ensures var r := AddDb(data, db, entries);
      && (i < |entries| ==> (db, entries[i].key) in r && r[(db, entries[i].key)] == SlotOf(entries[i]))
      && (forall at | at in data && (at.0 != db || forall e | e in entries :: e.key != at.1) :: at in r && r[at] == data[at])
      && (forall at | at in r && at !in data :: at.0 == db && exists e :: e in entries && e.key == at.1)
    decreases |entries|
  {
    hide SlotOf;
    if entries != [] {
      var e, rest := entries[0], entries[1..];
      assert entries == [e] + rest;
      AddDbContents(data[(db, e.key) := SlotOf(e)], db, rest, if i == 0 then 0 else i - 1);
    }
  }

  /** A dataset with exactly the keys of the given databases, each with its value and
      its expiry time. */
  ghost predicate Holds(data: map<(int, string), Slot>, dbs: seq<seq<Entry>>) {
    && (forall d, i | 0 <= d < |dbs| && 0 <= i < |dbs[d]| ::
          (d, dbs[d][i].key) in data && data[(d, dbs[d][i].key)] == SlotOf(dbs[d][i]))
    && (forall at | at in data :: 0 <= at.0 < |dbs| && exists e :: e in dbs[at.0] && e.key == at.1)
  }

  lemma HoldsStep(data: map<(int, string), Slot>, dbs: seq<seq<Entry>>, j: nat)
    requires j < |dbs| && Holds(data, dbs[..j]) && DistinctKeys(dbs[j])
    ensures Holds(AddDb(data, j, dbs[j]), dbs[..j + 1])
  {
    hide SlotOf, DistinctKeys, AddDb;
    var r := AddDb(data, j, dbs[j]);
    AddDbContents(data, j, dbs[j], 0);
    var all: seq<seq<Entry>> := dbs[..j + 1];
    forall d, i | 0 <= d < |all| && 0 <= i < |all[d]|
      ensures (d, all[d][i].key) in r && r[(d, all[d][i].key)] == SlotOf(all[d][i])
    {
      if d == j {
        AddDbContents(data, j, dbs[j], i);
      } else {
        assert all[d] == dbs[..j][d];
      }
    }
  }

  lemma SelectDb(st: Server, j: nat)
    ensures Apply(st, Select(j)) == st.(db := j)
  {
    ParseDigits(j, "");
    assert Digits(j) + "" == Digits(j);
  }

  lemma {:induction false} ReplayFrom(dbs: seq<seq<Entry>>, j: nat, st: Server)
    requires j <= |dbs| && (forall db | db in dbs :: WellFormed(db)) && Holds(st.data, dbs[..j])
    ensures Holds(ApplyAll(st, AllCommands(dbs[j..], j)).data, dbs)
    decreases |dbs| - j
  {
    hide ApplyAll, Apply, WellFormed, DbCommands, AddDb, Holds;
    if j == |dbs| {
      ApplyNone(st);
      assert dbs[..j] == dbs;
    } else {
      var db, rest := dbs[j], AllCommands(dbs[j + 1..], j + 1);
      assert dbs[j..][1..] == dbs[j + 1..];
      DistinctOf(db);
      HoldsStep(st.data, dbs, j);
      if db == [] {
        assert [] + rest == rest;
        AddNothing(st.data, j);
        ReplayFrom(dbs, j + 1, st);
      } else {
        var st' := st.(db := j);
        SelectDb(st, j);
        NoKeysYet(st.data, dbs, j);
        ReplayDb(st', db);
        ApplyAllAppend(st', DbCommands(db), rest);
        assert [Select(j)] + DbCommands(db) + rest == [Select(j)] + (DbCommands(db) + rest);
        ApplyFirst(st, Select(j), DbCommands(db) + rest);
        ReplayFrom(dbs, j + 1, st'.(data := AddDb(st.data, j, db)));
      }
    }
  }

  lemma DistinctOf(entries: seq<Entry>)
    requires WellFormed(entries)
    ensures DistinctKeys(entries)
  {
  }

  lemma AddNothing(data: map<(int, string), Slot>, j: int)
    ensures AddDb(data, j, []) == data
  {
  }

  lemma NoKeysYet(data: map<(int, string), Slot>, dbs: seq<seq<Entry>>, j: nat)
    requires j < |dbs| && Holds(data, dbs[..j])
    ensures NoKeys(data, j, dbs[j])
  {
  }

  /** Replaying the rewriter's commands from an empty server rebuilds the same databases. */
  lemma RewriteReplays(dbs: seq<seq<Entry>>)
    requires forall db | db in dbs :: WellFormed(db)
    ensures Holds(ApplyAll(Server(0, map[]), AllCommands(dbs, 0)).data, dbs)
  {
    assert dbs[0..] == dbs;
    ReplayFrom(dbs, 0, Server(0, map[]));
  }

  // ---------------------------------------------------------------------
  // The rewritten file

  /** Arguments, expiry times and database numbers within the machine's ranges. */
  predicate Machine(e: Entry) {
    && |e.key| < 0x8000_0000_0000_0000
    && -0x8000_0000_0000_0000 < e.expire < 0x8000_0000_0000_0000
    && (e.obj.StrObj? ==> |e.obj.value.Text()| < 0x8000_0000_0000_0000)
    && (forall g, arg | g in Groups(e.obj) && arg in g :: |arg| < 0x8000_0000_0000_0000)
  }

  predicate AllFit(cmds: seq<Command>) { forall cmd | cmd in cmds :: Fits(cmd) }

  lemma {:induction false} FlattenArgs(groups: seq<Command>, arg: string)
    requires arg in Flatten(groups)
    ensures exists g :: g in groups && arg in g
  {
    if arg !in groups[0] {
      FlattenArgs(groups[1..], arg);
      var g :| g in groups[1..] && arg in g;
      assert g in groups;
    } else {
      assert groups[0] in groups;
    }
  }

  /** No variadic command exceeds 2 + 2 * ITEMS_PER_CMD arguments. */
  lemma {:induction false} ChunksFit(a: Aggregate, key: string, groups: seq<Command>)
    requires WidthOk(groups, a.Width()) && |key| < 0x8000_0000_0000_0000
    requires forall g, arg | g in groups && arg in g :: |arg| < 0x8000_0000_0000_0000
    ensures AllFit(Chunks(a, key, groups))
    ensures forall cmd | cmd in Chunks(a, key, groups) :: |cmd| <= 2 + a.Width() * ITEMS_PER_CMD <= 2 + 2 * ITEMS_PER_CMD
    decreases |groups|
  {
    if groups != [] {
      var n := ChunkSize(|groups|);
      var head, rest := groups[..n], groups[n..];
      FlattenLength(head, a.Width());
      var cmd := [a.Name(), key] + Flatten(head);
      forall arg | arg in cmd
        ensures |arg| < 0x8000_0000_0000_0000
      {
        if arg in Flatten(head) { FlattenArgs(head, arg); }
      }
      assert Fits(cmd);
      hide Fits, Flatten;
      ChunksFit(a, key, rest);
    }
  }

  lemma KeyFits(e: Entry)
    requires Machine(e)
    ensures AllFit(KeyCommands(e))
  {
    hide Chunks, Groups, Digits;
    ShortNumber(if e.expire < 0 then 0 - e.expire else e.expire);
    if !e.obj.StrObj? {
      GroupsHaveWidth(e.obj);
      ChunksFit(AggregateOf(e.obj), e.key, Groups(e.obj));
    }
  }

  lemma {:induction false} DbFits(entries: seq<Entry>)
    requires forall e | e in entries :: Machine(e)
    ensures AllFit(DbCommands(entries))
  {
    hide Machine, Fits, KeyCommands;
    if entries != [] {
      KeyFits(entries[0]);
      DbFits(entries[1..]);
    }
  }

  lemma {:induction false} AllCommandsFit(dbs: seq<seq<Entry>>, j: nat)
    requires j + |dbs| < 0x8000_0000 && forall db, e | db in dbs && e in db :: Machine(e)
    ensures AllFit(AllCommands(dbs, j))
    decreases |dbs|
  {
    hide Machine, DbCommands;
    if dbs != [] {
      assert dbs[0] in dbs;
      DbFits(dbs[0]);
      ShortNumber(j);
      assert Fits(Select(j)) by { hide Digits; }
      hide Fits;
      AllCommandsFit(dbs[1..], j + 1);
    }
  }

  /** The file the rewriter leaves behind loads without error, and running what was
      loaded on an empty server rebuilds the databases it was written from. */
  lemma RewrittenFileLoads(dbs: seq<seq<Entry>>, cfg: Config, lookup: Lookup)
    requires |dbs| < 0x8000_0000 && forall db, e | db in dbs && e in db :: Machine(e)
    requires forall db | db in dbs :: WellFormed(db)
    requires forall cmd | cmd in AllCommands(dbs, 0) :: lookup(cmd).Other?
    ensures var r := LoadFile(EncodeAll(AllCommands(dbs, 0)), cfg, lookup);
      r.status == (if AllCommands(dbs, 0) == [] then AOF_EMPTY else AOF_OK) && Holds(ApplyAll(Server(0, map[]), r.ran).data, dbs)
  {
    hide AllCommands, EncodeAll, Holds, ApplyAll, Machine, WellFormed;
    AllCommandsFit(dbs, 0);
    LoadWhole(cfg, lookup, AllCommands(dbs, 0));
    RunPlain(AllCommands(dbs, 0), lookup, Idle);
    assert [] + AllCommands(dbs, 0) == AllCommands(dbs, 0);
    RewriteReplays(dbs);
  }
}
