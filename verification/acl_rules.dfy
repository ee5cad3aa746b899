/** Command permissions of an ACL selector (acl.c) and what its rules mean. */
module AclRules {
  import opened Base
  import AofLog
  import Sds

  const USER_COMMAND_BITS_COUNT := 1024
  /** Set only by "+@all": the selector may run commands loaded later. */
  const FUTURE_BIT := 1023

  // ---------------------------------------------------------------------
  // The command table

  datatype Sub = Sub(name: string, id: nat, categories: set<string>)

  /** A command; `subs` is empty when it has no subcommand table. */
  datatype Command = Command(name: string, id: nat, categories: set<string>, subs: seq<Sub>)

  datatype Table = Table(commands: seq<Command>, categories: seq<string>)

  /** Names, category names and rule arguments as they appear in rules: free of bars,
      whitespace and quotes. */
  predicate Word(s: string) { s != "" && AofLog.Lower(s) == s && '|' !in s && !Sds.NeedsRepr(s) && '\'' !in s }

  /** All commands and subcommands with their position: (c, -1) is command c itself. */
  predicate Position(t: Table, at: (nat, int)) { at.0 < |t.commands| && -1 <= at.1 < |t.commands[at.0].subs| }

  function IdAt(t: Table, at: (nat, int)): nat
    requires Position(t, at)
  {
    if at.1 == -1 then t.commands[at.0].id else t.commands[at.0].subs[at.1].id
  }

  /** What the server's table guarantees: lower-case names without bars, unique per level,
      and unique identifiers that never use the reserved bit. */
  ghost predicate TableOk(t: Table) {
    && (forall c | 0 <= c < |t.commands| :: Word(t.commands[c].name) && t.commands[c].name[0] != '@')
    && (forall c, d | 0 <= c < d < |t.commands| :: t.commands[c].name != t.commands[d].name)
    && (forall c, i | 0 <= c < |t.commands| && 0 <= i < |t.commands[c].subs| :: Word(t.commands[c].subs[i].name))
    && (forall c, i, j | 0 <= c < |t.commands| && 0 <= i < j < |t.commands[c].subs| ::
          t.commands[c].subs[i].name != t.commands[c].subs[j].name)
    && (forall at, to | Position(t, at) && Position(t, to) && IdAt(t, at) == IdAt(t, to) :: at == to)
    && (forall at | Position(t, at) :: IdAt(t, at) < USER_COMMAND_BITS_COUNT && IdAt(t, at) != FUTURE_BIT)
    && (forall g | 0 <= g < |t.categories| :: Word(t.categories[g]) && t.categories[g] != "all")
    && (forall g, h | 0 <= g < h < |t.categories| :: t.categories[g] != t.categories[h])
  }

  // ---------------------------------------------------------------------
  // Rules

  /** A whole command, one subcommand, a first argument of a command without subcommands,
      or a category. */
  datatype Rule = Whole(c: nat) | OneSub(c: nat, i: nat) | First(c: nat, arg: string) | Category(g: nat)

  predicate RuleOk(t: Table, r: Rule) {
    match r
    case Whole(c) => c < |t.commands|
    case OneSub(c, i) => c < |t.commands| && i < |t.commands[c].subs|
    case First(c, arg) => c < |t.commands| && t.commands[c].subs == [] && Word(arg)
    case Category(g) => g < |t.categories|
  }

  /** The text of a rule without its sign. */
  function Text(t: Table, r: Rule): string
    requires RuleOk(t, r)
  {
    match r
    case Whole(c) => t.commands[c].name
    case OneSub(c, i) => t.commands[c].name + "|" + t.commands[c].subs[i].name
    case First(c, arg) => t.commands[c].name + "|" + arg
    case Category(g) => "@" + t.categories[g]
  }

  datatype Signed = Signed(allow: bool, rule: Rule)

  /** First arguments can only be allowed. */
  predicate SignedOk(t: Table, s: Signed) { RuleOk(t, s.rule) && (s.rule.First? ==> s.allow) }

  // ---------------------------------------------------------------------
  // Permissions

  /** The bitmap as a set, and the allowed first arguments, in lower case, by command. */
  datatype Perms = Perms(bits: set<nat>, firsts: set<(nat, string)>)

  function Assign(p: Perms, ids: set<nat>, cleared: set<nat>, allow: bool): Perms {
    Perms(if allow then p.bits + ids else p.bits - ids, set f | f in p.firsts && f.0 !in cleared)
  }

  function SubIds(subs: seq<Sub>): set<nat> { set i | 0 <= i < |subs| :: subs[i].id }

  /** The bits `ACLChangeSelectorPerm` sets or clears when it is called for every member
      of a category, and the commands whose first arguments it forgets. */
  function CategoryIds(t: Table, g: string): set<nat> {
    (set c | 0 <= c < |t.commands| && g in t.commands[c].categories :: t.commands[c].id) +
    (set c, i | 0 <= c < |t.commands| && 0 <= i < |t.commands[c].subs|
       && (g in t.commands[c].categories || g in t.commands[c].subs[i].categories) :: t.commands[c].subs[i].id)
  }

  function CategoryCleared(t: Table, g: string): set<nat> {
    (set c | 0 <= c < |t.commands| && g in t.commands[c].categories :: t.commands[c].id) +
    (set c, i | 0 <= c < |t.commands| && 0 <= i < |t.commands[c].subs| && g in t.commands[c].subs[i].categories
       :: t.commands[c].subs[i].id)
  }

  function Ids(t: Table, r: Rule): set<nat>
    requires RuleOk(t, r)
  {
    match r
    case Whole(c) => {t.commands[c].id} + SubIds(t.commands[c].subs)
    case OneSub(c, i) => {t.commands[c].subs[i].id}
    case First(_, _) => {}
    case Category(g) => CategoryIds(t, t.categories[g])
  }

  function Cleared(t: Table, r: Rule): set<nat>
    requires RuleOk(t, r)
  {
    match r
    case Whole(c) => {t.commands[c].id}
    case OneSub(c, i) => {t.commands[c].subs[i].id}
    case First(_, _) => {}
    case Category(g) => CategoryCleared(t, t.categories[g])
  }

  function Added(t: Table, r: Rule): set<(nat, string)>
    requires RuleOk(t, r)
  {
    if r.First? then {(t.commands[r.c].id, r.arg)} else {}
  }

  function Apply(t: Table, p: Perms, s: Signed): Perms
    requires RuleOk(t, s.rule)
  {
    var q := Assign(p, Ids(t, s.rule), Cleared(t, s.rule), s.allow);
    q.(firsts := q.firsts + Added(t, s.rule))
  }

  /** A rule that clears bits, and with them the all-commands flag. */
  predicate Takes(t: Table, s: Signed)
    requires RuleOk(t, s.rule)
  {
    !s.allow && Ids(t, s.rule) != {}
  }

  predicate NoneTakes(t: Table, rules: seq<Signed>)
    requires AllOk(t, rules)
  {
    forall i | 0 <= i < |rules| :: SignedOk(t, rules[i]) && !Takes(t, rules[i])
  }

  predicate AllOk(t: Table, rules: seq<Signed>) { forall i | 0 <= i < |rules| :: SignedOk(t, rules[i]) }

  function ApplyAll(t: Table, p: Perms, rules: seq<Signed>): Perms
    requires AllOk(t, rules)
  {
    if rules == [] then p else Apply(t, ApplyAll(t, p, rules[..|rules| - 1]), rules[|rules| - 1])
  }

  // ---------------------------------------------------------------------
  // Compaction

  /** `ACLSelectorRemoveCommandRule`: the rules a new rule replaces. */
  predicate Covers(t: Table, r: Rule, q: Rule)
    requires RuleOk(t, r) && RuleOk(t, q)
  {
    Text(t, q) == Text(t, r) || Text(t, r) + "|" <= Text(t, q)
  }

  function Compact(t: Table, rules: seq<Signed>, r: Rule): (kept: seq<Signed>)
    requires AllOk(t, rules) && RuleOk(t, r)
    ensures AllOk(t, kept)
  {
    if rules == [] then []
    else
      var last := rules[|rules| - 1];
      Compact(t, rules[..|rules| - 1], r) + if Covers(t, r, last.rule) then [] else [last]
  }

  lemma {:induction false} NoneTakesCompact(t: Table, rules: seq<Signed>, r: Rule)
    requires AllOk(t, rules) && RuleOk(t, r) && NoneTakes(t, rules)
    ensures NoneTakes(t, Compact(t, rules, r))
  {
    hide Takes, Covers;
    if rules != [] {
      NoneTakesCompact(t, rules[..|rules| - 1], r);
    }
  }

  lemma FirstBar(a: string, b: string, c: string, d: string)
    requires '|' !in c
    ensures |a| < |c| ==> a + "|" + b != c + "|" + d
  {
    if |a| < |c| {
      assert (a + "|" + b)[|a|] == '|';
      assert (c + "|" + d)[|a|] == c[|a|] && c[|a|] in c;
    }
  }

  lemma BarSplit(a: string, b: string, c: string, d: string)
    requires '|' !in a && '|' !in c && a + "|" + b == c + "|" + d
    ensures a == c && b == d
  {
    FirstBar(a, b, c, d);
    FirstBar(c, d, a, b);
    var s := a + "|" + b;
    assert s[..|a|] == a && s[..|c|] == c;
    assert s[|a| + 1..] == b && s[|c| + 1..] == d;
  }

  function WithTail(a: string, x: Option<string>): string { if x.Some? then a + "|" + x.value else a }

  predicate NoBar(x: Option<string>) { x.Some? ==> '|' !in x.value }

  lemma NoBarPrefix(a: string, c: string)
    requires '|' !in c
    ensures !(a + "|" <= c)
  {
    if |a| < |c| {
      assert c[|a|] in c;
    }
  }

  /** For texts with at most one bar: the same, or the first extended behind a bar. */
  lemma CoveredText(a: string, x: Option<string>, c: string, y: Option<string>)
    requires '|' !in a && '|' !in c && NoBar(x) && NoBar(y)
    ensures WithTail(c, y) == WithTail(a, x) || WithTail(a, x) + "|" <= WithTail(c, y) <==> a == c && (x == y || x.None?)
  {
    var r, q := WithTail(a, x), WithTail(c, y);
    assert x.Some? ==> r[|a|] == '|';
    assert y.Some? ==> q[|c|] == '|';
    if y.None? {
      NoBarPrefix(r, c);
    } else {
      if x.Some? { NoBarPrefix(x.value, y.value); }
      if r + "|" <= q {
        var rest := q[|r| + 1..];
        assert q == r + "|" + rest;
        if x.None? {
          BarSplit(c, y.value, a, rest);
        } else {
          assert q == a + "|" + (x.value + "|" + rest);
          BarSplit(c, y.value, a, x.value + "|" + rest);
        }
      }
      if q == r && x.Some? {
        BarSplit(c, y.value, a, x.value);
      }
      if a == c && x.None? {
        assert q == r + "|" + y.value;
      }
    }
  }

  /** The part before the bar, and the part behind it if there is one. */
  function Head(t: Table, r: Rule): string
    requires RuleOk(t, r)
  {
    if r.Category? then "@" + t.categories[r.g] else t.commands[r.c].name
  }

  function Tail(t: Table, r: Rule): Option<string>
    requires RuleOk(t, r)
  {
    if r.OneSub? then Some(t.commands[r.c].subs[r.i].name) else if r.First? then Some(r.arg) else None
  }

  lemma TextParts(t: Table, r: Rule)
    requires TableOk(t) && RuleOk(t, r)
    ensures '|' !in Head(t, r) && NoBar(Tail(t, r)) && Text(t, r) == WithTail(Head(t, r), Tail(t, r))
  {
  }

  lemma HeadUnique(t: Table, r: Rule, q: Rule)
    requires TableOk(t) && RuleOk(t, r) && RuleOk(t, q) && Head(t, r) == Head(t, q)
    ensures if r.Category? then q.Category? && q.g == r.g else !q.Category? && q.c == r.c
  {
    assert r.Category? ==> Head(t, r)[0] == '@' && Head(t, r)[1..] == t.categories[r.g];
    assert q.Category? ==> Head(t, q)[0] == '@' && Head(t, q)[1..] == t.categories[q.g];
  }

  /** Text decides: equal texts are equal rules, and only rules below a whole command
      extend its text. */
  lemma CoversMeans(t: Table, r: Rule, q: Rule)
    requires TableOk(t) && RuleOk(t, r) && RuleOk(t, q)
    ensures Covers(t, r, q) <==> q == r || (r.Whole? && !q.Category? && q.c == r.c)
  {
    TextParts(t, r);
    TextParts(t, q);
    CoveredText(Head(t, r), Tail(t, r), Head(t, q), Tail(t, q));
    if Head(t, r) == Head(t, q) {
      HeadUnique(t, r, q);
    }
    hide Text, WithTail;
  }

  // ---------------------------------------------------------------------
  // Covered rules leave no trace

  /** Equal except where a rule decides. */
  ghost predicate Alike(t: Table, r: Rule, x: Perms, y: Perms)
    requires RuleOk(t, r)
  {
    && x.bits - Ids(t, r) == y.bits - Ids(t, r)
    && (forall f | f !in Added(t, r) && f.0 !in Cleared(t, r) :: f in x.firsts <==> f in y.firsts)
  }

  /** Only commands without subcommands have first arguments. */
  predicate FirstsOk(t: Table, p: Perms) {
    forall f | f in p.firsts :: exists c :: 0 <= c < |t.commands| && t.commands[c].subs == [] && t.commands[c].id == f.0
  }

  lemma AlikeApplied(t: Table, r: Rule, x: Perms, y: Perms, allow: bool)
    requires RuleOk(t, r) && Alike(t, r, x, y)
    ensures Apply(t, x, Signed(allow, r)) == Apply(t, y, Signed(allow, r))
  {
    hide Ids, Cleared;
    var a, b := Apply(t, x, Signed(allow, r)), Apply(t, y, Signed(allow, r));
    assert a.bits == b.bits by {
      forall i ensures i in a.bits <==> i in b.bits {
        assert i in x.bits - Ids(t, r) <==> i in y.bits - Ids(t, r);
      }
    }
    assert a.firsts == b.firsts;
  }

  lemma AlikeKept(t: Table, r: Rule, x: Perms, y: Perms, s: Signed)
    requires RuleOk(t, r) && RuleOk(t, s.rule) && Alike(t, r, x, y)
    ensures Alike(t, r, Apply(t, x, s), Apply(t, y, s))
  {
    hide Ids, Cleared, Added;
    var a, b := Apply(t, x, s), Apply(t, y, s);
    forall i
      ensures i in a.bits - Ids(t, r) <==> i in b.bits - Ids(t, r)
    {
      assert i in x.bits - Ids(t, r) <==> i in y.bits - Ids(t, r);
    }
  }

  lemma CoveredIsAlike(t: Table, r: Rule, x: Perms, s: Signed)
    requires TableOk(t) && RuleOk(t, r) && SignedOk(t, s) && Covers(t, r, s.rule) && FirstsOk(t, x)
    ensures Alike(t, r, x, Apply(t, x, s))
  {
    CoversMeans(t, r, s.rule);
    if r.Whole? && s.rule.OneSub? {
      NoFirsts(t, x, s.rule);
    }
    hide TableOk, Covers, Text;
  }

  lemma NoFirsts(t: Table, x: Perms, q: Rule)
    requires TableOk(t) && RuleOk(t, q) && q.OneSub? && FirstsOk(t, x)
    ensures forall f | f in x.firsts :: f.0 !in Cleared(t, q)
  {
    var id := t.commands[q.c].subs[q.i].id;
    assert Position(t, (q.c, q.i)) && IdAt(t, (q.c, q.i)) == id;
    forall f | f in x.firsts
      ensures f.0 != id
    {
      var c :| 0 <= c < |t.commands| && t.commands[c].subs == [] && t.commands[c].id == f.0;
      assert Position(t, (c, -1)) && IdAt(t, (c, -1)) == f.0;
    }
  }

  lemma FirstsKept(t: Table, p: Perms, s: Signed)
    requires SignedOk(t, s) && FirstsOk(t, p)
    ensures FirstsOk(t, Apply(t, p, s))
  {
    var q := Apply(t, p, s);
    forall f | f in q.firsts
      ensures exists c :: 0 <= c < |t.commands| && t.commands[c].subs == [] && t.commands[c].id == f.0
    {
      if f !in p.firsts {
        assert f in Added(t, s.rule);
        assert t.commands[s.rule.c].id == f.0;
      }
    }
  }

  lemma {:induction false} FirstsKeptAll(t: Table, p: Perms, rules: seq<Signed>)
    requires AllOk(t, rules) && FirstsOk(t, p)
    ensures FirstsOk(t, ApplyAll(t, p, rules))
  {
    hide FirstsOk, SignedOk, Apply;
    if rules != [] {
      FirstsKeptAll(t, p, rules[..|rules| - 1]);
      FirstsKept(t, ApplyAll(t, p, rules[..|rules| - 1]), rules[|rules| - 1]);
    }
  }

  lemma AlikeTrans(t: Table, r: Rule, x: Perms, y: Perms, z: Perms)
    requires RuleOk(t, r) && Alike(t, r, x, y) && Alike(t, r, x, z)
    ensures Alike(t, r, z, y)
  {
  }

  /** Dropping the rules a rule covers changes only what that rule decides. */
  lemma {:induction false} CompactAlike(t: Table, p: Perms, rules: seq<Signed>, r: Rule)
    requires TableOk(t) && AllOk(t, rules) && RuleOk(t, r) && FirstsOk(t, p)
    ensures Alike(t, r, ApplyAll(t, p, rules), ApplyAll(t, p, Compact(t, rules, r)))
  {
    hide TableOk, Covers, FirstsOk, SignedOk, Apply, Alike, RuleOk;
    if rules == [] {
      AlikeSelf(t, r, p);
    } else {
      var pre, last := rules[..|rules| - 1], rules[|rules| - 1];
      assert SignedOk(t, last);
      RuleOfSigned(t, last);
      CompactAlike(t, p, pre, r);
      var x, y := ApplyAll(t, p, pre), ApplyAll(t, p, Compact(t, pre, r));
      if Covers(t, r, last.rule) {
        FirstsKeptAll(t, p, pre);
        CoveredIsAlike(t, r, x, last);
        AlikeTrans(t, r, x, y, Apply(t, x, last));
        assert Compact(t, rules, r) == Compact(t, pre, r);
      } else {
        AlikeKept(t, r, x, y, last);
        var kept := Compact(t, rules, r);
        assert kept[..|kept| - 1] == Compact(t, pre, r);
      }
    }
  }

  lemma AlikeSelf(t: Table, r: Rule, p: Perms)
    requires RuleOk(t, r)
    ensures Alike(t, r, p, p)
  {
  }

  lemma RuleOfSigned(t: Table, s: Signed)
    requires SignedOk(t, s)
    ensures RuleOk(t, s.rule)
  {
  }

  /** Adding a rule to the compacted history has the effect of adding it to the full one. */
  lemma CompactionSound(t: Table, p: Perms, rules: seq<Signed>, s: Signed)
    requires TableOk(t) && AllOk(t, rules) && SignedOk(t, s) && FirstsOk(t, p)
    ensures AllOk(t, Compact(t, rules, s.rule) + [s])
    ensures ApplyAll(t, p, Compact(t, rules, s.rule) + [s]) == Apply(t, ApplyAll(t, p, rules), s)
  {
    hide TableOk, FirstsOk, Alike, Compact, Apply;
    var kept := Compact(t, rules, s.rule);
    CompactAlike(t, p, rules, s.rule);
    AlikeApplied(t, s.rule, ApplyAll(t, p, rules), ApplyAll(t, p, kept), s.allow);
    assert s == Signed(s.allow, s.rule);
    assert (kept + [s])[..|kept|] == kept;
  }

  // ---------------------------------------------------------------------
  // Selectors

  /** A selector's permissions and its retained rules. */
  datatype Selector = Selector(perms: Perms, rules: seq<Signed>)

  datatype Op = All(on: bool) | Change(s: Signed)

  function Below(n: nat): (s: set<nat>)
    ensures forall i: nat :: i in s <==> i < n
  {
    if n == 0 then {} else Below(n - 1) + {n - 1}
  }

  /** After "+@all" or "-@all". */
  function Start(on: bool): Perms { Perms(if on then Below(USER_COMMAND_BITS_COUNT) else {}, {}) }

  const NEW := Selector(Start(false), [])

  predicate OpOk(t: Table, op: Op) { op.Change? ==> SignedOk(t, op.s) }

  function Set(t: Table, sel: Selector, op: Op): Selector
    requires OpOk(t, op) && AllOk(t, sel.rules)
  {
    match op
    case All(on) => Selector(Start(on), [])
    case Change(s) => Selector(Apply(t, sel.perms, s), Compact(t, sel.rules, s.rule) + [s])
  }

  /** The permissions that describing a selector rebuilds. */
  function Described(t: Table, sel: Selector): Perms
    requires AllOk(t, sel.rules)
  {
    ApplyAll(t, Start(FUTURE_BIT in sel.perms.bits), sel.rules)
  }

  /** No rule covers an earlier one. */
  ghost predicate Compacted(t: Table, rules: seq<Signed>)
    requires AllOk(t, rules)
  {
    forall i, j | 0 <= i < j < |rules| :: !Covers(t, rules[j].rule, rules[i].rule)
  }

  ghost predicate Consistent(t: Table, sel: Selector) {
    AllOk(t, sel.rules) && sel.perms == Described(t, sel) && Compacted(t, sel.rules) && FirstsOk(t, sel.perms)
  }

  lemma FutureUntouched(t: Table, p: Perms, s: Signed)
    requires TableOk(t) && SignedOk(t, s)
    ensures FUTURE_BIT in Apply(t, p, s).bits <==> FUTURE_BIT in p.bits
  {
    forall id | id in Ids(t, s.rule)
      ensures id != FUTURE_BIT
    {
      match s.rule
      case Whole(c) =>
        if id == t.commands[c].id {
          assert Position(t, (c, -1)) && IdAt(t, (c, -1)) == id;
        } else {
          var i :| 0 <= i < |t.commands[c].subs| && t.commands[c].subs[i].id == id;
          assert Position(t, (c, i)) && IdAt(t, (c, i)) == id;
        }
      case OneSub(c, i) => assert Position(t, (c, i)) && IdAt(t, (c, i)) == id;
      case Category(g) => CategoryPositions(t, t.categories[g], id);
      case First(_, _) =>
    }
    hide TableOk, Ids;
  }

  lemma CategoryPositions(t: Table, g: string, id: nat)
    requires TableOk(t) && id in CategoryIds(t, g)
    ensures id != FUTURE_BIT && id < USER_COMMAND_BITS_COUNT
  {
    if c :| 0 <= c < |t.commands| && g in t.commands[c].categories && t.commands[c].id == id {
      assert Position(t, (c, -1)) && IdAt(t, (c, -1)) == id;
    } else {
      var c, i :| 0 <= c < |t.commands| && 0 <= i < |t.commands[c].subs| && t.commands[c].subs[i].id == id;
      assert Position(t, (c, i)) && IdAt(t, (c, i)) == id;
    }
  }

  lemma {:induction false} CompactKeepsOrder(t: Table, rules: seq<Signed>, r: Rule)
    requires AllOk(t, rules) && Compacted(t, rules) && RuleOk(t, r)
    ensures Compacted(t, Compact(t, rules, r))
    ensures forall q | q in Compact(t, rules, r) :: q in rules && RuleOk(t, q.rule) && !Covers(t, r, q.rule)
  {
    hide Covers, RuleOk;
    if rules != [] {
      var pre, last := rules[..|rules| - 1], rules[|rules| - 1];
      assert SignedOk(t, last);
      CompactKeepsOrder(t, pre, r);
      var kept := Compact(t, pre, r);
      forall i | 0 <= i < |kept|
        ensures RuleOk(t, kept[i].rule) && RuleOk(t, last.rule) && !Covers(t, last.rule, kept[i].rule)
      {
        assert kept[i] in pre;
        var k :| 0 <= k < |pre| && pre[k] == kept[i];
        assert rules[k] == kept[i];
      }
    }
  }

  /** Every operation keeps the history equivalent to the permissions. */
  lemma SetKeeps(t: Table, sel: Selector, op: Op)
    requires TableOk(t) && OpOk(t, op) && Consistent(t, sel)
    ensures Consistent(t, Set(t, sel, op))
  {
    match op
    case All(on) => hide TableOk, Covers;
    case Change(s) =>
      hide TableOk, Covers, Apply, FirstsOk, Compact, ApplyAll, Start, Compacted;
      var start := Start(FUTURE_BIT in sel.perms.bits);
      StartFirsts(t, FUTURE_BIT in sel.perms.bits);
      FutureUntouched(t, sel.perms, s);
      CompactionSound(t, start, sel.rules, s);
      FirstsKept(t, sel.perms, s);
      CompactKeepsOrder(t, sel.rules, s.rule);
      OneMoreCompacted(t, Compact(t, sel.rules, s.rule), s);
  }

  lemma OneMoreCompacted(t: Table, kept: seq<Signed>, s: Signed)
    requires AllOk(t, kept) && SignedOk(t, s) && Compacted(t, kept)
    requires forall q | q in kept :: RuleOk(t, q.rule) && !Covers(t, s.rule, q.rule)
    ensures AllOk(t, kept + [s]) && Compacted(t, kept + [s])
  {
    hide Covers, RuleOk;
    assert forall i | 0 <= i < |kept| :: kept[i] in kept;
  }

  lemma StartFirsts(t: Table, on: bool)
    ensures FirstsOk(t, Start(on))
  {
  }

  function Run(t: Table, sel: Selector, ops: seq<Op>): (r: Selector)
    requires AllOk(t, sel.rules) && forall i | 0 <= i < |ops| :: OpOk(t, ops[i])
    ensures AllOk(t, r.rules)
    decreases |ops|
  {
    if ops == [] then sel else Run(t, Set(t, sel, ops[0]), ops[1..])
  }

  lemma {:induction false} RunKeeps(t: Table, sel: Selector, ops: seq<Op>)
    requires TableOk(t) && Consistent(t, sel) && forall i | 0 <= i < |ops| :: OpOk(t, ops[i])
    ensures Consistent(t, Run(t, sel, ops))
    decreases |ops|
  {
    hide TableOk, OpOk, Set;
    if ops != [] {
      SetKeeps(t, sel, ops[0]);
      RunKeeps(t, Set(t, sel, ops[0]), ops[1..]);
    }
  }

  /** After any sequence of operations on a new selector, "+@all" or "-@all", chosen by the
      reserved bit, followed by the retained rules rebuilds exactly its permissions. */
  lemma DescriptionRebuilds(t: Table, ops: seq<Op>)
    requires TableOk(t) && forall i | 0 <= i < |ops| :: OpOk(t, ops[i])
    ensures var sel := Run(t, NEW, ops); Described(t, sel) == sel.perms
  {
    StartFirsts(t, false);
    hide TableOk, OpOk, Set, FirstsOk;
    RunKeeps(t, NEW, ops);
  }

  lemma ApplyLast(t: Table, p: Perms, pre: seq<Signed>, s: Signed)
    requires AllOk(t, pre) && SignedOk(t, s)
    ensures AllOk(t, pre + [s]) && ApplyAll(t, p, pre + [s]) == Apply(t, ApplyAll(t, p, pre), s)
  {
    assert (pre + [s])[..|pre|] == pre;
  }

  lemma CompactedPart(t: Table, rules: seq<Signed>, n: nat)
    requires AllOk(t, rules) && Compacted(t, rules) && n < |rules|
    ensures AllOk(t, rules[..n]) && RuleOk(t, rules[n].rule) && Compact(t, rules[..n], rules[n].rule) == rules[..n]
  {
    hide Compact;
    assert SignedOk(t, rules[n]);
    NothingCovered(t, rules[..n], rules[n].rule);
  }

  /** Replaying a description as operations also leaves the same retained rules. */
  lemma {:induction false} ReplayIsIdentity(t: Table, sel: Selector, n: nat)
    requires AllOk(t, sel.rules) && Compacted(t, sel.rules) && n <= |sel.rules|
    ensures Replayed(t, sel, n) == Selector(ApplyAll(t, Start(FUTURE_BIT in sel.perms.bits), sel.rules[..n]), sel.rules[..n])
  {
    hide Compacted, Apply, Start, Compact, RuleOk;
    if n > 0 {
      var pre, s := sel.rules[..n - 1], sel.rules[n - 1];
      ReplayIsIdentity(t, sel, n - 1);
      CompactedPart(t, sel.rules, n - 1);
      ApplyLast(t, Start(FUTURE_BIT in sel.perms.bits), pre, s);
      assert sel.rules[..n] == pre + [s];
      hide ApplyAll;
    }
  }

  /** "+@all" or "-@all" and the first `n` rules, given as operations to a new selector. */
  function Replayed(t: Table, sel: Selector, n: nat): (r: Selector)
    requires AllOk(t, sel.rules) && n <= |sel.rules|
    ensures AllOk(t, r.rules)
  {
    if n == 0 then Set(t, NEW, All(FUTURE_BIT in sel.perms.bits))
    else Set(t, Replayed(t, sel, n - 1), Change(sel.rules[n - 1]))
  }

  lemma CompactStep(t: Table, rules: seq<Signed>, s: Signed, r: Rule)
    requires AllOk(t, rules) && SignedOk(t, s) && RuleOk(t, r)
    ensures AllOk(t, rules + [s])
    ensures Compact(t, rules + [s], r) == Compact(t, rules, r) + if Covers(t, r, s.rule) then [] else [s]
  {
    hide Covers, RuleOk;
    assert (rules + [s])[..|rules|] == rules;
  }

  lemma {:induction false} NothingCovered(t: Table, rules: seq<Signed>, r: Rule)
    requires AllOk(t, rules) && RuleOk(t, r)
    requires forall i | 0 <= i < |rules| :: !Covers(t, r, rules[i].rule)
    ensures Compact(t, rules, r) == rules
  {
    if rules == [] {
      assert Compact(t, [], r) == [];
    } else {
      hide Covers, RuleOk, Compact;
      var pre, s := rules[..|rules| - 1], rules[|rules| - 1];
      assert SignedOk(t, s);
      assert rules == pre + [s];
      NothingCovered(t, pre, r);
      CompactStep(t, pre, s, r);
    }
  }
}
