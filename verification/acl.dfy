/** The selector object of acl.c: its bitmap, first arguments and retained rules are
    changed in place; describing it never panics. */
module Acl {
  import opened Base
  import opened AclRules
  import opened AclText
  import opened AclSelector
  import AofLog
  import Sds

  // ---------------------------------------------------------------------
  // Command identifiers

  /** The table behind `ACLGetCommandID`. */
  class CommandIds {
    var ids: map<string, nat>
    var nextid: nat

    ghost predicate Valid()
      reads this
    {
      && nextid != FUTURE_BIT
      && (forall n | n in ids :: ids[n] < nextid && ids[n] != FUTURE_BIT)
      && (forall n, m | n in ids && m in ids && ids[n] == ids[m] :: n == m)
    }

    constructor ()
      ensures Valid() && ids == map[]
    {
      ids, nextid := map[], 0;
    }

    /** The same name, whatever its case, always has the same identifier; different names
        have different ones; and none is the reserved bit. */
    method GetCommandID(name: string) returns (id: nat)
      requires Valid()
      modifies this
      ensures Valid() && id != FUTURE_BIT
      ensures var l := AofLog.Lower(name); l in ids && ids[l] == id
      ensures forall n | n in old(ids) :: n in ids && ids[n] == old(ids[n])
      ensures ids.Keys == old(ids.Keys) + {AofLog.Lower(name)}
    {
      var l := AofLog.Lower(name);
      if l in ids { return ids[l]; }
      ids := ids[l := nextid];
      id := nextid;
      nextid := nextid + 1;
      if nextid == USER_COMMAND_BITS_COUNT - 1 { nextid := nextid + 1; }
    }
  }

  // ---------------------------------------------------------------------
  // The selector

  function FirstsOf(firstargs: map<nat, seq<string>>): set<(nat, string)> {
    set id, k | id in firstargs && 0 <= k < |firstargs[id]| :: (id, AofLog.Lower(firstargs[id][k]))
  }

  function BitsOf(allowed: seq<bool>): set<nat> { set i | 0 <= i < |allowed| && allowed[i] }

  lemma ResetFirsts(firstargs: map<nat, seq<string>>, id: nat)
    ensures FirstsOf(firstargs - {id}) == set f | f in FirstsOf(firstargs) && f.0 !in {id}
  {
    hide AofLog.Lower;
    var g := firstargs - {id};
    forall f | f in FirstsOf(firstargs) && f.0 !in {id}
      ensures f in FirstsOf(g)
    {
      var i, k :| i in firstargs && 0 <= k < |firstargs[i]| && f == (i, AofLog.Lower(firstargs[i][k]));
      assert i in g && g[i][k] == firstargs[i][k];
    }
  }

  lemma AddFirst(firstargs: map<nat, seq<string>>, id: nat, arg: string)
    ensures var items := if id in firstargs then firstargs[id] else [];
      FirstsOf(firstargs[id := items + [arg]]) == FirstsOf(firstargs) + {(id, AofLog.Lower(arg))}
  {
    hide AofLog.Lower;
    var items := if id in firstargs then firstargs[id] else [];
    var g := firstargs[id := items + [arg]];
    forall f | f in FirstsOf(firstargs) + {(id, AofLog.Lower(arg))}
      ensures f in FirstsOf(g)
    {
      if f in FirstsOf(firstargs) {
        var i, k :| i in firstargs && 0 <= k < |firstargs[i]| && f == (i, AofLog.Lower(firstargs[i][k]));
        assert i in g && g[i][k] == firstargs[i][k];
      } else {
        assert g[id][|items|] == arg;
      }
    }
  }

  /** The all-commands flag after assigning these bits. */
  predicate StillSet(flag: bool, ids: set<nat>, allow: bool) { flag && (allow || ids == {}) }

  lemma StillSetMore(flag: bool, a: set<nat>, b: set<nat>, allow: bool)
    ensures StillSet(StillSet(flag, a, allow), b, allow) <==> StillSet(flag, a + b, allow)
    ensures StillSet(flag, {}, allow) <==> flag
  {
  }

  class SelectorObject {
    const allowed: array<bool>
    var firstargs: map<nat, seq<string>>
    var commandRules: string
    var allCommands: bool
    /** The rules `commandRules` is the text of. */
    ghost var rules: seq<Signed>

    ghost function State(): Selector
      reads this, allowed
    {
      Selector(View(), rules)
    }

    ghost predicate Valid(t: Table)
      reads this, allowed
    {
      && Shaped() && Consistent(t, State()) && commandRules == Spaced(Tokens(t, rules))
      && (allCommands ==> View().bits == Below(USER_COMMAND_BITS_COUNT) && NoneTakes(t, rules))
    }

    ghost predicate Shaped() { allowed.Length == USER_COMMAND_BITS_COUNT }

    ghost function View(): Perms
      reads this, allowed
    {
      Perms(BitsOf(allowed[..]), FirstsOf(firstargs))
    }

    /** `ACLCreateSelector`. */
    constructor ()
      ensures Shaped() && fresh(allowed) && State() == NEW && commandRules == "" && !allCommands
    {
      allowed := new bool[USER_COMMAND_BITS_COUNT](_ => false);
      firstargs, commandRules, allCommands, rules := map[], "", false, [];
    }

    /** `ACLSetSelectorCommandBit`. */
    method SetCommandBit(id: nat, value: bool)
      requires Shaped()
      modifies allowed, this`allCommands
      ensures id < USER_COMMAND_BITS_COUNT ==> View() == Assign(old(View()), {id}, {}, value)
      ensures id >= USER_COMMAND_BITS_COUNT ==> View() == old(View())
      ensures allCommands <==> old(allCommands) && (id >= USER_COMMAND_BITS_COUNT || value)
    {
      if id >= USER_COMMAND_BITS_COUNT { return; }
      allowed[id] := value;
      if !value { allCommands := false; }
      assert allowed[..] == old(allowed[..])[id := value];
      assert View().firsts == Assign(old(View()), {id}, {}, value).firsts;
    }

    /** `ACLResetFirstArgsForCommand`. */
    method ResetFirstArgsForCommand(id: nat)
      modifies this`firstargs
      ensures View() == Assign(old(View()), {}, {id}, true)
    {
      ResetFirsts(firstargs, id);
      hide FirstsOf;
      firstargs := firstargs - {id};
    }

    /** `ACLAddAllowedFirstArg`: not twice, ignoring case. */
    method AddAllowedFirstArg(id: nat, sub: string)
      modifies this`firstargs
      ensures View() == old(View()).(firsts := old(View()).firsts + {(id, AofLog.Lower(sub))})
    {
      hide AofLog.Lower;
      var items := 0;
      if id in firstargs {
        while items < |firstargs[id]|
          invariant items <= |firstargs[id]|
        {
          if AofLog.Lower(firstargs[id][items]) == AofLog.Lower(sub) {
            assert (id, AofLog.Lower(sub)) in FirstsOf(firstargs);
            return;
          }
          items := items + 1;
        }
      }
      AddFirst(firstargs, id, sub);
      hide FirstsOf;
      firstargs := firstargs[id := (if id in firstargs then firstargs[id] else []) + [sub]];
    }

    /** `ACLChangeSelectorPerm`. */
    method ChangePerm(id: nat, subs: seq<Sub>, allow: bool)
      requires Shaped() && id < USER_COMMAND_BITS_COUNT && forall i | 0 <= i < |subs| :: subs[i].id < USER_COMMAND_BITS_COUNT
      modifies allowed, this`allCommands, this`firstargs
      ensures View() == Assign(old(View()), {id} + SubIds(subs), {id}, allow)
      ensures allCommands <==> StillSet(old(allCommands), {id} + SubIds(subs), allow)
    {
      SetCommandBit(id, allow);
      ResetFirstArgsForCommand(id);
      ghost var p := old(View());
      AssignMore(p, {id}, {}, {}, {id}, allow);
      assert {id} + SubIds(subs[..0]) == {id} + {} && {} + {id} == {id};
      for n := 0 to |subs|
        invariant View() == Assign(p, {id} + SubIds(subs[..n]), {id}, allow)
        invariant allCommands <==> old(allCommands) && allow
      {
        SetCommandBit(subs[n].id, allow);
        OneMoreSub(subs, n);
        AssignMore(p, {id} + SubIds(subs[..n]), {id}, {subs[n].id}, {}, allow);
        assert {id} + SubIds(subs[..n + 1]) == {id} + SubIds(subs[..n]) + {subs[n].id} && {id} + {} == {id};
      }
      assert subs[..|subs|] == subs;
    }

    /** The subcommand level of `ACLSetSelectorCommandBitsForCategory`. */
    method SetSubsForCategory(subs: seq<Sub>, g: string, allow: bool)
      requires Shaped() && forall i | 0 <= i < |subs| :: subs[i].id < USER_COMMAND_BITS_COUNT
      modifies allowed, this`allCommands, this`firstargs
      ensures View() == Assign(old(View()), SubsIn(subs, g), SubsIn(subs, g), allow)
      ensures allCommands <==> StillSet(old(allCommands), SubsIn(subs, g), allow)
    {
      ghost var p := old(View());
      AssignNone(p, allow);
      assert SubsIn(subs[..0], g) == {};
      for n := 0 to |subs|
        invariant View() == Assign(p, SubsIn(subs[..n], g), SubsIn(subs[..n], g), allow)
        invariant allCommands <==> StillSet(old(allCommands), SubsIn(subs[..n], g), allow)
      {
        OneMoreIn(subs, n, g);
        ghost var s := SubsIn(subs[..n], g);
        if g in subs[n].categories {
          ChangePerm(subs[n].id, [], allow);
          assert {subs[n].id} + SubIds([]) == {subs[n].id};
          AssignMore(p, s, s, {subs[n].id}, {subs[n].id}, allow);
        }
      }
      assert subs[..|subs|] == subs;
    }

    /** The body of the loop of `ACLSetSelectorCommandBitsForCategory` for one command. */
    method SetCommandForCategory(cmd: Command, g: string, allow: bool)
      requires Shaped() && cmd.id < USER_COMMAND_BITS_COUNT && forall i | 0 <= i < |cmd.subs| :: cmd.subs[i].id < USER_COMMAND_BITS_COUNT
      modifies allowed, this`allCommands, this`firstargs
      ensures View() == Assign(old(View()), OwnIds(cmd, g) + SubsIn(cmd.subs, g), OwnCleared(cmd, g) + SubsIn(cmd.subs, g), allow)
      ensures allCommands <==> StillSet(old(allCommands), OwnIds(cmd, g) + SubsIn(cmd.subs, g), allow)
    {
      hide StillSet;
      ghost var p, flag := View(), allCommands;
      AssignNone(p, allow);
      StillSetMore(flag, OwnIds(cmd, g), SubsIn(cmd.subs, g), allow);
      if g in cmd.categories {
        ChangePerm(cmd.id, cmd.subs, allow);
      }
      SetSubsForCategory(cmd.subs, g, allow);
      AssignMore(p, OwnIds(cmd, g), OwnCleared(cmd, g), SubsIn(cmd.subs, g), SubsIn(cmd.subs, g), allow);
    }

    /** `ACLSetSelectorCommandBitsForCategory`. */
    method SetCommandBitsForCategory(t: Table, g: string, allow: bool)
      requires Shaped() && TableOk(t)
      modifies allowed, this`allCommands, this`firstargs
      ensures View() == Assign(old(View()), CategoryIds(t, g), CategoryCleared(t, g), allow)
      ensures allCommands <==> StillSet(old(allCommands), CategoryIds(t, g), allow)
    {
      ghost var p := old(View());
      AssignNone(p, allow);
      NoCategory(t, g);
      hide CategoryIds, CategoryCleared, TableOk, StillSet, Assign, OwnIds, OwnCleared;
      StillSetMore(allCommands, {}, {}, allow);
      for n := 0 to |t.commands|
        invariant View() == Assign(p, CategoryIds(Prefix(t, n), g), CategoryCleared(Prefix(t, n), g), allow)
        invariant allCommands <==> StillSet(old(allCommands), CategoryIds(Prefix(t, n), g), allow)
      {
        var cmd := t.commands[n];
        SmallIds(t, n);
        IdsStep(t, n, g);
        ClearedStep(t, n, g);
        ghost var a, c := CategoryIds(Prefix(t, n), g), CategoryCleared(Prefix(t, n), g);
        ghost var b, d := OwnIds(cmd, g) + SubsIn(cmd.subs, g), OwnCleared(cmd, g) + SubsIn(cmd.subs, g);
        SetCommandForCategory(cmd, g, allow);
        AssignMore(p, a, c, b, d, allow);
        StillSetMore(old(allCommands), a, b, allow);
      }
      assert t.commands[..|t.commands|] == t.commands;
    }

    /** `ACLUpdateCommandRules`. */
    method UpdateCommandRules(ghost t: Table, rule: string, allow: bool, ghost r: Rule)
      requires TableOk(t) && RuleOk(t, r) && (r.First? ==> allow) && AofLog.Lower(rule) == Text(t, r)
      requires AllOk(t, rules) && commandRules == Spaced(Tokens(t, rules))
      modifies this`commandRules, this`rules
      ensures rules == Compact(t, old(rules), r) + [Signed(allow, r)]
      ensures AllOk(t, rules) && commandRules == Spaced(Tokens(t, rules))
    {
      hide TableOk, RuleOk, Text, Compact, Spaced, Tokens, AofLog.Lower;
      var newRule := AofLog.Lower(rule);
      RemainingIsCompact(t, rules, r);
      commandRules := RemoveCommandRule(commandRules, newRule, Tokens(t, rules));
      rules := Compact(t, rules, r);
      TextOneMore(t, rules, Signed(allow, r));
      if |commandRules| > 0 { commandRules := commandRules + " "; }
      commandRules := commandRules + ((if allow then "+" else "-") + newRule);
      rules := rules + [Signed(allow, r)];
    }

    /** The part of `ACLSetSelector` for "+@all", "-@all" and their aliases. */
    method SetAllCommands(t: Table, on: bool)
      requires Shaped()
      modifies this, allowed
      ensures State() == Set(t, NEW, All(on)) && commandRules == "" && allCommands == on
    {
      forall i | 0 <= i < allowed.Length { allowed[i] := on; }
      allCommands := on;
      commandRules, firstargs, rules := "", map[], [];
      hide Below;
      assert BitsOf(allowed[..]) == if on then Below(USER_COMMAND_BITS_COUNT) else {};
    }

    /** The permissions part of `ACLSetSelector` for one rule. */
    method ChangeRule(t: Table, s: Signed, sub: string)
      requires Shaped() && TableOk(t) && SignedOk(t, s) && (s.rule.First? ==> s.rule.arg == AofLog.Lower(sub))
      modifies allowed, this`allCommands, this`firstargs
      ensures View() == Apply(t, old(View()), s)
      ensures allCommands <==> old(allCommands) && !Takes(t, s)
    {
      match s.rule
      case Whole(c) =>
        SmallIds(t, c);
        ChangePerm(t.commands[c].id, t.commands[c].subs, s.allow);
      case OneSub(c, i) =>
        SmallIds(t, c);
        ChangePerm(t.commands[c].subs[i].id, [], s.allow);
        assert {t.commands[c].subs[i].id} + SubIds([]) == {t.commands[c].subs[i].id};
      case First(c, arg) =>
        AssignNone(View(), true);
        AddAllowedFirstArg(t.commands[c].id, sub);
      case Category(g) =>
        SetCommandBitsForCategory(t, t.categories[g], s.allow);
    }

    /** `ACLSetSelector`, as far as commands are concerned. */
    method SetSelector(t: Table, op: string) returns (p: Parsed)
      requires Valid(t) && TableOk(t) && PlainOp(op)
      modifies this, allowed
      ensures Valid(t) && p == Parse(t, op)
      ensures p.Commands? ==> OpOk(t, p.op) && AllOk(t, old(rules))
      ensures State() == if p.Commands? then Set(t, old(State()), p.op) else old(State())
      ensures allCommands <==> if !p.Commands? then old(allCommands) else if p.op.All? then p.op.on else old(allCommands) && !Takes(t, p.op.s)
    {
      hide TableOk, Parse, PlainOp, Consistent, Spaced, Tokens, Set, Below, Takes, NoneTakes;
      NoRules(t);
      p := Parse(t, op);
      ParsedOk(t, op);
      if !p.Commands? { return; }
      ConsistentRules(t, State());
      SetKeeps(t, State(), p.op);
      if p.op.All? {
        SetIgnores(t, State(), p.op.on);
        SetAllCommands(t, p.op.on);
        EmptyText(t);
        return;
      }
      var s := p.op.s;
      ParsedText(t, op);
      TextPlain(t, s.rule);
      var sub := if s.rule.First? then op[1..][LastBar(op[1..], |op[1..]|) + 1..] else "";
      ChangeRule(t, s, sub);
      if allCommands { StillFull(t, old(State()), s, allowed[..]); }
      UpdateCommandRules(t, if s.rule.Category? || (s.allow && '|' in op[1..]) then op[1..] else Text(t, s.rule), s.allow, s.rule);
      SetIs(t, old(State()), s);
    }

    /** `ACLDescribeSelectorCommandRules`: the rebuilt selector always has the same bitmap,
        first arguments and retained rules, so the mismatch panic is unreachable. It has
        the all-commands flag if no retained rule takes anything away from "+@all". */
    method DescribeCommandRules(t: Table) returns (text: string, panic: bool, ghost rebuilt: Selector, ghost rebuiltFlag: bool)
      requires Valid(t) && TableOk(t)
      ensures !panic && rebuilt == State() && AllOk(t, rules)
      ensures rebuiltFlag <==> FUTURE_BIT in View().bits && NoneTakes(t, rules)
      ensures allCommands ==> rebuiltFlag
      ensures text == (if FUTURE_BIT in View().bits then "+@all" else "-@all") + if commandRules == "" then "" else " " + commandRules
    {
      hide TableOk, Parse, PlainOp, Consistent, Spaced, Tokens, Set, Below, Sds.SplitArgs, Replayed, BitsOf, Takes, NoneTakes;
      if allCommands { FullHasFuture(View().bits); }
      NoRules(t);
      var fake := new SelectorObject();
      NewIsConsistent(t);
      EmptyText(t);
      AllOps(t);
      ConsistentRules(t, State());
      var future := allowed[FUTURE_BIT];
      BitIs(allowed[..], FUTURE_BIT);
      text := if future then "+@all " else "-@all ";
      var first := fake.SetSelector(t, if future then "+@all" else "-@all");
      SplitRules(t, rules);
      TokensPlain(t, rules);
      var argv := Sds.SplitArgs(commandRules).value;
      assert fake.State() == Replayed(t, State(), 0) by { ReplayedNone(t, State()); }
      assert rules[..0] == [];
      for i := 0 to |argv|
        modifies fake, fake.allowed
        invariant fake.Valid(t) && fake.State() == Replayed(t, State(), i)
        invariant AllOk(t, rules[..i]) && (fake.allCommands <==> future && NoneTakes(t, rules[..i]))
        invariant unchanged(this) && unchanged(allowed)
      {
        TokenAt(t, rules, i);
        assert SignedOk(t, rules[i]);
        ParseToken(t, rules[i]);
        var res := fake.SetSelector(t, argv[i]);
        assert res.Commands?;
        ReplayedNext(t, State(), i);
        OneMoreRule(t, rules, i);
      }
      if |commandRules| > 0 { text := text + (commandRules + " "); }
      text := text[..|text| - 1];
      DescribesItself(t, State());
      SameBits(fake.allowed[..], allowed[..]);
      panic := fake.allowed[..] != allowed[..];
      rebuilt, rebuiltFlag := fake.State(), fake.allCommands;
      assert rules[..|rules|] == rules;
    }
  }

  lemma FullHasFuture(bits: set<nat>)
    ensures bits == Below(USER_COMMAND_BITS_COUNT) ==> FUTURE_BIT in bits
  {
  }

  lemma OneMoreRule(t: Table, rules: seq<Signed>, i: nat)
    requires AllOk(t, rules) && i < |rules|
    ensures AllOk(t, rules[..i]) && AllOk(t, rules[..i + 1]) && SignedOk(t, rules[i])
    ensures NoneTakes(t, rules[..i + 1]) <==> NoneTakes(t, rules[..i]) && !Takes(t, rules[i])
  {
    hide Takes;
    assert rules[..i + 1] == rules[..i] + [rules[i]];
    assert SignedOk(t, rules[i]);
    if NoneTakes(t, rules[..i + 1]) {
      assert rules[..i + 1][i] == rules[i];
      assert forall j | 0 <= j < i :: rules[..i][j] == rules[..i + 1][j];
    }
  }

  /** Taking a command from "+@all" and giving it back: the permissions and the
      description are those of "+@all" with a rule, but the flag is gone, and describing
      the selector rebuilds one that has it. */
  method FlagIsNotRebuilt(t: Table, c: nat) returns (flag: bool, ghost rebuiltFlag: bool)
    requires TableOk(t) && c < |t.commands|
    ensures !flag && rebuiltFlag
  {
    hide TableOk, Parse, PlainOp, Consistent, Spaced, Tokens, Set, Below;
    var selector := new SelectorObject();
    NewIsConsistent(t);
    EmptyText(t);
    AllOps(t);
    NoRules(t);
    var minus, plus := Signed(false, Whole(c)), Signed(true, Whole(c));
    ParseToken(t, minus);
    ParseToken(t, plus);
    TokenPlain(t, minus);
    TokenPlain(t, plus);
    SetIgnores(t, NEW, true);
    var _ := selector.SetSelector(t, "+@all");
    assert selector.State() == Selector(Start(true), []);
    var _ := selector.SetSelector(t, Token(t, minus));
    assert Takes(t, minus);
    var _ := selector.SetSelector(t, Token(t, plus));
    TakenAndGiven(t, c);
    assert selector.rules == selector.State().rules == [plus] && FUTURE_BIT in selector.State().perms.bits;
    var _, _, _, again := selector.DescribeCommandRules(t);
    flag, rebuiltFlag := selector.allCommands, again;
  }

  lemma TakenAndGiven(t: Table, c: nat)
    requires TableOk(t) && c < |t.commands|
    ensures var minus, plus := Signed(false, Whole(c)), Signed(true, Whole(c));
      var one := Set(t, Selector(Start(true), []), Change(minus));
      && AllOk(t, one.rules)
      && var two := Set(t, one, Change(plus));
      FUTURE_BIT in two.perms.bits && two.rules == [plus] && NoneTakes(t, [plus])
  {
    hide Below, Ids, Cleared, TableOk;
    var minus, plus := Signed(false, Whole(c)), Signed(true, Whole(c));
    FutureUntouched(t, Start(true), minus);
    FutureUntouched(t, Apply(t, Start(true), minus), plus);
    assert Compact(t, [], Whole(c)) == [] && [] + [minus] == [minus] && [] + [plus] == [plus];
    assert [minus][..0] == [];
    assert Compact(t, [minus], Whole(c)) == [];
    assert FUTURE_BIT in Start(true).bits;
  }

  lemma NewIsConsistent(t: Table)
    ensures Consistent(t, NEW)
  {
    StartFirsts(t, false);
  }

  lemma AllOps(t: Table)
    ensures PlainOp("+@all") && PlainOp("-@all")
    ensures Parse(t, "+@all") == Commands(All(true)) && Parse(t, "-@all") == Commands(All(false))
  {
    var a, b := "+@all", "-@all";
    assert AofLog.Lower(a) == a && AofLog.Lower(b) == b;
  }

  lemma BitIs(allowed: seq<bool>, i: nat)
    requires i < |allowed|
    ensures allowed[i] <==> i in BitsOf(allowed)
  {
  }

  lemma SameBits(a: seq<bool>, b: seq<bool>)
    requires |a| == |b|
    ensures BitsOf(a) == BitsOf(b) ==> a == b
  {
    if BitsOf(a) == BitsOf(b) {
      forall i | 0 <= i < |a|
        ensures a[i] == b[i]
      {
        assert i in BitsOf(a) <==> i in BitsOf(b);
      }
    }
  }

  lemma {:induction false} TokenAt(t: Table, rules: seq<Signed>, i: nat)
    requires AllOk(t, rules) && i < |rules|
    ensures RuleOk(t, rules[i].rule) && Tokens(t, rules)[i] == Token(t, rules[i])
  {
    hide Token;
    assert SignedOk(t, rules[i]);
    if i < |rules| - 1 {
      TokenAt(t, rules[..|rules| - 1], i);
    }
  }

  lemma ReplayedNone(t: Table, sel: Selector)
    requires AllOk(t, sel.rules)
    ensures Replayed(t, sel, 0) == Set(t, NEW, All(FUTURE_BIT in sel.perms.bits))
  {
  }

  lemma ReplayedNext(t: Table, sel: Selector, i: nat)
    requires AllOk(t, sel.rules) && i < |sel.rules|
    ensures OpOk(t, Change(sel.rules[i]))
    ensures Replayed(t, sel, i + 1) == Set(t, Replayed(t, sel, i), Change(sel.rules[i]))
  {
    hide Set;
  }

  lemma DescribesItself(t: Table, sel: Selector)
    requires Consistent(t, sel)
    ensures AllOk(t, sel.rules) && Replayed(t, sel, |sel.rules|) == sel
  {
    hide Replayed, ApplyAll, Covers, FirstsOk, Start;
    ReplayIsIdentity(t, sel, |sel.rules|);
    assert sel.rules[..|sel.rules|] == sel.rules;
  }

  lemma ConsistentRules(t: Table, sel: Selector)
    requires Consistent(t, sel)
    ensures AllOk(t, sel.rules)
  {
  }

  lemma SetIgnores(t: Table, sel: Selector, on: bool)
    requires AllOk(t, sel.rules)
    ensures Set(t, sel, All(on)) == Set(t, NEW, All(on)) == Selector(Start(on), [])
  {
  }

  lemma SetIs(t: Table, sel: Selector, s: Signed)
    requires AllOk(t, sel.rules) && SignedOk(t, s)
    ensures Set(t, sel, Change(s)) == Selector(Apply(t, sel.perms, s), Compact(t, sel.rules, s.rule) + [s])
  {
  }

  lemma EmptyText(t: Table)
    ensures Spaced(Tokens(t, [])) == ""
  {
  }

  lemma NoRules(t: Table)
    ensures NoneTakes(t, [])
  {
  }

  /** A rule that takes nothing away leaves a full bitmap full. */
  lemma StillFull(t: Table, sel: Selector, s: Signed, after: seq<bool>)
    requires AllOk(t, sel.rules) && SignedOk(t, s) && !Takes(t, s) && |after| == USER_COMMAND_BITS_COUNT
    requires sel.perms.bits == Below(USER_COMMAND_BITS_COUNT) && NoneTakes(t, sel.rules)
    requires BitsOf(after) == Apply(t, sel.perms, s).bits
    ensures BitsOf(after) == Below(USER_COMMAND_BITS_COUNT)
    ensures NoneTakes(t, Compact(t, sel.rules, s.rule) + [s])
  {
    NoneTakesCompact(t, sel.rules, s.rule);
    hide Below, Ids, Compact;
    assert sel.perms.bits <= Apply(t, sel.perms, s).bits;
  }

  lemma LookupLower(t: Table, name: string)
    ensures var r := Lookup(t, name); r.Some? ==> AofLog.Lower(name) == Text(t, r.value)
  {
    hide AofLog.Lower, FindCommand, FindSub;
    var n := AofLog.Lower(name);
    var e := BarFrom(n, 0);
    if e < |n| {
      assert n == n[..e] + "|" + n[e + 1..];
    }
  }

  predicate NamesRule(t: Table, name: string, r: Rule) {
    && RuleOk(t, r) && AofLog.Lower(name) == Text(t, r)
    && (r.First? ==> '|' in name[..|name|] && r.arg == AofLog.Lower(name[LastBar(name, |name|) + 1..]))
  }

  lemma LowerBar(a: string, b: string)
    ensures AofLog.Lower(a + "|" + b) == AofLog.Lower(a) + "|" + AofLog.Lower(b)
  {
    LowerConcat(a + "|", b);
    LowerConcat(a, "|");
    Signs();
    hide AofLog.Lower;
  }

  lemma AllowedText(t: Table, name: string)
    requires var p := ParseAllow(t, name); p.Commands? ==> OpOk(t, p.op)
    ensures var p := ParseAllow(t, name); p.Commands? ==> p.op.Change? && NamesRule(t, name, p.op.s.rule)
  {
    hide Lookup, AofLog.Lower, LastBar;
    LookupLower(t, name);
    if '|' in name {
      assert name[..|name|] == name;
      var bar := LastBar(name, |name|);
      LookupLower(t, name[..bar]);
      assert name == name[..bar] + "|" + name[bar + 1..];
      LowerBar(name[..bar], name[bar + 1..]);
    }
  }

  /** The operation's text is the rule's text, up to case. */
  lemma ParsedText(t: Table, op: string)
    requires var p := Parse(t, op); p.Commands? && p.op.Change? && OpOk(t, p.op)
    ensures op != "" && NamesRule(t, op[1..], Parse(t, op).op.s.rule)
  {
    hide Lookup, AofLog.Lower, LastBar, FindCategory, ParseAllow;
    assert op != "" by { EmptyOp(t); }
    var name := op[1..];
    LookupLower(t, name);
    if op[0] == '+' && !("@" <= name) { AllowedText(t, name); }
    if "@" <= name {
      assert name == "@" + op[2..];
      LowerConcat("@", op[2..]);
      Signs();
    }
  }

  lemma EmptyOp(t: Table)
    ensures Parse(t, "") == Bad(EINVAL)
  {
  }

  lemma TextOneMore(t: Table, rules: seq<Signed>, s: Signed)
    requires TableOk(t) && AllOk(t, rules) && SignedOk(t, s)
    ensures AllOk(t, rules + [s])
    ensures var before := Spaced(Tokens(t, rules));
      Spaced(Tokens(t, rules + [s])) == (if before == "" then "" else before + " ") + Token(t, s)
  {
    var ts, x := Tokens(t, rules), Token(t, s);
    TokensPlain(t, rules);
    Unfold(ts, "");
    hide TableOk, RuleOk, Spaced, Token;
    assert (rules + [s])[..|rules|] == rules;
    SpacedAppend(ts, [x]);
    assert Spaced([x]) == x by { OneToken(x); }
    if ts != [] {
      LeadingIsSpaced(ts);
    }
  }

  lemma OneToken(x: string)
    ensures Spaced([x]) == x && Leading([]) == ""
  {
  }

  lemma AssignNone(p: Perms, allow: bool)
    ensures Assign(p, {}, {}, allow) == p
  {
    assert Assign(p, {}, {}, allow).firsts == p.firsts;
  }

  function SubsIn(subs: seq<Sub>, g: string): set<nat> {
    set i | 0 <= i < |subs| && g in subs[i].categories :: subs[i].id
  }

  /** What a command that belongs to the category assigns itself. */
  function OwnIds(cmd: Command, g: string): set<nat> { if g in cmd.categories then {cmd.id} + SubIds(cmd.subs) else {} }

  function OwnCleared(cmd: Command, g: string): set<nat> { if g in cmd.categories then {cmd.id} else {} }

  lemma OneMoreIn(subs: seq<Sub>, n: nat, g: string)
    requires n < |subs|
    ensures SubsIn(subs[..n + 1], g) == SubsIn(subs[..n], g) + if g in subs[n].categories then {subs[n].id} else {}
  {
    assert subs[..n + 1][n] == subs[n];
    assert forall i | 0 <= i < n :: subs[..n + 1][i] == subs[..n][i];
  }

  function Prefix(t: Table, n: nat): Table
    requires n <= |t.commands|
  {
    t.(commands := t.commands[..n])
  }

  lemma NoCategory(t: Table, g: string)
    ensures CategoryIds(Prefix(t, 0), g) == {} && CategoryCleared(Prefix(t, 0), g) == {}
  {
  }

  lemma SmallIds(t: Table, n: nat)
    requires TableOk(t) && n < |t.commands|
    ensures t.commands[n].id < USER_COMMAND_BITS_COUNT
    ensures forall i | 0 <= i < |t.commands[n].subs| :: t.commands[n].subs[i].id < USER_COMMAND_BITS_COUNT
  {
    assert Position(t, (n, -1));
    forall i | 0 <= i < |t.commands[n].subs|
      ensures t.commands[n].subs[i].id < USER_COMMAND_BITS_COUNT
    {
      assert Position(t, (n, i)) && IdAt(t, (n, i)) == t.commands[n].subs[i].id;
    }
  }

  lemma PrefixSame(t: Table, n: nat)
    requires n < |t.commands|
    ensures Prefix(t, n + 1).commands[n] == t.commands[n]
    ensures forall c | 0 <= c < n :: Prefix(t, n + 1).commands[c] == Prefix(t, n).commands[c]
  {
  }

  lemma IdsStep(t: Table, n: nat, g: string)
    requires n < |t.commands|
    ensures var cmd := t.commands[n];
      CategoryIds(Prefix(t, n + 1), g) == CategoryIds(Prefix(t, n), g) + (OwnIds(cmd, g) + SubsIn(cmd.subs, g))
  {
    PrefixSame(t, n);
    hide Prefix;
  }

  lemma ClearedStep(t: Table, n: nat, g: string)
    requires n < |t.commands|
    ensures var cmd := t.commands[n];
      CategoryCleared(Prefix(t, n + 1), g) == CategoryCleared(Prefix(t, n), g) + (OwnCleared(cmd, g) + SubsIn(cmd.subs, g))
  {
    PrefixSame(t, n);
    hide Prefix;
  }

  lemma OneMoreSub(subs: seq<Sub>, n: nat)
    requires n < |subs|
    ensures SubIds(subs[..n + 1]) == SubIds(subs[..n]) + {subs[n].id}
  {
    assert subs[..n + 1][n] == subs[n];
    assert forall i | 0 <= i < n :: subs[..n + 1][i] == subs[..n][i];
  }

  lemma AssignMore(p: Perms, a: set<nat>, c: set<nat>, b: set<nat>, d: set<nat>, allow: bool)
    ensures Assign(Assign(p, a, c, allow), b, d, allow) == Assign(p, a + b, c + d, allow)
  {
  }
}
