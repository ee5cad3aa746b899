/** An ACL selector and the operations that change its command permissions (acl.c). */
module AclSelector {
  import opened Base
  import opened AclRules
  import opened AclText
  import AofLog
  import Sds

  // ---------------------------------------------------------------------
  // Looking up commands

  function FindCommand(t: Table, name: string, c: nat): (r: Option<nat>)
    requires c <= |t.commands|
    ensures r.Some? ==> r.value < |t.commands| && t.commands[r.value].name == name
    ensures r.None? ==> forall d | c <= d < |t.commands| :: t.commands[d].name != name
    decreases |t.commands| - c
  {
    if c == |t.commands| then None
    else if t.commands[c].name == name then Some(c)
    else FindCommand(t, name, c + 1)
  }

  function FindSub(subs: seq<Sub>, name: string, i: nat): (r: Option<nat>)
    requires i <= |subs|
    ensures r.Some? ==> r.value < |subs| && subs[r.value].name == name
    ensures r.None? ==> forall j | i <= j < |subs| :: subs[j].name != name
    decreases |subs| - i
  {
    if i == |subs| then None
    else if subs[i].name == name then Some(i)
    else FindSub(subs, name, i + 1)
  }

  function FindCategory(t: Table, name: string, g: nat): (r: Option<nat>)
    requires g <= |t.categories|
    ensures r.Some? ==> r.value < |t.categories| && t.categories[r.value] == name
    ensures r.None? ==> forall h | g <= h < |t.categories| :: t.categories[h] != name
    decreases |t.categories| - g
  {
    if g == |t.categories| then None
    else if t.categories[g] == name then Some(g)
    else FindCategory(t, name, g + 1)
  }

  /** The first bar, or the end. */
  function BarFrom(s: string, p: nat): (e: nat)
    requires p <= |s|
    ensures p <= e <= |s| && '|' !in s[p..e] && (e < |s| ==> s[e] == '|')
    decreases |s| - p
  {
    if p == |s| || s[p] == '|' then p
    else
      var e := BarFrom(s, p + 1);
      assert s[p..e] == [s[p]] + s[p + 1..e];
      e
  }

  /** `ACLLookupCommand`: a command, or with one bar a subcommand. */
  function Lookup(t: Table, name: string): (r: Option<Rule>)
    ensures r.Some? ==> RuleOk(t, r.value) && (r.value.Whole? || r.value.OneSub?)
  {
    var n := AofLog.Lower(name);
    var e := BarFrom(n, 0);
    if n == "" then None
    else if e == |n| then
      match FindCommand(t, n, 0)
      case None => None
      case Some(c) => Some(Whole(c))
    else if '|' in n[e + 1..] then None
    else match FindCommand(t, n[..e], 0)
      case None => None
      case Some(c) =>
        if t.commands[c].subs == [] then None
        else match FindSub(t.commands[c].subs, n[e + 1..], 0)
          case None => None
          case Some(i) => Some(OneSub(c, i))
  }

  // ---------------------------------------------------------------------
  // Parsing an operation

  datatype Errno = ENOENT | ECHILD | EINVAL

  /** What an operation asks for. Operations on keys and channels, whose own outcome is
      not modelled, do not concern commands. */
  datatype Parsed = Commands(op: Op) | NotCommands | Bad(errno: Errno)

  /** The last bar. */
  function LastBar(s: string, e: nat): (p: nat)
    requires e <= |s| && '|' in s[..e]
    ensures p < e && s[p] == '|' && '|' !in s[p + 1..e]
  {
    if s[e - 1] == '|' then e - 1
    else
      assert s[..e] == s[..e - 1] + [s[e - 1]];
      var p := LastBar(s, e - 1);
      assert s[p + 1..e] == s[p + 1..e - 1] + [s[e - 1]];
      p
  }

  function ParseAllow(t: Table, name: string): Parsed {
    if '|' !in name then
      match Lookup(t, name)
      case None => Bad(ENOENT)
      case Some(r) => Commands(Change(Signed(true, r)))
    else
      assert name[..|name|] == name;
      var bar := LastBar(name, |name|);
      var sub := name[bar + 1..];
      match Lookup(t, name[..bar])
      case None => Bad(ENOENT)
      case Some(base) =>
        if base.OneSub? then Bad(ECHILD)
        else if sub == "" then Bad(EINVAL)
        else if t.commands[base.c].subs != [] then
          match Lookup(t, name)
          case None => Bad(ENOENT)
          case Some(r) => Commands(Change(Signed(true, r)))
        else Commands(Change(Signed(true, First(base.c, AofLog.Lower(sub)))))
  }

  function Parse(t: Table, op: string): Parsed {
    var l := AofLog.Lower(op);
    if l in ["allkeys", "~*", "resetkeys", "allchannels", "&*", "resetchannels"] then NotCommands
    else if l == "allcommands" || l == "+@all" then Commands(All(true))
    else if l == "nocommands" || l == "-@all" then Commands(All(false))
    else if op == "" then Bad(EINVAL)
    else if op[0] == '~' || op[0] == '%' || op[0] == '&' then NotCommands
    else if op[0] == '+' && !("@" <= op[1..]) then ParseAllow(t, op[1..])
    else if op[0] == '-' && !("@" <= op[1..]) then
      match Lookup(t, op[1..])
      case None => Bad(ENOENT)
      case Some(r) => Commands(Change(Signed(false, r)))
    else if op[0] == '+' || op[0] == '-' then
      match FindCategory(t, AofLog.Lower(op[2..]), 0)
      case None => Bad(ENOENT)
      case Some(g) => Commands(Change(Signed(op[0] == '+', Category(g))))
    else Bad(EINVAL)
  }

  /** Operations are given free of whitespace and quotes. */
  predicate PlainOp(op: string) { !Sds.NeedsRepr(op) && '\'' !in op }

  lemma LowerAgain(s: string)
    ensures AofLog.Lower(AofLog.Lower(s)) == AofLog.Lower(s)
  {
  }

  lemma LowerPlain(s: string)
    requires PlainOp(s)
    ensures PlainOp(AofLog.Lower(s))
    ensures '|' !in s ==> '|' !in AofLog.Lower(s)
  {
    forall i | 0 <= i < |s|
      ensures !Sds.Special(AofLog.Lower(s)[i]) && AofLog.Lower(s)[i] != '\'' && (s[i] != '|' ==> AofLog.Lower(s)[i] != '|')
    {
      assert !Sds.Special(s[i]) && s[i] in s;
    }
  }

  lemma PlainPart(s: string, a: nat, b: nat)
    requires PlainOp(s) && a <= b <= |s|
    ensures PlainOp(s[a..b])
  {
    forall i | 0 <= i < b - a
      ensures !Sds.Special(s[a..b][i])
    {
      assert !Sds.Special(s[a + i]);
    }
  }

  /** What is parsed can be applied. */
  lemma ParsedOk(t: Table, op: string)
    requires TableOk(t) && PlainOp(op)
    ensures var p := Parse(t, op); p.Commands? ==> OpOk(t, p.op)
  {
    hide TableOk;
    if op != "" && '|' in op[1..] {
      var name := op[1..];
      assert name[..|name|] == name;
      var sub := name[LastBar(name, |name|) + 1..];
      PlainPart(op, 1, |op|);
      assert op[1..|op|] == name;
      PlainPart(name, LastBar(name, |name|) + 1, |name|);
      assert name[LastBar(name, |name|) + 1..|name|] == sub;
      LowerPlain(sub);
      LowerAgain(sub);
      assert sub != "" ==> Word(AofLog.Lower(sub));
    }
    hide AofLog.Lower, Sds.NeedsRepr, LastBar, Lookup;
  }

  // ---------------------------------------------------------------------
  // Retained rules as text

  function Token(t: Table, s: Signed): string
    requires RuleOk(t, s.rule)
  {
    (if s.allow then "+" else "-") + Text(t, s.rule)
  }

  function Tokens(t: Table, rules: seq<Signed>): (ts: seq<string>)
    requires AllOk(t, rules)
    ensures |ts| == |rules|
  {
    if rules == [] then [] else Tokens(t, rules[..|rules| - 1]) + [Token(t, rules[|rules| - 1])]
  }

  lemma WordPlain(w: string)
    requires Word(w)
    ensures PlainOp(w) && w != "" && AofLog.Lower(w) == w && '|' !in w
  {
  }

  lemma PlainConcat(a: string, b: string)
    requires PlainOp(a) && PlainOp(b)
    ensures PlainOp(a + b)
  {
    forall i | 0 <= i < |a + b|
      ensures !Sds.Special((a + b)[i])
    {
      assert (a + b)[i] == if i < |a| then a[i] else b[i - |a|];
    }
  }

  lemma LowerConcat(a: string, b: string)
    ensures AofLog.Lower(a + b) == AofLog.Lower(a) + AofLog.Lower(b)
  {
  }

  lemma Signs()
    ensures PlainOp("+") && PlainOp("-") && PlainOp("|") && PlainOp("@") && AofLog.Lower("|") == "|" && AofLog.Lower("@") == "@"
  {
  }

  lemma TextPlain(t: Table, r: Rule)
    requires TableOk(t) && RuleOk(t, r)
    ensures PlainOp(Text(t, r)) && Text(t, r) != "" && AofLog.Lower(Text(t, r)) == Text(t, r)
  {
    Signs();
    match r
    case Whole(c) => WordPlain(t.commands[c].name);
    case OneSub(c, i) => BarPlain(t.commands[c].name, t.commands[c].subs[i].name);
    case First(c, arg) => BarPlain(t.commands[c].name, arg);
    case Category(g) =>
      WordPlain(t.categories[g]);
      PlainConcat("@", t.categories[g]);
      LowerConcat("@", t.categories[g]);
  }

  lemma BarPlain(a: string, b: string)
    requires Word(a) && Word(b)
    ensures PlainOp(a + "|" + b) && AofLog.Lower(a + "|" + b) == a + "|" + b
  {
    Signs();
    WordPlain(a);
    WordPlain(b);
    hide PlainOp, AofLog.Lower, Word;
    PlainConcat(a, "|");
    PlainConcat(a + "|", b);
    LowerConcat(a, "|");
    LowerConcat(a + "|", b);
  }

  lemma TokenPlain(t: Table, s: Signed)
    requires TableOk(t) && RuleOk(t, s.rule)
    ensures PlainOp(Token(t, s)) && |Token(t, s)| >= 2
  {
    TextPlain(t, s.rule);
    Signs();
    hide PlainOp, Text, TableOk;
    PlainConcat("+", Text(t, s.rule));
    PlainConcat("-", Text(t, s.rule));
  }

  lemma {:induction false} TokensPlain(t: Table, rules: seq<Signed>)
    requires TableOk(t) && AllOk(t, rules)
    ensures TokensOk(Tokens(t, rules)) && forall i | 0 <= i < |rules| :: PlainOp(Tokens(t, rules)[i])
  {
    hide TableOk, RuleOk;
    if rules != [] {
      TokensPlain(t, rules[..|rules| - 1]);
      assert SignedOk(t, rules[|rules| - 1]);
      TokenPlain(t, rules[|rules| - 1]);
      NoSpace(Token(t, rules[|rules| - 1]));
      hide PlainOp, Token;
    }
  }

  lemma NoSpace(s: string)
    requires PlainOp(s)
    ensures ' ' !in s
  {
    assert forall i | 0 <= i < |s| :: !Sds.Special(s[i]);
  }

  lemma {:induction false} RemainingLast(tokens: seq<string>, token: string, rule: string)
    requires TokensOk(tokens) && TokensOk([token])
    ensures TokensOk(tokens + [token]) && [token][0] != ""
    ensures Remaining(tokens + [token], rule) == Remaining(tokens, rule) + if Matches(rule, token) then [] else [token]
  {
    assert [token][0] == token;
    assert forall i | 0 <= i < |tokens| :: (tokens + [token])[i] == tokens[i];
    hide Matches;
    if tokens == [] {
      assert tokens + [token] == [token] && [token][1..] == [];
    } else {
      assert (tokens + [token])[1..] == tokens[1..] + [token];
      RemainingLast(tokens[1..], token, rule);
    }
  }

  /** Removing rules from the text is compacting the history. */
  lemma {:induction false} RemainingIsCompact(t: Table, rules: seq<Signed>, r: Rule)
    requires TableOk(t) && AllOk(t, rules) && RuleOk(t, r)
    ensures TokensOk(Tokens(t, rules))
    ensures Remaining(Tokens(t, rules), Text(t, r)) == Tokens(t, Compact(t, rules, r))
  {
    TokensPlain(t, rules);
    hide TableOk, RuleOk, Text, PlainOp, TokensOk;
    if rules == [] {
      assert Tokens(t, []) == [];
    } else {
      var pre, last := rules[..|rules| - 1], rules[|rules| - 1];
      assert SignedOk(t, last);
      RemainingIsCompact(t, pre, r);
      TokensPlain(t, [last]);
      var token := Token(t, last);
      assert Tokens(t, [last]) == [token] by { assert [last][..0] == []; assert Tokens(t, []) == []; }
      RemainingLast(Tokens(t, pre), token, Text(t, r));
      assert token[1..] == Text(t, last.rule);
      var kept := Compact(t, pre, r);
      if Covers(t, r, last.rule) {
        assert Compact(t, rules, r) == kept;
      } else {
        assert Compact(t, rules, r) == kept + [last];
        assert (kept + [last])[..|kept|] == kept;
      }
    }
  }

  // ---------------------------------------------------------------------
  // A retained rule is accepted again

  lemma {:induction false} BarAt(a: string, rest: string, p: nat)
    requires '|' !in a && (rest == "" || rest[0] == '|') && p <= |a|
    ensures BarFrom(a + rest, p) == |a|
    decreases |a| - p
  {
    if p < |a| {
      assert (a + rest)[p] == a[p] && a[p] in a;
      BarAt(a, rest, p + 1);
    }
  }

  lemma {:induction false} LastBarAt(a: string, b: string, e: nat)
    requires '|' !in b && |a| < e <= |a| + 1 + |b|
    ensures var s := a + "|" + b; '|' in s[..e] && LastBar(s, e) == |a|
    decreases e
  {
    var s := a + "|" + b;
    assert s[..e][|a|] == '|';
    if e > |a| + 1 {
      assert s[e - 1] == b[e - 2 - |a|] && b[e - 2 - |a|] in b;
      LastBarAt(a, b, e - 1);
    }
  }

  lemma FindUnique(t: Table, c: nat)
    requires TableOk(t) && c < |t.commands|
    ensures FindCommand(t, t.commands[c].name, 0) == Some(c)
  {
    var r := FindCommand(t, t.commands[c].name, 0);
    hide FindCommand;
  }

  lemma FindSubUnique(t: Table, c: nat, i: nat)
    requires TableOk(t) && c < |t.commands| && i < |t.commands[c].subs|
    ensures FindSub(t.commands[c].subs, t.commands[c].subs[i].name, 0) == Some(i)
  {
    var r := FindSub(t.commands[c].subs, t.commands[c].subs[i].name, 0);
    hide FindSub;
  }

  lemma FindCategoryUnique(t: Table, g: nat)
    requires TableOk(t) && g < |t.categories|
    ensures FindCategory(t, t.categories[g], 0) == Some(g)
  {
    var r := FindCategory(t, t.categories[g], 0);
    hide FindCategory;
  }

  lemma NamesAreWords(t: Table, r: Rule)
    requires TableOk(t) && RuleOk(t, r)
    ensures r.Category? ==> Word(t.categories[r.g]) && t.categories[r.g] != "all"
    ensures !r.Category? ==> Word(t.commands[r.c].name) && t.commands[r.c].name[0] != '@'
    ensures r.OneSub? ==> Word(t.commands[r.c].subs[r.i].name)
  {
  }

  lemma LookupWhole(t: Table, c: nat)
    requires TableOk(t) && c < |t.commands|
    ensures Lookup(t, t.commands[c].name) == Some(Whole(c))
  {
    NamesAreWords(t, Whole(c));
    FindUnique(t, c);
    hide TableOk, FindCommand, FindSub, Sds.NeedsRepr;
    var n := t.commands[c].name;
    BarAt(n, "", 0);
    assert n + "" == n;
  }

  lemma LookupSub(t: Table, c: nat, i: nat)
    requires TableOk(t) && c < |t.commands| && i < |t.commands[c].subs|
    ensures Lookup(t, t.commands[c].name + "|" + t.commands[c].subs[i].name) == Some(OneSub(c, i))
  {
    NamesAreWords(t, OneSub(c, i));
    FindUnique(t, c);
    FindSubUnique(t, c, i);
    var a, b := t.commands[c].name, t.commands[c].subs[i].name;
    BarPlain(a, b);
    hide TableOk, FindCommand, FindSub, Sds.NeedsRepr, AofLog.Lower, PlainOp;
    var n := a + "|" + b;
    assert n == a + ("|" + b);
    BarAt(a, "|" + b, 0);
    assert n[..|a|] == a && n[|a| + 1..] == b;
  }

  /** A first character that decides between the branches. */
  lemma ParseSigned(t: Table, allow: bool, text: string)
    requires text != "" && AofLog.Lower(text) == text && text != "@all"
    ensures var op := (if allow then "+" else "-") + text;
      Parse(t, op) ==
        if text[0] == '@' then
          (match FindCategory(t, AofLog.Lower(text[1..]), 0)
           case None => Bad(ENOENT)
           case Some(g) => Commands(Change(Signed(allow, Category(g)))))
        else if allow then ParseAllow(t, text)
        else match Lookup(t, text) case None => Bad(ENOENT) case Some(r) => Commands(Change(Signed(false, r)))
  {
    var sign := if allow then "+" else "-";
    var op := sign + text;
    LowerConcat(sign, text);
    assert AofLog.Lower(sign) == sign;
    assert op[0] == sign[0] && op[1..] == text && op[2..] == text[1..];
    hide AofLog.Lower, Lookup, ParseAllow, FindCategory;
    assert AofLog.Lower(op) == op;
    assert op != "+@all" && op != "-@all" by { assert op[1..] == text; }
  }

  lemma ParseAllowBar(t: Table, a: string, b: string, c: nat)
    requires '|' !in b && b != "" && Lookup(t, a) == Some(Whole(c)) && c < |t.commands|
    ensures ParseAllow(t, a + "|" + b) ==
      if t.commands[c].subs == [] then Commands(Change(Signed(true, First(c, AofLog.Lower(b)))))
      else match Lookup(t, a + "|" + b) case None => Bad(ENOENT) case Some(r) => Commands(Change(Signed(true, r)))
  {
    hide Lookup, LastBar, AofLog.Lower;
    var n := a + "|" + b;
    LastBarAt(a, b, |n|);
    assert n[..|n|] == n && n[..|a|] == a && n[|a| + 1..] == b;
    assert n[|a|] == '|';
  }

  lemma ParseAllowText(t: Table, r: Rule)
    requires TableOk(t) && RuleOk(t, r) && !r.Category?
    ensures ParseAllow(t, Text(t, r)) == Commands(Change(Signed(true, r)))
  {
    hide Lookup, LastBar, TableOk, Sds.NeedsRepr;
    NamesAreWords(t, r);
    LookupWhole(t, r.c);
    var a := t.commands[r.c].name;
    match r
    case Whole(c) =>
    case OneSub(c, i) =>
      LookupSub(t, c, i);
      hide ParseAllow;
      ParseAllowBar(t, a, t.commands[c].subs[i].name, c);
    case First(c, arg) =>
      hide ParseAllow;
      ParseAllowBar(t, a, arg, c);
  }

  /** Parsing the text of a retained rule gives the rule. */
  lemma ParseToken(t: Table, s: Signed)
    requires TableOk(t) && SignedOk(t, s)
    ensures Parse(t, Token(t, s)) == Commands(Change(s))
  {
    NamesAreWords(t, s.rule);
    TextPlain(t, s.rule);
    var text := Text(t, s.rule);
    assert s.rule.Category? ==> text[0] == '@' && text[1..] == t.categories[s.rule.g];
    assert !s.rule.Category? ==> text[0] == t.commands[s.rule.c].name[0];
    assert text != "@all" by {
      if s.rule.Category? { assert "@all"[1..] == "all"; }
    }
    if s.rule.Category? {
      FindCategoryUnique(t, s.rule.g);
      WordPlain(t.categories[s.rule.g]);
    } else if s.allow {
      ParseAllowText(t, s.rule);
    } else if s.rule.Whole? {
      LookupWhole(t, s.rule.c);
    } else {
      LookupSub(t, s.rule.c, s.rule.i);
    }
    hide TableOk, Parse, ParseAllow, Lookup, FindCategory, Word, PlainOp, AofLog.Lower;
    ParseSigned(t, s.allow, text);
  }

  lemma {:induction false} SpacedIsJoin(ts: seq<string>)
    requires forall i | 0 <= i < |ts| :: PlainOp(ts[i])
    ensures Spaced(ts) == Sds.Join(ts)
  {
    if ts != [] {
      assert PlainOp(ts[0]);
      assert Sds.Printed(ts[0]) == ts[0];
      hide PlainOp, Sds.Printed;
      SpacedIsJoin(ts[1..]);
    }
  }

  /** Splitting the retained text gives its rules. */
  lemma SplitRules(t: Table, rules: seq<Signed>)
    requires TableOk(t) && AllOk(t, rules)
    ensures Sds.SplitArgs(Spaced(Tokens(t, rules))) == Some(Tokens(t, rules))
  {
    var ts := Tokens(t, rules);
    TokensPlain(t, rules);
    SpacedIsJoin(ts);
    forall w | w in ts
      ensures Sds.Splittable(w)
    {
      var i :| 0 <= i < |ts| && ts[i] == w;
      PlainIsSplittable(w);
    }
    hide TableOk, PlainOp, Sds.Splittable, Spaced;
    Sds.SplitJoin(ts);
  }

  lemma PlainIsSplittable(w: string)
    requires PlainOp(w) && w != ""
    ensures Sds.Splittable(w)
  {
    assert forall i | 0 <= i < |w| :: !Sds.Special(w[i]);
  }
}
