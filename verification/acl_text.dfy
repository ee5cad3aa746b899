/** The retained rules as text (acl.c): removing rules in place from a string of tokens
    separated by spaces. */
module AclText {
  function Spaced(tokens: seq<string>): string {
    if tokens == [] then "" else if |tokens| == 1 then tokens[0] else tokens[0] + " " + Spaced(tokens[1..])
  }

  /** Tokens that are followed by others. */
  function Leading(tokens: seq<string>): string {
    if tokens == [] then "" else tokens[0] + " " + Leading(tokens[1..])
  }

  predicate TokensOk(tokens: seq<string>) { forall i | 0 <= i < |tokens| :: tokens[i] != "" && ' ' !in tokens[i] }

  /** The token, without its sign, is the rule or lies below it. */
  predicate Matches(rule: string, token: string)
    requires token != ""
  {
    token[1..] == rule || rule + "|" <= token[1..]
  }

  function Remaining(tokens: seq<string>, rule: string): seq<string>
    requires TokensOk(tokens)
  {
    if tokens == [] then []
    else (if Matches(rule, tokens[0]) then [] else [tokens[0]]) + Remaining(tokens[1..], rule)
  }

  lemma {:induction false} LeadingAppend(a: seq<string>, b: seq<string>)
    ensures Leading(a + b) == Leading(a) + Leading(b)
  {
    if a == [] {
      assert a + b == b;
    } else {
      assert (a + b)[1..] == a[1..] + b;
      LeadingAppend(a[1..], b);
    }
  }

  lemma {:induction false} SpacedAppend(a: seq<string>, b: seq<string>)
    requires b != []
    ensures Spaced(a + b) == Leading(a) + Spaced(b)
  {
    if a == [] {
      assert a + b == b;
    } else {
      assert (a + b)[1..] == a[1..] + b;
      SpacedAppend(a[1..], b);
    }
  }

  /** The position of the next space, or the end. */
  function SpaceFrom(s: string, p: nat): (e: nat)
    requires p <= |s|
    ensures p <= e <= |s| && ' ' !in s[p..e] && (e < |s| ==> s[e] == ' ')
    decreases |s| - p
  {
    if p == |s| || s[p] == ' ' then p
    else
      var e := SpaceFrom(s, p + 1);
      assert s[p..e] == [s[p]] + s[p + 1..e];
      e
  }

  lemma {:induction false} SpaceFound(s: string, p: nat, q: nat)
    requires p <= q < |s| && s[q] == ' ' && forall i | p <= i < q :: s[i] != ' '
    ensures SpaceFrom(s, p) == q
    decreases q - p
  {
    if p < q {
      SpaceFound(s, p + 1, q);
    }
  }

  lemma {:induction false} NoSpaceFound(s: string, p: nat)
    requires p <= |s| && forall i | p <= i < |s| :: s[i] != ' '
    ensures SpaceFrom(s, p) == |s|
    decreases |s| - p
  {
    if p < |s| {
      NoSpaceFound(s, p + 1);
    }
  }

  lemma LastTokenEnd(s: string, p: nat, tok: string)
    requires p <= |s| && s[p..] == tok && tok != "" && ' ' !in tok
    ensures p < |s| && SpaceFrom(s, p + 1) == |s|
  {
    forall i | p <= i < |s|
      ensures s[i] != ' '
    {
      assert s[i] == tok[i - p] && tok[i - p] in tok;
    }
    NoSpaceFound(s, p + 1);
  }

  lemma InnerTokenEnd(s: string, p: nat, tok: string, more: string)
    requires p <= |s| && s[p..] == tok + " " + more && tok != "" && ' ' !in tok
    ensures var q := p + |tok|; q < |s| && SpaceFrom(s, p + 1) == q && s[p..q] == tok && s[q + 1..] == more
  {
    var q := p + |tok|;
    assert s[q] == s[p..][|tok|] == ' ';
    forall i | p <= i < q
      ensures s[i] != ' '
    {
      assert s[i] == s[p..][i - p] == tok[i - p] && tok[i - p] in tok;
    }
    SpaceFound(s, p + 1, q);
    assert s[p..q] == s[p..][..|tok|] == tok;
    assert s[q + 1..] == s[p..][|tok| + 1..] == more;
  }

  /** Where the token at `p` ends. */
  lemma TokenEnd(s: string, p: nat, rest: seq<string>)
    requires p <= |s| && rest != [] && TokensOk(rest) && s[p..] == Spaced(rest)
    ensures p < |s|
    ensures var e := SpaceFrom(s, p + 1); s[p..e] == rest[0] && (e == |s| <==> |rest| == 1)
    ensures var e := SpaceFrom(s, p + 1); e < |s| ==> s[e + 1..] == Spaced(rest[1..])
  {
    hide SpaceFrom;
    if |rest| == 1 {
      LastTokenEnd(s, p, rest[0]);
      assert s[p..|s|] == s[p..];
    } else {
      InnerTokenEnd(s, p, rest[0], Spaced(rest[1..]));
    }
  }

  lemma PrefixMatch(rule: string, existing: string)
    ensures var n := if |existing| < |rule| then |existing| else |rule|;
      (existing[..n] == rule[..n] && (|existing| == |rule| || (|existing| > |rule| && existing[|rule|] == '|')))
      <==> existing == rule || rule + "|" <= existing
  {
    var n := if |existing| < |rule| then |existing| else |rule|;
    assert |existing| == |rule| ==> existing[..n] == existing && rule[..n] == rule;
    if |existing| > |rule| {
      assert rule[..n] == rule && (rule + "|")[|rule|] == '|';
      assert existing[..|rule| + 1] == existing[..|rule|] + [existing[|rule|]];
    }
  }

  lemma Unfold(rest: seq<string>, rule: string)
    requires TokensOk(rest)
    ensures Leading([]) == "" && Spaced([]) == "" && Remaining([], rule) == []
    ensures rest != [] ==> Spaced(rest) != ""
    ensures rest != [] ==>
      Remaining(rest, rule) ==
      (if rest[0][1..] == rule || rule + "|" <= rest[0][1..] then [] else [rest[0]]) + Remaining(rest[1..], rule)
  {
  }

  lemma {:induction false} LeadingIsSpaced(done: seq<string>)
    requires done != []
    ensures Leading(done) == Spaced(done) + " "
  {
    if |done| > 1 {
      LeadingIsSpaced(done[1..]);
    } else {
      assert done[1..] == [];
    }
  }

  /** What the loop knows when token `rest[0]` starts at `p`. */
  predicate At(s: string, p: nat, done: seq<string>, rest: seq<string>) {
    p <= |s| && if rest == [] then p == |s| && s == Spaced(done) else s[..p] == Leading(done) && s[p..] == Spaced(rest)
  }

  lemma RemoveStep(s: string, p: nat, copyPosition: nat, copyEnd: nat, done: seq<string>, rest: seq<string>)
    requires rest != [] && At(s, p, done, rest)
    requires p <= copyEnd <= |s| && copyPosition == if |rest| == 1 && p != 0 then p - 1 else p
    requires if |rest| == 1 then copyEnd == |s| else s[copyEnd..] == Spaced(rest[1..])
    ensures At(s[..copyPosition] + s[copyEnd..], copyPosition, done, rest[1..])
  {
    var s' := s[..copyPosition] + s[copyEnd..];
    if |rest| == 1 {
      if p == 0 {
        assert Leading(done) == "";
        assert done == [];
      } else {
        assert done != [];
        LeadingIsSpaced(done);
        assert s' == s[..p][..p - 1];
      }
    } else {
      assert s'[..p] == s[..p] && s'[p..] == s[copyEnd..];
    }
    hide Spaced, Leading;
  }

  lemma KeepStep(s: string, p: nat, copyEnd: nat, done: seq<string>, rest: seq<string>)
    requires rest != [] && At(s, p, done, rest) && p <= copyEnd <= |s|
    requires if |rest| == 1 then copyEnd == |s| else s[p..copyEnd] == rest[0] + " " && s[copyEnd..] == Spaced(rest[1..])
    ensures At(s, copyEnd, done + [rest[0]], rest[1..])
  {
    hide Spaced;
    var tok := rest[0];
    assert s == s[..p] + s[p..];
    SpacedAppend(done, rest);
    LeadingAppend(done, [tok]);
    if |rest| == 1 {
      assert rest == [tok] && rest[1..] == [];
    } else {
      assert Leading([tok]) == tok + " " by { assert [tok][1..] == []; }
      hide Leading;
      assert s[..copyEnd] == s[..p] + s[p..copyEnd];
      assert s[..copyEnd] == Leading(done + [tok]);
    }
  }

  /** `ACLSelectorRemoveCommandRule`, moving the later rules over each removed one. */
  method RemoveCommandRule(commandRules: string, newRule: string, ghost tokens: seq<string>) returns (s: string)
    requires TokensOk(tokens) && commandRules == Spaced(tokens)
    ensures s == Spaced(Remaining(tokens, newRule))
  {
    hide Spaced, Leading, Matches, Remaining, SpaceFrom;
    s := commandRules;
    var p := 0;
    ghost var done: seq<string>, rest := [], tokens;
    Unfold(tokens, newRule);
    while p < |s|
      invariant TokensOk(rest) && At(s, p, done, rest)
      invariant done + Remaining(rest, newRule) == Remaining(tokens, newRule)
      decreases |rest|
    {
      var copyPosition := p;
      TokenEnd(s, p, rest);
      Unfold(rest, newRule);
      ghost var tok, more := rest[0], rest[1..];
      var ruleEnd := SpaceFrom(s, p + 1);
      var existing := s[p + 1..ruleEnd];
      assert existing == s[p..ruleEnd][1..];
      if ruleEnd == |s| && copyPosition != 0 { copyPosition := copyPosition - 1; }
      var copyEnd := if ruleEnd < |s| then ruleEnd + 1 else ruleEnd;
      var n := if |existing| < |newRule| then |existing| else |newRule|;
      PrefixMatch(newRule, existing);
      if existing[..n] == newRule[..n] && (|existing| == |newRule| || (|existing| > |newRule| && existing[|newRule|] == '|')) {
        RemoveStep(s, p, copyPosition, copyEnd, done, rest);
        s := s[..copyPosition] + s[copyEnd..];
        p := copyPosition;
        rest := more;
      } else {
        assert ruleEnd < |s| ==> s[p..copyEnd] == s[p..ruleEnd] + " ";
        KeepStep(s, p, copyEnd, done, rest);
        assert done + ([tok] + Remaining(more, newRule)) == done + [tok] + Remaining(more, newRule);
        p := copyEnd;
        done, rest := done + [tok], more;
      }
    }
    Unfold(rest, newRule);
    assert s[p..] == "";
    assert rest == [] && done + [] == done;
  }
}
