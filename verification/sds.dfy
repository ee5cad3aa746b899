/** Quoting and splitting of argument lines (sds.c). */
module Sds {
  import opened Base
  import opened Decimal

  const BELL := 7 as char
  const BACKSPACE := 8 as char

  predicate IsPrint(c: char) { 32 <= c as int < 127 }

  predicate IsByte(c: char) { c as int < 256 }

  predicate Bytes(s: string) { forall i | 0 <= i < |s| :: IsByte(s[i]) }

  /** `sdsneedsrepr` for one character. */
  predicate Special(c: char) { c == '\\' || c == '"' || !IsPrint(c) || IsSpace(c) }

  predicate NeedsRepr(s: string) { exists i :: 0 <= i < |s| && Special(s[i]) }

  function HexChar(d: nat): (c: char)
    requires d < 16
    ensures IsHex(c) && HexValue(c) == d && IsPrint(c) && !IsSpace(c)
  {
    if d < 10 then ('0' as int + d) as char else ('a' as int + d - 10) as char
  }

  predicate IsHex(c: char) { '0' <= c <= '9' || 'a' <= c <= 'f' || 'A' <= c <= 'F' }

  function HexValue(c: char): nat
    requires IsHex(c)
  {
    if c <= '9' then c as int - '0' as int
    else if c >= 'a' then c as int - 'a' as int + 10
    else c as int - 'A' as int + 10
  }

  /** `sdscatrepr` for one character. */
  function Escape(c: char): string {
    if c == '\\' || c == '"' then ['\\', c]
    else if c == '\n' then "\\n"
    else if c == '\r' then "\\r"
    else if c == '\t' then "\\t"
    else if c == BELL then "\\a"
    else if c == BACKSPACE then "\\b"
    else if IsPrint(c) then [c]
    else ['\\', 'x', HexChar(c as int / 16 % 16), HexChar(c as int % 16)]
  }

  function EscapeAll(s: string): string {
    if s == "" then "" else Escape(s[0]) + EscapeAll(s[1..])
  }

  /** `sdscatrepr`. */
  function Repr(s: string): string {
    "\"" + EscapeAll(s) + "\""
  }

  /** How a word is printed: quoted only when needed. */
  function Printed(s: string): string {
    if NeedsRepr(s) then Repr(s) else s
  }

  // ---------------------------------------------------------------------
  // Splitting

  /** A C string ends here. */
  predicate End(s: string) { s == "" || s[0] == '\0' }

  predicate Stop(c: char) { c == ' ' || c == '\n' || c == '\r' || c == '\t' }

  datatype Mode = Bare | InDouble | InSingle

  function Unescape(c: char): char {
    if c == 'n' then '\n' else if c == 'r' then '\r' else if c == 't' then '\t'
    else if c == 'b' then BACKSPACE else if c == 'a' then BELL else c
  }

  predicate IsHexEscape(s: string) {
    |s| >= 4 && s[0] == '\\' && s[1] == 'x' && IsHex(s[2]) && IsHex(s[3])
  }

  /** A closing quote is followed by a space or nothing. */
  predicate ClosesHere(s: string)
    requires s != ""
  {
    End(s[1..]) || IsSpace(s[1])
  }

  /** One token, and the text behind it; None for an unterminated or misplaced quote. */
  function Token(s: string, mode: Mode, acc: string): (r: Option<(string, string)>)
    ensures r.Some? ==> |r.value.1| <= |s|
    ensures r.Some? && mode != Bare ==> |r.value.1| < |s|
    ensures r.Some? && mode == Bare && !End(s) ==> |r.value.1| < |s|
    decreases |s|
  {
    match mode
    case Bare =>
      if End(s) then Some((acc, s))
      else if Stop(s[0]) then Some((acc, s[1..]))
      else if s[0] == '"' then Token(s[1..], InDouble, acc)
      else if s[0] == '\'' then Token(s[1..], InSingle, acc)
      else Token(s[1..], Bare, acc + [s[0]])
    case InDouble =>
      if End(s) then None
      else if IsHexEscape(s) then Token(s[4..], InDouble, acc + [(16 * HexValue(s[2]) + HexValue(s[3])) as char])
      else if s[0] == '\\' && !End(s[1..]) then Token(s[2..], InDouble, acc + [Unescape(s[1])])
      else if s[0] == '"' then if ClosesHere(s) then Some((acc, s[1..])) else None
      else Token(s[1..], InDouble, acc + [s[0]])
    case InSingle =>
      if End(s) then None
      else if s[0] == '\\' && !End(s[1..]) && s[1] == '\'' then Token(s[2..], InSingle, acc + "'")
      else if s[0] == '\'' then if ClosesHere(s) then Some((acc, s[1..])) else None
      else Token(s[1..], InSingle, acc + [s[0]])
  }

  function SkipBlanks(s: string): (r: string)
    ensures |r| <= |s| && (End(r) || !IsSpace(r[0]))
  {
    if !End(s) && IsSpace(s[0]) then SkipBlanks(s[1..]) else s
  }

  /** `sdssplitargs`. */
  function SplitArgs(s: string): Option<seq<string>>
    decreases |s|
  {
    var p := SkipBlanks(s);
    if End(p) then Some([])
    else match Token(p, Bare, "")
      case None => None
      case Some((token, rest)) =>
        match SplitArgs(rest)
        case None => None
        case Some(tokens) => Some([token] + tokens)
  }

  // ---------------------------------------------------------------------
  // Splitting undoes printing

  /** Words that survive: a bare word must not hold a single quote. */
  predicate Splittable(w: string) { w != "" && Bytes(w) && (NeedsRepr(w) || '\'' !in w) }

  lemma EscapeUndone(c: char, s: string, acc: string)
    requires IsByte(c)
    ensures Token(Escape(c) + s, InDouble, acc) == Token(s, InDouble, acc + [c])
  {
    var e := Escape(c);
    assert |e| == 1 || |e| == 2 || |e| == 4;
    assert (e + s)[|e|..] == s;
    assert (e + s)[0] == e[0];
    if |e| == 4 {
      var h, l := c as int / 16, c as int % 16;
      assert (e + s)[1] == 'x' && (e + s)[2] == HexChar(h) && (e + s)[3] == HexChar(l);
      assert IsHexEscape(e + s);
      assert 16 * h + l == c as int;
    } else if |e| == 2 {
      assert (e + s)[1..] == e[1..] + s;
      assert (e + s)[1] == e[1] && e[1] != 'x';
      assert Unescape(e[1]) == c;
    }
  }

  lemma {:induction false} TokenRepr(w: string, acc: string, rest: string)
    requires Bytes(w) && (End(rest) || IsSpace(rest[0]))
    ensures Token(EscapeAll(w) + "\"" + rest, InDouble, acc) == Some((acc + w, rest))
    decreases |w|
  {
    hide Escape;
    if w == "" {
      var s := EscapeAll(w) + "\"" + rest;
      assert s[1..] == rest;
      assert acc + w == acc;
    } else {
      var s := EscapeAll(w[1..]) + "\"" + rest;
      assert EscapeAll(w) + "\"" + rest == Escape(w[0]) + s;
      EscapeUndone(w[0], s, acc);
      TokenRepr(w[1..], acc + [w[0]], rest);
      assert acc + [w[0]] + w[1..] == acc + w;
    }
  }

  lemma {:induction false} TokenBare(w: string, acc: string, rest: string)
    requires !NeedsRepr(w) && '\'' !in w && (rest == "" || rest[0] == ' ')
    ensures Token(w + rest, Bare, acc) == Some((acc + w, if rest == "" then "" else rest[1..]))
    decreases |w|
  {
    if w == "" {
      assert w + rest == rest;
      assert acc + w == acc;
    } else {
      assert !Special(w[0]);
      assert w[0] in w;
      assert (w + rest)[1..] == w[1..] + rest;
      TokenBare(w[1..], acc + [w[0]], rest);
      assert acc + [w[0]] + w[1..] == acc + w;
    }
  }

  /** Words printed on one line. */
  function Join(ws: seq<string>): string {
    if ws == [] then ""
    else if |ws| == 1 then Printed(ws[0])
    else Printed(ws[0]) + " " + Join(ws[1..])
  }

  /** A printed word starts and ends with neither a space nor the end of the string. */
  lemma PrintedEnds(w: string)
    requires w != ""
    ensures var p := Printed(w);
      p != "" && !IsSpace(p[0]) && p[0] != '\0' && !IsSpace(p[|p| - 1]) && p[|p| - 1] != '\0'
  {
    if !NeedsRepr(w) {
      assert !Special(w[0]) && !Special(w[|w| - 1]);
    }
  }

  lemma OpenQuote(s: string)
    ensures Token("\"" + s, Bare, "") == Token(s, InDouble, "")
  {
    assert ("\"" + s)[1..] == s;
  }

  lemma TokenPrinted(w: string, rest: string)
    requires Splittable(w) && (rest == "" || rest[0] == ' ')
    ensures var t := Token(Printed(w) + rest, Bare, "");
      t.Some? && t.value.0 == w && SkipBlanks(t.value.1) == SkipBlanks(rest)
  {
    hide Token, EscapeAll;
    assert "" + w == w;
    if NeedsRepr(w) {
      var s := EscapeAll(w) + "\"" + rest;
      assert Printed(w) + rest == "\"" + s;
      OpenQuote(s);
      TokenRepr(w, "", rest);
    } else {
      TokenBare(w, "", rest);
    }
  }

  lemma SplitFirst(s: string, t: string)
    requires SkipBlanks(s) == SkipBlanks(t)
    ensures SplitArgs(s) == SplitArgs(t)
  {
  }

  /** Splitting a printed line gives back its words. */
  lemma {:induction false} SplitJoin(ws: seq<string>)
    requires forall w | w in ws :: Splittable(w)
    ensures SplitArgs(Join(ws)) == Some(ws)
  {
    if ws != [] {
      var w, more := ws[0], ws[1..];
      var rest := if more == [] then "" else " " + Join(more);
      assert Splittable(w);
      assert Join(ws) == Printed(w) + rest;
      PrintedEnds(w);
      TokenPrinted(w, rest);
      hide Printed, Token, Splittable;
      SplitJoin(more);
      if more != [] {
        assert rest[1..] == Join(more);
      }
      var token := Token(Join(ws), Bare, "").value;
      assert SkipBlanks(Join(ws)) == Join(ws);
      SplitFirst(token.1, rest);
      SplitFirst(rest, Join(more));
      assert ws == [w] + more;
    }
  }

  /** Without backslashes and double quotes, no single quote gets into a token. */
  lemma {:induction false} QuotesVanish(s: string, mode: Mode, acc: string)
    requires mode != InDouble && '\\' !in s && '"' !in s && '\'' !in acc
    ensures var r := Token(s, mode, acc); r.Some? ==> '\'' !in r.value.0
    decreases |s|
  {
    if !End(s) {
      assert s[0] in s;
      var next := if mode == Bare && s[0] == '\'' then InSingle else mode;
      QuotesVanish(s[1..], next, if s[0] == '\'' then acc else acc + [s[0]]);
    }
  }

  /** A bare word with a single quote is never read back. */
  lemma SingleQuoteLost(w: string, rest: string)
    requires !NeedsRepr(w) && '\'' in w && '\\' !in rest && '"' !in rest
    ensures var r := Token(w + rest, Bare, ""); r.Some? ==> r.value.0 != w
  {
    assert forall i | 0 <= i < |w| :: !Special(w[i]);
    QuotesVanish(w + rest, Bare, "");
  }

  /** Without a quote a quoted part does not end. */
  lemma {:induction false} NeverCloses(s: string, acc: string)
    requires '\'' !in s
    ensures Token(s, InSingle, acc) == None
    decreases |s|
  {
    if !End(s) {
      assert s[0] in s;
      assert |s| >= 2 ==> s[1] in s;
      NeverCloses(s[1..], acc + [s[0]]);
    }
  }

  /** A bare word that holds a single quote, not at its end, cannot be split: the quote
      opens a part that never ends, or ends inside the word. */
  lemma {:induction false} QuoteInside(w: string, rest: string, mode: Mode, acc: string)
    requires !NeedsRepr(w) && '\'' !in rest && mode != InDouble
    requires mode == Bare ==> '\'' in w
    requires w != "" ==> w[|w| - 1] != '\''
    ensures Token(w + rest, mode, acc) == None
    decreases |w|
  {
    if w == "" {
      assert w + rest == rest;
      NeverCloses(rest, acc);
    } else {
      var s := w + rest;
      assert forall i | 0 <= i < |w| :: !Special(w[i]);
      assert s[1..] == w[1..] + rest && s[0] == w[0] && (|w| > 1 ==> s[1] == w[1]);
      if mode == InSingle && w[0] == '\'' {
        assert !ClosesHere(s);
      } else {
        var next := if w[0] == '\'' then InSingle else mode;
        QuoteInside(w[1..], rest, next, if w[0] == '\'' then acc else acc + [w[0]]);
      }
    }
  }
}
