/** Decimal numbers in text: `ll2string` on one side, `strtol` and friends on the other.
    Throughout the project a `string` is a sequence of bytes. */
module Decimal {

  predicate IsDigit(c: char) { '0' <= c <= '9' }

  predicate IsSpace(c: char) { c == ' ' || c == '\t' || c == '\n' || c == '\r' || c as int == 11 || c as int == 12 }

  function Digit(d: nat): (c: char)
    requires d < 10
    ensures IsDigit(c) && DigitValue(c) == d
  {
    ('0' as int + d) as char
  }

  function DigitValue(c: char): nat
    requires IsDigit(c)
  {
    c as int - '0' as int
  }

  /** The shortest decimal representation. */
  function Digits(n: nat): (s: string)
    ensures |s| >= 1
    ensures forall i | 0 <= i < |s| :: IsDigit(s[i])
  {
    if n < 10 then [Digit(n)] else Digits(n / 10) + [Digit(n % 10)]
  }

  /** With a sign when negative. */
  function Show(n: int): string { if n < 0 then "-" + Digits(-n) else Digits(n) }

  predicate AllDigits(s: string) { forall i | 0 <= i < |s| :: IsDigit(s[i]) }

  /** Read digits from the front until something else comes. */
  function ReadNat(s: string, acc: nat): nat {
    if s == "" || !IsDigit(s[0]) then acc else ReadNat(s[1..], 10 * acc + DigitValue(s[0]))
  }

  /** `atoi`, `atoll` and `strtol` in base ten, without their range limits. */
  function StrTol(s: string): int {
    if s == "" then 0
    else if IsSpace(s[0]) then StrTol(s[1..])
    else if s[0] == '-' then 0 - ReadNat(s[1..], 0)
    else if s[0] == '+' then ReadNat(s[1..], 0)
    else ReadNat(s, 0)
  }

  lemma {:induction false} ReadAllButLast(s: string, c: char, rest: string, acc: nat)
    requires AllDigits(s) && IsDigit(c)
    requires rest == "" || !IsDigit(rest[0])
    ensures ReadNat(s + [c] + rest, acc) == 10 * ReadNat(s, acc) + DigitValue(c)
  {
    if s == "" {
      assert s + [c] + rest == [c] + rest;
      assert ([c] + rest)[1..] == rest;
    } else {
      assert (s + [c] + rest)[1..] == s[1..] + [c] + rest;
      ReadAllButLast(s[1..], c, rest, 10 * acc + DigitValue(s[0]));
    }
  }

  lemma {:induction false} ReadDigits(n: nat, rest: string)
    requires rest == "" || !IsDigit(rest[0])
    ensures ReadNat(Digits(n) + rest, 0) == n
  {
    if n < 10 {
      assert Digits(n) + rest == "" + [Digit(n)] + rest;
      ReadAllButLast("", Digit(n), rest, 0);
    } else {
      ReadDigits(n / 10, "");
      assert Digits(n / 10) + "" == Digits(n / 10);
      assert Digits(n) + rest == Digits(n / 10) + [Digit(n % 10)] + rest;
      ReadAllButLast(Digits(n / 10), Digit(n % 10), rest, 0);
    }
  }

  /** Reading back a printed number. */
  lemma ParseDigits(n: nat, rest: string)
    requires rest == "" || !IsDigit(rest[0])
    ensures StrTol(Digits(n) + rest) == n
  {
    assert IsDigit((Digits(n) + rest)[0]);
    ReadDigits(n, rest);
  }

  lemma ParseShow(n: int, rest: string)
    requires rest == "" || !IsDigit(rest[0])
    ensures StrTol(Show(n) + rest) == n
  {
    if n < 0 {
      assert Show(n) + rest == ['-'] + (Digits(-n) + rest);
      assert (Show(n) + rest)[1..] == Digits(-n) + rest;
      ReadDigits(-n, rest);
    } else {
      ParseDigits(n, rest);
    }
  }

  /** Cutting a positive number short leaves a positive number. */
  lemma {:induction false} DigitsCut(n: nat, k: nat) returns (m: nat)
    requires 1 <= k <= |Digits(n)|
    ensures Digits(n)[..k] == Digits(m) && m <= n && (n >= 1 ==> m >= 1)
  {
    if k == |Digits(n)| {
      m := n;
    } else {
      assert Digits(n)[..k] == Digits(n / 10)[..k];
      m := DigitsCut(n / 10, k);
    }
  }

  function Pow10(k: nat): nat { if k == 0 then 1 else 10 * Pow10(k - 1) }

  lemma {:induction false} DigitsLength(n: nat, k: nat)
    requires k >= 1 && n < Pow10(k)
    ensures |Digits(n)| <= k
  {
    if n >= 10 {
      DigitsLength(n / 10, k - 1);
    }
  }
}
