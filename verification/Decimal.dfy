/** Decimal printing: Go's %d and %02d for natural numbers, and why it is injective. */
module Decimal {

  function Digit(d: nat): (c: char)
    requires d < 10
    ensures '0' <= c <= '9' && c as int - '0' as int == d
  {
    ('0' as int + d) as char
  }

  /** %d */
  function Print(n: nat): (s: string)
    ensures s != "" && forall k | 0 <= k < |s| :: '0' <= s[k] <= '9'
  {
    if n < 10 then [Digit(n)] else Print(n / 10) + [Digit(n % 10)]
  }

  /** %02d */
  function PrintPadded(n: nat): string {
    if n < 10 then "0" + Print(n) else Print(n)
  }

  /** %d for a signed integer. */
  function PrintInt(n: int): string {
    if n < 0 then "-" + Print(-n) else Print(n)
  }

  /** The number a digit string denotes; leading zeros allowed. */
  function Parse(s: string): int {
    if s == "" then 0 else Parse(s[..|s| - 1]) * 10 + (s[|s| - 1] as int - '0' as int)
  }

  lemma {:induction false} ParsePrint(n: nat)
    ensures Parse(Print(n)) == n
  {
    if n >= 10 {
      ParsePrint(n / 10);
      assert Print(n)[..|Print(n)| - 1] == Print(n / 10);
    } else {
      assert Print(n)[..0] == "";
    }
  }

  lemma ParsePrintPadded(n: nat)
    ensures Parse(PrintPadded(n)) == n
  {
    ParsePrint(n);
    if n < 10 {
      assert PrintPadded(n)[..1] == "0";
      assert "0"[..0] == "";
    }
  }

  /** No superfluous digits in front: a number of several digits does not start with a zero. */
  lemma {:induction false} NoLeadingZero(n: nat)
    requires n > 0
    ensures Print(n)[0] != '0'
  {
    if n >= 10 {
      NoLeadingZero(n / 10);
    }
  }

  /** %02d adds a zero exactly to single digits. */
  lemma PaddedIs(n: nat)
    ensures |PrintPadded(n)| >= 2 && (|PrintPadded(n)| > 2 ==> PrintPadded(n)[0] != '0')
    ensures n >= 10 ==> PrintPadded(n)[0] != '0'
  {
    if n >= 10 {
      assert Print(n / 10) != "";
      NoLeadingZero(n);
    }
  }

  /** A sign in front of negative numbers only. */
  lemma SignedIs(n: int)
    ensures n >= 0 ==> Parse(PrintInt(n)) == n
    ensures n < 0 ==> PrintInt(n)[0] == '-' && Parse(PrintInt(n)[1..]) == -n
  {
    if n >= 0 {
      ParsePrint(n);
    } else {
      ParsePrint(-n);
      assert PrintInt(n)[1..] == Print(-n);
    }
  }

  lemma PrintInjective(m: nat, n: nat)
    requires Print(m) == Print(n)
    ensures m == n
  {
    ParsePrint(m);
    ParsePrint(n);
  }

  lemma PrintPaddedInjective(m: nat, n: nat)
    requires PrintPadded(m) == PrintPadded(n)
    ensures m == n
  {
    ParsePrintPadded(m);
    ParsePrintPadded(n);
  }
}
