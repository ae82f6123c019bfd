/** Decimal digit strings and powers of ten. */
module Digits {
  import opened Text

  function Pow10(n: nat): (p: nat)
    ensures p > 0
  {
    if n == 0 then 1 else 10 * Pow10(n - 1)
  }

  lemma {:induction false} Pow10Sum(a: nat, b: nat)
    ensures Pow10(a + b) == Pow10(a) * Pow10(b)
  {
    if a > 0 {
      Pow10Sum(a - 1, b);
    }
  }

  function Digit(n: nat): (c: char)
    requires n < 10
    ensures IsDigit(c)
  {
    '0' + n as char
  }

  function DigitValue(c: char): nat
    requires IsDigit(c)
  {
    (c - '0') as nat
  }

  /** A natural number in base ten, without leading zeros. */
  function NatText(n: nat): string {
    if n < 10 then [Digit(n)] else NatText(n / 10) + [Digit(n % 10)]
  }

  /** The number a digit string denotes. */
  function TextNat(s: string): nat
    requires AllDigits(s)
  {
    if s == "" then 0 else 10 * TextNat(s[..|s| - 1]) + DigitValue(s[|s| - 1])
  }

  function Zeros(n: nat): string {
    seq(n, _ => '0')
  }

  /** Drops leading zeros, keeping the last digit. */
  function StripZeros(s: string): string {
    if |s| > 1 && s[0] == '0' then StripZeros(s[1..]) else s
  }

  lemma {:induction false} NatTextFacts(n: nat)
    ensures NatText(n) != "" && AllDigits(NatText(n)) && TextNat(NatText(n)) == n
    ensures n > 0 ==> NatText(n)[0] != '0'
  {
    if n >= 10 {
      NatTextFacts(n / 10);
      assert NatText(n)[..|NatText(n)| - 1] == NatText(n / 10);
    } else {
      assert [Digit(n)][..0] == "";
    }
  }

  lemma TenTimes(x: nat, p: nat)
    ensures x * (10 * p) == 10 * (x * p)
  {
  }

  lemma {:induction false} TextNatConcat(a: string, b: string)
    requires AllDigits(a) && AllDigits(b)
    ensures AllDigits(a + b) && TextNat(a + b) == TextNat(a) * Pow10(|b|) + TextNat(b)
    decreases |b|
  {
    if b == "" {
      assert a + b == a;
    } else {
      var front := b[..|b| - 1];
      TextNatConcat(a, front);
      assert (a + b)[..|a + b| - 1] == a + front;
      TenTimes(TextNat(a), Pow10(|front|));
    }
  }

  lemma {:induction false} ZerosAreZero(n: nat)
    ensures AllDigits(Zeros(n)) && TextNat(Zeros(n)) == 0
  {
    if n > 0 {
      ZerosAreZero(n - 1);
      assert Zeros(n)[..n - 1] == Zeros(n - 1);
    }
  }

  lemma {:induction false} TextNatBound(s: string)
    requires AllDigits(s)
    ensures TextNat(s) < Pow10(|s|)
  {
    if s != "" {
      TextNatBound(s[..|s| - 1]);
    }
  }

  /** A digit string without a leading zero is how its number prints. */
  lemma {:induction false} NatTextOf(s: string)
    requires s != "" && AllDigits(s) && (|s| > 1 ==> s[0] != '0')
    ensures NatText(TextNat(s)) == s
  {
    if |s| == 1 {
      assert s[..0] == "";
    } else {
      var front := s[..|s| - 1];
      NatTextOf(front);
      Positive(front);
      assert TextNat(s) / 10 == TextNat(front) && TextNat(s) % 10 == DigitValue(s[|s| - 1]);
      assert s == front + [s[|s| - 1]];
    }
  }

  lemma {:induction false} Positive(s: string)
    requires s != "" && AllDigits(s) && s[0] != '0'
    ensures TextNat(s) > 0
  {
    if |s| > 1 {
      Positive(s[..|s| - 1]);
    }
  }

  lemma {:induction false} StripFacts(s: string)
    requires AllDigits(s) && s != ""
    ensures var t := StripZeros(s); AllDigits(t) && t != "" && |t| <= |s| && (|t| > 1 ==> t[0] != '0')
    ensures s == Zeros(|s| - |StripZeros(s)|) + StripZeros(s)
  {
    if |s| > 1 && s[0] == '0' {
      var rest := s[1..];
      StripFacts(rest);
      var n := |rest| - |StripZeros(rest)|;
      assert Zeros(n + 1) == ['0'] + Zeros(n);
      assert s == ['0'] + rest;
    }
  }

  /** Printing what a digit string denotes strips its leading zeros. */
  lemma PrintStrips(s: string)
    requires s != "" && AllDigits(s)
    ensures NatText(TextNat(s)) == StripZeros(s)
  {
    StripFacts(s);
    var n := |s| - |StripZeros(s)|;
    ZerosAreZero(n);
    TextNatConcat(Zeros(n), StripZeros(s));
    NatTextOf(StripZeros(s));
  }
}
