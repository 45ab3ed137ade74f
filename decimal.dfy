/// Rendering of an integer number of cents as a signed decimal string with
/// exactly two fraction digits ("-42.00", "5000.00", "0.05"), and the parser
/// that reads such a string back.
module Decimal {
  import opened Wrappers

  /**
   * Amounts strictly inside this bound (10^15 cents) are rendered by the
   * exporter's float64 path (divide by 100, print with two decimals) exactly
   * as FormatCents renders them: the integer converts to float64 exactly and
   * the rounding error of the division stays far below half a cent.
   */
  const ExactCentsBound: nat := 1_000_000_000_000_000

  predicate ExactAmount(cents: int) {
    -(ExactCentsBound as int) < cents < ExactCentsBound
  }

  predicate IsDigit(c: char) {
    '0' <= c <= '9'
  }

  predicate AllDigits(s: string) {
    forall i :: 0 <= i < |s| ==> IsDigit(s[i])
  }

  /** A decimal numeral with no superfluous leading zero. */
  predicate Canonical(s: string) {
    |s| >= 1 && AllDigits(s) && (|s| > 1 ==> s[0] != '0')
  }

  function DigitValue(c: char): (d: nat)
    requires IsDigit(c)
    ensures d < 10
  {
    c as int - '0' as int
  }

  function DigitChar(d: nat): (c: char)
    requires d < 10
    ensures IsDigit(c) && DigitValue(c) == d
  {
    ('0' as int + d) as char
  }

  /** The decimal numeral of `n`: canonical, and "0" only for zero. */
  function NatToDecimal(n: nat): (s: string)
    ensures Canonical(s)
    ensures s[0] == '0' <==> n == 0
  {
    if n < 10 then [DigitChar(n)] else NatToDecimal(n / 10) + [DigitChar(n % 10)]
  }

  /** The value of a string of decimal digits (the empty string is 0). */
  function DecimalToNat(s: string): nat
    requires AllDigits(s)
  {
    if s == [] then 0 else 10 * DecimalToNat(s[..|s| - 1]) + DigitValue(s[|s| - 1])
  }

  lemma {:induction false} DecimalToNatOfNatToDecimal(n: nat)
    ensures DecimalToNat(NatToDecimal(n)) == n
  {
    if n >= 10 {
      var s := NatToDecimal(n);
      assert s[..|s| - 1] == NatToDecimal(n / 10);
      DecimalToNatOfNatToDecimal(n / 10);
    }
  }

  lemma {:induction false} LeadingNonZeroIsPositive(s: string)
    requires |s| >= 1 && AllDigits(s) && s[0] != '0'
    ensures DecimalToNat(s) >= 1
  {
    if |s| > 1 {
      LeadingNonZeroIsPositive(s[..|s| - 1]);
    }
  }

  lemma {:induction false} NatToDecimalOfDecimalToNat(s: string)
    requires Canonical(s)
    ensures NatToDecimal(DecimalToNat(s)) == s
  {
    if |s| > 1 {
      var p := s[..|s| - 1];
      assert Canonical(p);
      LeadingNonZeroIsPositive(p);
      NatToDecimalOfDecimalToNat(p);
      var n := DecimalToNat(s);
      assert n / 10 == DecimalToNat(p) && n % 10 == DigitValue(s[|s| - 1]);
      assert s == p + [s[|s| - 1]];
    }
  }

  /** The magnitude part: `m / 100` in decimal, a point, then `m % 100` in two digits. */
  function FormatMagnitude(m: nat): string {
    NatToDecimal(m / 100) + "." + [DigitChar(m % 100 / 10), DigitChar(m % 10)]
  }

  /**
   * `cents / 100` as a decimal string with exactly two fraction digits,
   * preceded by '-' exactly when the amount is negative.
   */
  function FormatCents(cents: int): (s: string)
    ensures |s| >= 4 && s[|s| - 3] == '.' && IsDigit(s[|s| - 2]) && IsDigit(s[|s| - 1])
    ensures s[0] == '-' <==> cents < 0
    ensures s[0] == '-' || IsDigit(s[0])
  {
    if cents < 0 then "-" + FormatMagnitude(-cents) else FormatMagnitude(cents)
  }

  /** Reads an unsigned "<canonical digits>.<two digits>" string as cents. */
  function ParseMagnitude(t: string): Option<nat> {
    if |t| >= 4 && t[|t| - 3] == '.' && Canonical(t[..|t| - 3])
       && IsDigit(t[|t| - 2]) && IsDigit(t[|t| - 1])
    then Some(100 * DecimalToNat(t[..|t| - 3]) + 10 * DigitValue(t[|t| - 2]) + DigitValue(t[|t| - 1]))
    else None
  }

  /**
   * Reads a string in the shape FormatCents produces back into cents. A
   * leading '-' must precede a non-zero magnitude, so that each amount has
   * exactly one spelling.
   */
  function ParseCents(s: string): Option<int> {
    if |s| >= 1 && s[0] == '-' then
      match ParseMagnitude(s[1..])
      case Some(m) => if m > 0 then Some(-(m as int)) else None
      case None => None
    else
      match ParseMagnitude(s)
      case Some(m) => Some(m)
      case None => None
  }

  lemma {:induction false} ParseFormatMagnitude(m: nat)
    ensures ParseMagnitude(FormatMagnitude(m)) == Some(m)
  {
    var t := FormatMagnitude(m);
    var w := NatToDecimal(m / 100);
    assert t[..|t| - 3] == w;
    DecimalToNatOfNatToDecimal(m / 100);
  }

  /** Every amount reads back from its rendering. */
  lemma {:induction false} ParseFormatCents(cents: int)
    ensures ParseCents(FormatCents(cents)) == Some(cents)
  {
    if cents < 0 {
      ParseFormatMagnitude(-cents);
      assert FormatCents(cents)[1..] == FormatMagnitude(-cents);
    } else {
      ParseFormatMagnitude(cents);
    }
  }

  lemma {:induction false} FormatParseMagnitude(t: string, m: nat)
    requires ParseMagnitude(t) == Some(m)
    ensures FormatMagnitude(m) == t
  {
    var w := t[..|t| - 3];
    var hi, lo := DigitValue(t[|t| - 2]), DigitValue(t[|t| - 1]);
    assert m / 100 == DecimalToNat(w) && m % 100 / 10 == hi && m % 10 == lo;
    NatToDecimalOfDecimalToNat(w);
    assert t == w + "." + [t[|t| - 2], t[|t| - 1]];
  }

  /** Every string that parses is the rendering of the amount it parses to. */
  lemma {:induction false} FormatParseCents(s: string, cents: int)
    requires ParseCents(s) == Some(cents)
    ensures FormatCents(cents) == s
  {
    if |s| >= 1 && s[0] == '-' {
      FormatParseMagnitude(s[1..], -cents);
      assert s == "-" + s[1..];
    } else {
      FormatParseMagnitude(s, cents);
    }
  }

  /** Distinct amounts never share a rendering. */
  lemma FormatCentsInjective(a: int, b: int)
    requires FormatCents(a) == FormatCents(b)
    ensures a == b
  {
    ParseFormatCents(a);
    ParseFormatCents(b);
  }

  lemma FormatCentsExamples()
    ensures FormatCents(-4200) == "-42.00"
    ensures FormatCents(500000) == "5000.00"
    ensures FormatCents(5) == "0.05"
    ensures FormatCents(0) == "0.00"
  {
  }
}
