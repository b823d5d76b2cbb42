/** Base-10 numerals: the value strtol accumulates from a run of digits, and
    the text printf's `%d` writes for a timestamp. */
module Decimal {
  import opened Entries

  predicate IsDigit(c: char) { '0' <= c <= '9' }

  predicate IsDigits(s: string) { forall i :: 0 <= i < |s| ==> IsDigit(s[i]) }

  function DigitValue(c: char): nat
    requires IsDigit(c)
  {
    (c as int) - ('0' as int)
  }

  function DigitChar(d: nat): (c: char)
    requires d < 10
    ensures IsDigit(c) && DigitValue(c) == d
  {
    (('0' as int) + d) as char
  }

  /** The value of a digit string, most significant digit first. */
  function DigitsValue(s: string): nat
    requires IsDigits(s)
  {
    if s == [] then 0 else 10 * DigitsValue(s[..|s| - 1]) + DigitValue(s[|s| - 1])
  }

  /** The shortest numeral of n, as printf writes it. */
  function Digits(n: nat): (s: string)
    ensures IsDigits(s) && |s| >= 1
    ensures |s| > 1 ==> s[0] != '0'
  {
    if n < 10 then [DigitChar(n)] else Digits(n / 10) + [DigitChar(n % 10)]
  }

  lemma {:induction false} DigitsRoundTrip(n: nat)
    ensures DigitsValue(Digits(n)) == n
  {
    if n >= 10 {
      var s := Digits(n);
      assert s[..|s| - 1] == Digits(n / 10);
      DigitsRoundTrip(n / 10);
    }
  }

  /** printf("%d", t) */
  function DecimalString(t: int): string
  {
    if t < 0 then "-" + Digits(-t) else Digits(t)
  }

  /** Reads back a numeral produced by DecimalString: an optional '-' and at
      least one digit. */
  function ParseDecimal(s: string): Option<int>
  {
    if |s| > 1 && s[0] == '-' && IsDigits(s[1..]) then Some(-(DigitsValue(s[1..]) as int))
    else if |s| > 0 && IsDigits(s) then Some(DigitsValue(s) as int)
    else None
  }

  lemma ParseNumeral(d: string)
    requires IsDigits(d) && |d| >= 1
    ensures ParseDecimal(d) == Some(DigitsValue(d) as int)
  {
    assert d[0] != '-';
  }

  lemma ParseNegated(d: string)
    requires IsDigits(d) && |d| >= 1
    ensures ParseDecimal("-" + d) == Some(-(DigitsValue(d) as int))
  {
    assert ("-" + d)[1..] == d;
  }

  /** The numeric timestamp column can be read back exactly. */
  lemma DecimalRoundTrip(t: int)
    ensures ParseDecimal(DecimalString(t)) == Some(t)
  {
    if t < 0 {
      ParseNegated(Digits(-t));
      DigitsRoundTrip(-t);
    } else {
      ParseNumeral(Digits(t));
      DigitsRoundTrip(t);
    }
  }
}
