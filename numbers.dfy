/**
 * Decimal numerals: reading non-negative integers, signed integers (Python's
 * `int(text)` on a plain numeral) and decimal fractions (a matrix cell such as
 * `0.222222`), and writing integers back as Python's `str(n)` does.
 */
module Numbers {
  import opened Wrappers

  predicate IsDigit(c: char)
  {
    '0' <= c <= '9'
  }

  /** Every character is a digit (the empty string included). */
  predicate AllDigits(s: string)
  {
    forall i :: 0 <= i < |s| ==> IsDigit(s[i])
  }

  /** A numeral: at least one digit and nothing else. */
  predicate IsNumeral(s: string)
  {
    |s| >= 1 && AllDigits(s)
  }

  function DigitValue(c: char): (d: nat)
    requires IsDigit(c)
    ensures d < 10
  {
    (c as int) - ('0' as int)
  }

  function DigitChar(d: nat): (c: char)
    requires d < 10
    ensures IsDigit(c) && DigitValue(c) == d
  {
    (('0' as int) + d) as char
  }

  /** The value of a digit string read in base 10, most significant digit first. */
  function Value(s: string): nat
    requires AllDigits(s)
  {
    if s == [] then 0 else 10 * Value(s[..|s| - 1]) + DigitValue(s[|s| - 1])
  }

  function Pow10(n: nat): (p: nat)
    ensures p >= 1
  {
    if n == 0 then 1 else 10 * Pow10(n - 1)
  }

  /** A digit string of `n` digits denotes less than 10^n. */
  lemma {:induction false} ValueBound(s: string)
    requires AllDigits(s)
    ensures Value(s) < Pow10(|s|)
  {
    if s != [] {
      ValueBound(s[..|s| - 1]);
    }
  }

  /** The shortest numeral for `n`, as Python's `str` writes a non-negative int. */
  function NatToString(n: nat): (s: string)
    ensures IsNumeral(s)
  {
    if n < 10 then [DigitChar(n)] else NatToString(n / 10) + [DigitChar(n % 10)]
  }

  lemma {:induction false} NatToStringValue(n: nat)
    ensures Value(NatToString(n)) == n
  {
    var s := NatToString(n);
    if n < 10 {
      assert s[..0] == [];
    } else {
      NatToStringValue(n / 10);
      assert s[..|s| - 1] == NatToString(n / 10);
    }
  }

  /** Python's `str(i)` on an int. */
  function IntToString(i: int): string
  {
    if i < 0 then "-" + NatToString(-i) else NatToString(i)
  }

  /**
   * Python's `int(text)` on a plain numeral with an optional sign; anything
   * else (a ValueError in Python) is None.
   */
  function ParseInt(s: string): (r: Option<int>)
    ensures r.Some? <==> (IsNumeral(s) || (|s| >= 2 && s[0] in {'+', '-'} && IsNumeral(s[1..])))
  {
    if IsNumeral(s) then Some(Value(s))
    else if |s| >= 2 && s[0] == '-' && IsNumeral(s[1..]) then Some(-(Value(s[1..]) as int))
    else if |s| >= 2 && s[0] == '+' && IsNumeral(s[1..]) then Some(Value(s[1..]))
    else None
  }

  /** Reading back what `str` writes gives the integer. */
  lemma IntRoundTrip(i: int)
    ensures ParseInt(IntToString(i)) == Some(i)
  {
    if i < 0 {
      NegativeRoundTrip(-i);
    } else {
      NatToStringValue(i);
    }
  }

  lemma NegativeRoundTrip(n: nat)
    ensures ParseInt("-" + NatToString(n)) == Some(-(n as int))
  {
    var t := NatToString(n);
    var s := "-" + t;
    assert s[1..] == t && s[0] == '-';
    assert !IsNumeral(s) by {
      assert !IsDigit(s[0]);
    }
    NatToStringValue(n);
  }

  /** The position of the first `c` in `s`, or |s| when there is none. */
  function IndexOf(s: string, c: char): (k: nat)
    ensures k <= |s|
    ensures forall j :: 0 <= j < k ==> s[j] != c
    ensures k < |s| ==> s[k] == c
  {
    if s == [] then 0 else if s[0] == c then 0 else 1 + IndexOf(s[1..], c)
  }

  /**
   * A non-negative decimal number: digits, optionally followed by a point and
   * more digits (`18`, `0.222222`, `1.`). Anything else is None.
   */
  function ParseDecimal(s: string): (r: Option<real>)
    ensures r.Some? ==> r.value >= 0.0
  {
    var k := IndexOf(s, '.');
    if k == |s| then
      if IsNumeral(s) then Some(Value(s) as real) else None
    else if IsNumeral(s[..k]) && AllDigits(s[k + 1..]) then Some(Decimal(s[..k], s[k + 1..]))
    else None
  }

  /** The number written `whole.fraction`. */
  function Decimal(whole: string, fraction: string): real
    requires AllDigits(whole) && AllDigits(fraction)
  {
    Value(whole) as real + Value(fraction) as real / Pow10(|fraction|) as real
  }

  /**
   * The meaning of a decimal: its whole part plus its fraction digits over
   * 10 to the number of fraction digits.
   */
  lemma DecimalValue(whole: string, fraction: string)
    requires IsNumeral(whole) && AllDigits(fraction)
    ensures ParseDecimal(whole + "." + fraction) == Some(Decimal(whole, fraction))
  {
    var s := whole + "." + fraction;
    PointAfterNumeral(whole, fraction);
    assert s[..|whole|] == whole;
    assert s[|whole| + 1..] == fraction;
  }

  lemma PointAfterNumeral(whole: string, fraction: string)
    requires IsNumeral(whole)
    ensures IndexOf(whole + "." + fraction, '.') == |whole|
  {
    var s := whole + "." + fraction;
    var k := IndexOf(s, '.');
    assert s[|whole|] == '.';
  }

  /** The fraction digits of a decimal add less than one to its whole part. */
  lemma FractionBelowOne(fraction: string)
    requires AllDigits(fraction)
    ensures Value(fraction) as real / Pow10(|fraction|) as real < 1.0
  {
    ValueBound(fraction);
    QuotientBelowOne(Value(fraction) as real, Pow10(|fraction|) as real);
  }

  lemma QuotientBelowOne(v: real, p: real)
    requires 0.0 <= v < p
    ensures v / p < 1.0
  {
    assert v / p * p == v;
  }

  /** A plain numeral reads as the integer it denotes. */
  lemma NumeralDecimal(s: string)
    requires IsNumeral(s)
    ensures ParseDecimal(s) == Some(Value(s) as real)
  {
  }
}
