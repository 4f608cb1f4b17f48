/**
 * Decimal text for Java `int`s: `Integer.parseInt` (radix 10), which reads
 * an operand token, and the decimal rendering `PrintWriter.println(int)`
 * writes for a computed result.
 */
module Decimal {
  import opened JavaInt
  import opened Wrappers

  predicate IsDigit(c: char) {
    '0' <= c <= '9'
  }

  predicate AllDigits(s: string) {
    forall i | 0 <= i < |s| :: IsDigit(s[i])
  }

  function DigitValue(c: char): nat
    requires IsDigit(c)
  {
    c as int - '0' as int
  }

  function DigitChar(d: nat): (c: char)
    requires d < 10
    ensures IsDigit(c) && DigitValue(c) == d
  {
    ('0' as int + d) as char
  }

  /** The value of a string of decimal digits, most significant first. */
  function DigitsValue(ds: string): nat
    requires AllDigits(ds)
  {
    if ds == [] then 0
    else DigitsValue(ds[..|ds| - 1]) * 10 + DigitValue(ds[|ds| - 1])
  }

  /**
   * `Integer.parseInt(s)`: an optional `-` or `+`, then at least one digit,
   * and a value an `int` can hold; anything else is a `NumberFormatException`,
   * here `None`. Leading zeros are accepted.
   */
  function ParseInt(s: string): (r: Option<Int32>)
    ensures r.Some? ==> s != [] && IsDigit(s[|s| - 1])
    ensures r.Some? && IsDigit(s[0]) ==> AllDigits(s) && r.value == DigitsValue(s)
    ensures r.Some? && !IsDigit(s[0]) ==>
              (s[0] == '-' || s[0] == '+') && |s| > 1 && AllDigits(s[1..]) &&
              r.value == (if s[0] == '-' then -(DigitsValue(s[1..]) as int) else DigitsValue(s[1..]))
    ensures s != [] && AllDigits(s) && InRange(DigitsValue(s)) ==> r == Some(DigitsValue(s))
    ensures |s| > 1 && (s[0] == '-' || s[0] == '+') && AllDigits(s[1..]) &&
            InRange(if s[0] == '-' then -(DigitsValue(s[1..]) as int) else DigitsValue(s[1..])) ==>
              r == Some(if s[0] == '-' then -(DigitsValue(s[1..]) as int) else DigitsValue(s[1..]))
  {
    if s == [] then None
    else
      var signed := s[0] == '-' || s[0] == '+';
      var digits := if signed then s[1..] else s;
      if digits == [] || !AllDigits(digits) then None
      else
        var magnitude: int := DigitsValue(digits);
        var v := if s[0] == '-' then -magnitude else magnitude;
        if InRange(v) then Some(v) else None
  }

  /** The decimal digits of `n`, with no leading zero. */
  function NatToDecimal(n: nat): (s: string)
    ensures s != [] && AllDigits(s) && DigitsValue(s) == n
    ensures s[0] == '0' ==> n == 0
  {
    if n < 10 then [DigitChar(n)]
    else
      var prefix := NatToDecimal(n / 10);
      var s := prefix + [DigitChar(n % 10)];
      assert s[..|s| - 1] == prefix;
      s
  }

  /** `Integer.toString(n)`: a minus sign for negative values, then the digits of the magnitude. */
  function ToDecimal(n: int): (s: string)
    ensures s != []
    ensures n >= 0 ==> AllDigits(s) && DigitsValue(s) == n
    ensures n < 0 ==> s[0] == '-' && AllDigits(s[1..]) && DigitsValue(s[1..]) == -n
    ensures n >= 0 && s[0] == '0' ==> n == 0
    ensures n < 0 ==> |s| > 1 && s[1] != '0'
  {
    if n < 0 then ['-'] + NatToDecimal(-n) else NatToDecimal(n)
  }

  /** Reading back what `ToDecimal` writes gives the same `int`. */
  lemma {:induction false} ParseToDecimal(n: Int32)
    ensures ParseInt(ToDecimal(n)) == Some(n)
  {
    var s := ToDecimal(n);
    if n < 0 {
      assert s[1..] == NatToDecimal(-(n as int));
    }
  }

  /** `ToDecimal` is injective: distinct results are written differently. */
  lemma DecimalInjective(m: Int32, n: Int32)
    requires ToDecimal(m) == ToDecimal(n)
    ensures m == n
  {
    ParseToDecimal(m);
    ParseToDecimal(n);
  }

  /** A token with a character that is neither a digit nor a leading sign is rejected. */
  lemma {:induction false} ParseRejectsNonDigit(s: string, i: nat)
    requires i < |s| && !IsDigit(s[i])
    requires i > 0 || (s[0] != '-' && s[0] != '+')
    ensures ParseInt(s) == None
  {
  }
}
