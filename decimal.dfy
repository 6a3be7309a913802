/** Decimal text of non-negative whole numbers: `Long.toString` and
    `Long.valueOf` restricted to the values a tweet id can take. */
module Decimal {

  /** One result of `Random.nextInt(10)`. */
  type Digit = d: int | 0 <= d < 10

  predicate IsDigit(c: char)
  {
    '0' <= c <= '9'
  }

  predicate AllDigits(s: string)
  {
    forall i :: 0 <= i < |s| ==> IsDigit(s[i])
  }

  /** The shape `Long.toString` writes for a non-negative number: digits,
      with no leading zero unless the number is 0. */
  predicate Canonical(s: string)
  {
    AllDigits(s) && |s| >= 1 && (s[0] != '0' || |s| == 1)
  }

  /** The character `StringBuilder.append(int)` writes for one digit. */
  function DigitChar(d: Digit): (c: char)
    ensures IsDigit(c)
  {
    ('0' as int + d) as char
  }

  function CharValue(c: char): (d: Digit)
    requires IsDigit(c)
    ensures DigitChar(d) == c
  {
    c as int - '0' as int
  }

  /** `Long.toString(n)` for `n >= 0`: at least one digit, and no leading
      zero unless the number is zero. */
  function NatToDecimal(n: nat): (s: string)
    ensures |s| >= 1 && AllDigits(s)
    ensures s[0] == '0' ==> n == 0
  {
    if n < 10 then [DigitChar(n)] else NatToDecimal(n / 10) + [DigitChar(n % 10)]
  }

  /** `Long.valueOf(s)` for a string of digits: leading zeros are
      allowed and contribute nothing. */
  function DecimalValue(s: string): (n: nat)
    requires AllDigits(s)
    ensures |s| >= 1 && s[0] != '0' ==> n >= 1
    ensures |s| >= 2 && s[0] != '0' ==> n >= 10
  {
    if s == [] then 0 else DecimalValue(s[..|s| - 1]) * 10 + CharValue(s[|s| - 1])
  }

  /** Reading back the text `Long.toString` wrote gives the number. */
  lemma {:induction false} ValueOfToString(n: nat)
    ensures DecimalValue(NatToDecimal(n)) == n
  {
    var s := NatToDecimal(n);
    if n >= 10 {
      assert s[..|s| - 1] == NatToDecimal(n / 10);
      ValueOfToString(n / 10);
    }
  }

  /** Writing a number read from digits without a leading zero gives back
      the same digits. */
  lemma {:induction false} ToStringOfValue(s: string)
    requires Canonical(s)
    ensures NatToDecimal(DecimalValue(s)) == s
  {
    if |s| >= 2 {
      var init := s[..|s| - 1];
      assert init[0] == s[0];
      ToStringOfValue(init);
      var n := DecimalValue(s);
      assert n / 10 == DecimalValue(init);
      assert n % 10 == CharValue(s[|s| - 1]);
      assert s == init + [s[|s| - 1]];
    }
  }
}
