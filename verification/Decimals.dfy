/** Integers as decimal text. */
module Decimals {
  import opened Base

  function DigitChar(n: nat): char
    requires n < 10
  {
    ('0' as int + n) as char
  }

  function Digits(n: nat): string {
    if n < 10 then [DigitChar(n)] else Digits(n / 10) + [DigitChar(n % 10)]
  }

  function Decimal(n: int): string {
    if n < 0 then "-" + Digits(-n) else Digits(n)
  }

  function DigitsValue(t: string): Option<nat> {
    if t == [] then Some(0)
    else
      var high, low := DigitsValue(t[..|t| - 1]), t[|t| - 1];
      if high.Some? && '0' <= low <= '9' then Some(10 * high.value + (low as int - '0' as int)) else None
  }

  lemma {:induction false} DigitsValueSnoc(t: string, n: nat)
    requires n < 10
    ensures DigitsValue(t).Some? ==> DigitsValue(t + [DigitChar(n)]) == Some(10 * DigitsValue(t).value + n)
  {
    assert (t + [DigitChar(n)])[..|t|] == t;
  }

  /** Decimal text reads back as the number and has no leading zero. */
  lemma {:induction false} DigitsRoundTrip(n: nat)
    ensures DigitsValue(Digits(n)) == Some(n)
    ensures Digits(n) != [] && (Digits(n)[0] == '0' <==> n == 0)
  {
    if n < 10 {
      DigitsValueSnoc([], n);
      assert [] + [DigitChar(n)] == [DigitChar(n)];
    } else {
      DigitsRoundTrip(n / 10);
      DigitsValueSnoc(Digits(n / 10), n % 10);
    }
  }

  /** A minus sign and nothing else tells a number from its opposite. */
  lemma DecimalRoundTrip(n: int)
    ensures n >= 0 ==> DigitsValue(Decimal(n)) == Some(n)
    ensures n < 0 ==> |Decimal(n)| > 1 && Decimal(n)[0] == '-' && DigitsValue(Decimal(n)[1..]) == Some(-n)
  {
    DigitsRoundTrip(if n < 0 then -n else n);
    assert n < 0 ==> Decimal(n)[1..] == Digits(-n);
  }
}
