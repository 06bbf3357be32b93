/** Decimal text: the value of a digit string (what `str::parse` computes for the
    digit-only captures of the grammars) and the rendering of an integer (what
    `i64::to_string` writes into an event's "timestamp" detail). */
module Decimal {
  import opened Common

  function DigitValue(c: char): nat
    requires IsDigit(c)
  {
    c as int - '0' as int
  }

  function DigitChar(d: nat): (c: char)
    requires d < 10
    ensures IsDigit(c) && DigitValue(c) == d
  {
    ('0' as int + d) as char
  }

  /** The value of a string of ASCII digits, most significant first. */
  function Number(t: string): nat
    requires AllDigits(t)
  {
    if |t| == 0 then 0 else 10 * Number(t[..|t| - 1]) + DigitValue(t[|t| - 1])
  }

  /** The shortest decimal text of `n`: no leading zero except for `0` itself. */
  function ToDecimal(n: nat): (t: string)
    ensures IsNumeral(t) && (t[0] == '0' ==> t == "0")
  {
    if n < 10 then [DigitChar(n)] else ToDecimal(n / 10) + [DigitChar(n % 10)]
  }

  /** `to_string` of a signed integer. */
  function IntToString(n: int): string {
    if n < 0 then "-" + ToDecimal(-n) else ToDecimal(n)
  }

  /** Reading back what `ToDecimal` wrote gives the number again. */
  lemma {:induction false} DecimalRoundTrip(n: nat)
    ensures Number(ToDecimal(n)) == n
  {
    if n >= 10 {
      var t := ToDecimal(n);
      assert t[..|t| - 1] == ToDecimal(n / 10);
      DecimalRoundTrip(n / 10);
    }
  }

  /** And writing the value of a digit string without leading zeros gives the string
      again, so a digit string is the only shortest text of its value. */
  lemma {:induction false} NumberRoundTrip(t: string)
    requires IsNumeral(t) && (t[0] == '0' ==> t == "0")
    ensures ToDecimal(Number(t)) == t
  {
    if |t| > 1 {
      var u := t[..|t| - 1];
      assert u[0] == t[0];
      NumberRoundTrip(u);
      NumberAtLeast(u);
      assert t == u + [t[|t| - 1]];
    }
  }

  /** A digit string without a leading zero is worth at least 1. */
  lemma {:induction false} NumberAtLeast(t: string)
    requires IsNumeral(t) && t[0] != '0'
    ensures Number(t) >= 1
  {
    if |t| > 1 {
      var u := t[..|t| - 1];
      assert u[0] == t[0];
      NumberAtLeast(u);
    }
  }

  /** `to_string` is injective: two epochs with the same text are the same epoch. */
  lemma IntToStringInjective(a: int, b: int)
    requires IntToString(a) == IntToString(b)
    ensures a == b
  {
    var ta, tb := IntToString(a), IntToString(b);
    assert (ta[0] == '-') == (a < 0);
    assert (tb[0] == '-') == (b < 0);
    if a < 0 {
      assert ta[1..] == ToDecimal(-a) && tb[1..] == ToDecimal(-b);
      DecimalRoundTrip(-a);
      DecimalRoundTrip(-b);
    } else {
      DecimalRoundTrip(a);
      DecimalRoundTrip(b);
    }
  }

  const U32_MAX: nat := 0xFFFF_FFFF

  /** `parse::<u32>()` of a digit string: `None` (an error, which `unwrap` turns into a
      panic) exactly when the value does not fit in 32 bits. */
  function ParseU32(t: string): (r: Option<nat>)
    requires IsNumeral(t)
  {
    var n := Number(t);
    if n <= U32_MAX then Some(n) else None
  }

  /** Every `u32` written in decimal parses back to itself; every larger number
      written in decimal is refused. */
  lemma ParseU32RoundTrip(n: nat)
    ensures ParseU32(ToDecimal(n)) == (if n <= U32_MAX then Some(n) else None)
  {
    DecimalRoundTrip(n);
  }
}
