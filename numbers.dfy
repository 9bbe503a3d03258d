/**
 * Decimal integers as the workflow runner reads and writes them: `str(n)`,
 * which turns a command number into its directive name, and Python 2's
 * `int(s)`, which reads command numbers and the output cap from configuration.
 */
module Numbers {
  import opened Wrappers
  import Text

  predicate IsDigit(c: char) {
    '0' <= c <= '9'
  }

  predicate AllDigits(s: string) {
    forall i :: 0 <= i < |s| ==> IsDigit(s[i])
  }

  function DigitChar(d: nat): char
    requires d < 10
  {
    ('0' as int + d) as char
  }

  /** The decimal digits of `n`, most significant first, without leading zeros. */
  function Digits(n: nat): (s: string)
    ensures s != [] && AllDigits(s)
    ensures |s| > 1 ==> s[0] != '0'
    decreases n
  {
    if n < 10 then [DigitChar(n)] else Digits(n / 10) + [DigitChar(n % 10)]
  }

  /** `str(n)`. */
  function Decimal(n: int): string {
    if n < 0 then "-" + Digits(-n) else Digits(n)
  }

  /** The value of a run of decimal digits. */
  function DigitsValue(s: string): nat
    requires AllDigits(s)
    decreases |s|
  {
    if s == [] then 0 else DigitsValue(s[..|s| - 1]) * 10 + (s[|s| - 1] as int - '0' as int)
  }

  /**
   * Python 2 `int(s)` in base 10: surrounding whitespace is ignored, a sign
   * may be followed by whitespace, and at least one digit must follow;
   * anything else is the `ValueError` case, `None`.
   */
  function ParseInt(s: string): Option<int> {
    ParseSigned(Text.Strip(s))
  }

  /** A stripped literal: an optional sign, whitespace after it, then digits. */
  function ParseSigned(t: string): Option<int> {
    if t != [] && (t[0] == '-' || t[0] == '+') then
      match ParseUnsigned(Text.TrimLeft(t[1..]))
      case None => None
      case Some(v) =>
        var signed := if t[0] == '-' then -(v as int) else v as int;
        Some(signed)
    else ParseUnsigned(t)
  }

  /** A non-empty run of digits. */
  function ParseUnsigned(t: string): Option<nat> {
    if t != [] && AllDigits(t) then Some(DigitsValue(t)) else None
  }

  lemma {:induction false} DigitsValueOfDigits(n: nat)
    ensures DigitsValue(Digits(n)) == n
    decreases n
  {
    if n >= 10 {
      DigitsValueOfDigits(n / 10);
      var s := Digits(n);
      assert s[..|s| - 1] == Digits(n / 10);
    }
  }

  /** Digits are not whitespace, so `strip()` and `lstrip()` leave a digit run alone. */
  lemma DigitsUntrimmed(s: string)
    requires s != [] && AllDigits(s)
    ensures Text.Strip(s) == s && Text.TrimLeft(s) == s
  {
    assert IsDigit(s[0]) && IsDigit(s[|s| - 1]);
    Text.StripTrimmed(s);
  }

  /** `int(str(n)) == n` for `n >= 0`. */
  lemma ParseDigits(n: nat)
    ensures ParseInt(Digits(n)) == Some(n)
  {
    var d := Digits(n);
    DigitsUntrimmed(d);
    assert IsDigit(d[0]);
    DigitsValueOfDigits(n);
    assert ParseUnsigned(d) == Some(n);
    assert ParseSigned(d) == Some(n);
  }

  /** `int(str(n)) == n`: reading back a printed number gives the number. */
  lemma ParseDecimal(n: int)
    ensures ParseInt(Decimal(n)) == Some(n)
  {
    if n >= 0 {
      ParseDigits(n);
    } else {
      var body := Digits(-n);
      var d := Decimal(n);
      assert d == ['-'] + body;
      assert d[0] == '-' && d[1..] == body && d[|d| - 1] == body[|body| - 1];
      assert IsDigit(body[|body| - 1]);
      Text.StripTrimmed(d);
      DigitsUntrimmed(body);
      DigitsValueOfDigits(-n);
      assert ParseUnsigned(body) == Some(-n);
      assert ParseSigned(d) == Some(n);
    }
  }

  /** Distinct numbers print differently, so `str(n)` names one directive per number. */
  lemma DecimalInjective(a: int, b: int)
    requires Decimal(a) == Decimal(b)
    ensures a == b
  {
    ParseDecimal(a);
    ParseDecimal(b);
  }
}
