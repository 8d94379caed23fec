/** Decimal conversion between Go `int` values and strings, as `strconv.Itoa`
    and `strconv.Atoi` do it on a 64-bit platform. */
module Strconv {
  import opened Wrappers

  const MinInt64: int := -0x8000_0000_0000_0000
  const MaxInt64: int := 0x7FFF_FFFF_FFFF_FFFF

  /** n fits a 64-bit Go `int`. */
  predicate InInt64(n: int) {
    MinInt64 <= n <= MaxInt64
  }

  predicate IsDigit(c: char) {
    '0' <= c <= '9'
  }

  predicate AllDigits(s: string) {
    forall i | 0 <= i < |s| :: IsDigit(s[i])
  }

  function DigitChar(d: nat): (c: char)
    requires d < 10
    ensures IsDigit(c) && c as int - '0' as int == d
  {
    ('0' as int + d) as char
  }

  /** The decimal digits of n, most significant first, without leading zeros. */
  function DigitsOf(n: nat): (s: string)
    ensures |s| > 0 && AllDigits(s)
  {
    if n < 10 then [DigitChar(n)] else DigitsOf(n / 10) + [DigitChar(n % 10)]
  }

  /** The value of a string of decimal digits (zero for the empty string). */
  function ValueOf(s: string): nat
    requires AllDigits(s)
  {
    if s == [] then 0 else 10 * ValueOf(s[..|s| - 1]) + (s[|s| - 1] as int - '0' as int)
  }

  /** `strconv.Itoa`: a minus sign for negative values, then the digits. */
  function Itoa(n: int): string {
    if n < 0 then "-" + DigitsOf(-n) else DigitsOf(n)
  }

  /** The literal forms `strconv.Atoi` accepts: an optional sign and at least
      one decimal digit; leading zeros are allowed. */
  predicate IsDecimalLiteral(s: string) {
    || (|s| > 0 && AllDigits(s))
    || (|s| > 1 && (s[0] == '+' || s[0] == '-') && AllDigits(s[1..]))
  }

  /** The mathematical value of a decimal literal. */
  function LiteralValue(s: string): int
    requires IsDecimalLiteral(s)
  {
    if s[0] == '-' then -(ValueOf(s[1..]) as int)
    else if s[0] == '+' then ValueOf(s[1..])
    else ValueOf(s)
  }

  /** `strconv.Atoi`: a syntax error or a range error are both reported as None. */
  function Atoi(s: string): (r: Option<int>)
    ensures r.Some? <==> IsDecimalLiteral(s) && InInt64(LiteralValue(s))
    ensures r.Some? ==> r.value == LiteralValue(s)
  {
    var signed := |s| > 0 && (s[0] == '+' || s[0] == '-');
    var digits := if signed then s[1..] else s;
    if |digits| == 0 || !AllDigits(digits) then None
    else
      var n: int := if signed && s[0] == '-' then -(ValueOf(digits) as int) else ValueOf(digits);
      if InInt64(n) then Some(n) else None
  }

  /** Reading back the digits of n gives n. */
  lemma {:induction false} ValueOfDigitsOf(n: nat)
    ensures ValueOf(DigitsOf(n)) == n
  {
    if n >= 10 {
      var s := DigitsOf(n);
      assert s[..|s| - 1] == DigitsOf(n / 10);
      ValueOfDigitsOf(n / 10);
    }
  }

  /** `Atoi` inverts `Itoa` on every 64-bit integer. */
  lemma AtoiItoa(n: int)
    requires InInt64(n)
    ensures Atoi(Itoa(n)) == Some(n)
  {
    var s := Itoa(n);
    if n < 0 {
      assert s[0] == '-' && s[1..] == DigitsOf(-n);
      ValueOfDigitsOf(-n);
      assert LiteralValue(s) == n;
    } else {
      assert IsDigit(s[0]) && AllDigits(s);
      ValueOfDigitsOf(n);
      assert LiteralValue(s) == n;
    }
  }

  /** Distinct integers have distinct decimal forms, whatever their size. */
  lemma ItoaInjective(a: int, b: int)
    ensures Itoa(a) == Itoa(b) ==> a == b
  {
    if Itoa(a) == Itoa(b) {
      var s := Itoa(a);
      if s[0] == '-' {
        assert a < 0 && b < 0;
        assert DigitsOf(-a) == s[1..] == DigitsOf(-b);
        ValueOfDigitsOf(-a);
        ValueOfDigitsOf(-b);
      } else {
        assert a >= 0 && b >= 0;
        ValueOfDigitsOf(a);
        ValueOfDigitsOf(b);
      }
    }
  }

  /** A decimal form is never empty and starts with a minus sign or a digit. */
  lemma ItoaShape(n: int)
    ensures |Itoa(n)| > 0 && (Itoa(n)[0] == '-' || IsDigit(Itoa(n)[0]))
  {
  }
}
