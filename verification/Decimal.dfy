/** Decimal text of machine integers: `fmt`'s %d and `strconv.Atoi` on a 64-bit platform. */
module Decimal {
  import opened Text

  type Int64 = x: int | -0x8000_0000_0000_0000 <= x < 0x8000_0000_0000_0000

  predicate IsDigit(c: char) {
    '0' <= c <= '9'
  }

  function DigitChar(d: nat): char
    requires d < 10
  {
    '0' + d as char
  }

  function FormatNat(n: nat): (s: string)
    ensures s != ""
  {
    if n < 10 then [DigitChar(n)] else FormatNat(n / 10) + [DigitChar(n % 10)]
  }

  function FormatInt(x: int): string {
    if x < 0 then "-" + FormatNat(-x) else FormatNat(x)
  }

  predicate AllDigits(s: string) {
    forall i :: 0 <= i < |s| ==> IsDigit(s[i])
  }

  function DigitsValue(s: string): nat
    requires AllDigits(s)
  {
    if s == "" then 0 else 10 * DigitsValue(s[..|s| - 1]) + (s[|s| - 1] - '0') as nat
  }

  /** An optional sign, at least one digit, nothing else, and a value that fits. */
  function Atoi(s: string): Option<Int64> {
    var signed := s != "" && (s[0] == '-' || s[0] == '+');
    var digits := if signed then s[1..] else s;
    if digits == "" || !AllDigits(digits) then None
    else
      var value: int := if signed && s[0] == '-' then -(DigitsValue(digits) as int) else DigitsValue(digits) as int;
      if -0x8000_0000_0000_0000 <= value < 0x8000_0000_0000_0000 then Some(value) else None
  }

  lemma {:induction false} FormatNatDigits(n: nat)
    ensures AllDigits(FormatNat(n)) && DigitsValue(FormatNat(n)) == n
  {
    if n >= 10 {
      FormatNatDigits(n / 10);
      var s := FormatNat(n);
      assert s[..|s| - 1] == FormatNat(n / 10);
    } else {
      assert FormatNat(n)[..0] == "";
    }
  }

  /** Digits without a sign read as their value, if that fits. */
  lemma AtoiDigits(digits: string)
    requires digits != "" && AllDigits(digits) && DigitsValue(digits) < 0x8000_0000_0000_0000
    ensures Atoi(digits) == Some(DigitsValue(digits))
  {
    assert IsDigit(digits[0]);
  }

  lemma AtoiNegative(digits: string)
    requires digits != "" && AllDigits(digits) && DigitsValue(digits) <= 0x8000_0000_0000_0000
    ensures Atoi("-" + digits) == Some(-(DigitsValue(digits) as int))
  {
    assert ("-" + digits)[1..] == digits;
  }

  lemma AtoiFormat(x: Int64)
    ensures Atoi(FormatInt(x)) == Some(x)
  {
    var y: int := x;
    if y < 0 {
      FormatNatDigits(-y);
      AtoiNegative(FormatNat(-y));
    } else {
      FormatNatDigits(y);
      AtoiDigits(FormatNat(y));
    }
  }

  lemma DigitsOnly(digits: string)
    requires digits != "" && AllDigits(digits)
    ensures Atoi(digits) == if DigitsValue(digits) < 0x8000_0000_0000_0000 then Some(DigitsValue(digits)) else None
    ensures Atoi("+" + digits) == Atoi(digits)
  {
    assert IsDigit(digits[0]);
    assert ("+" + digits)[1..] == digits;
  }

  /** A plus sign is read as well, and numbers that do not fit are refused. */
  lemma AtoiLimits(x: nat)
    ensures x < 0x8000_0000_0000_0000 ==> Atoi("+" + FormatInt(x)) == Some(x)
    ensures x >= 0x8000_0000_0000_0000 ==> Atoi(FormatInt(x)) == None
    ensures x > 0x8000_0000_0000_0000 ==> Atoi("-" + FormatInt(x)) == None
  {
    FormatNatDigits(x);
    DigitsOnly(FormatNat(x));
    assert ("-" + FormatNat(x))[1..] == FormatNat(x);
  }

  lemma FormatHasNo(x: int, c: char)
    requires !IsDigit(c) && c != '-'
    ensures c !in FormatInt(x)
  {
    FormatNatDigits(if x < 0 then -x else x);
  }
}
