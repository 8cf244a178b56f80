/** Swift's `Int(String)` on a 64-bit platform, and the decimal text it reads.

`Int(s)` accepts an optional `+` or `-` followed by one or more ASCII digits
and fails (returns nil) on anything else or on a value outside the 64-bit
range.
 */
module IntText {
  import opened Outcomes

  const MinInt: int := -0x8000_0000_0000_0000
  const MaxInt: int := 0x7FFF_FFFF_FFFF_FFFF

  /** Swift's `Int` on the platforms the collector runs on. */
  type Int64 = x: int | MinInt <= x <= MaxInt

  predicate IsDigit(c: char) {
    '0' <= c <= '9'
  }

  predicate AllDigits(s: string) {
    forall i :: 0 <= i < |s| ==> IsDigit(s[i])
  }

  /** Value of a digit string read most significant digit first. */
  function DigitsValue(s: string): nat
    requires AllDigits(s)
  {
    if s == [] then 0
    else 10 * DigitsValue(s[..|s| - 1]) + (s[|s| - 1] - '0') as nat
  }

  /** `Int(s)`. */
  function ParseInt(s: string): Option<Int64> {
    var negative := |s| > 0 && s[0] == '-';
    var digits := if |s| > 0 && (s[0] == '-' || s[0] == '+') then s[1..] else s;
    if digits == [] || !AllDigits(digits) then None
    else
      var magnitude: int := DigitsValue(digits);
      var v := if negative then -magnitude else magnitude;
      if MinInt <= v <= MaxInt then Some(v) else None
  }

  function DigitChar(d: nat): (c: char)
    requires d < 10
    ensures IsDigit(c) && (c - '0') as nat == d
  {
    '0' + d as char
  }

  /** Decimal text of a natural number, without leading zeros. */
  function FormatNat(n: nat): (s: string)
    ensures |s| > 0 && AllDigits(s)
    decreases n
  {
    if n < 10 then [DigitChar(n)] else FormatNat(n / 10) + [DigitChar(n % 10)]
  }

  /** Decimal text of an integer, with a leading `-` when negative. */
  function FormatInt(n: int): string {
    if n < 0 then "-" + FormatNat(-n) else FormatNat(n)
  }

  lemma {:induction false} FormatNatValue(n: nat)
    ensures DigitsValue(FormatNat(n)) == n
    decreases n
  {
    var s := FormatNat(n);
    if n >= 10 {
      FormatNatValue(n / 10);
      assert s[..|s| - 1] == FormatNat(n / 10);
    }
  }

  /** Reading back the decimal text of any 64-bit integer gives that integer. */
  lemma ParseFormatInt(n: Int64)
    ensures ParseInt(FormatInt(n)) == Some(n)
  {
    if n < 0 {
      ParseNegative(-(n as int));
    } else {
      ParseNonNegative(n);
    }
  }

  lemma ParseNegative(m: nat)
    requires 0 < m <= -MinInt
    ensures ParseInt("-" + FormatNat(m)) == Some(-(m as int))
  {
    var s := "-" + FormatNat(m);
    FormatNatValue(m);
    assert s[0] == '-' && s[1..] == FormatNat(m);
  }

  lemma ParseNonNegative(n: nat)
    requires n <= MaxInt
    ensures ParseInt(FormatNat(n)) == Some(n)
  {
    var s := FormatNat(n);
    FormatNatValue(n);
    assert IsDigit(s[0]);
  }

  /** Only the sign may precede the digits: text with any other non-digit fails. */
  lemma ParseIntRejectsNonDigit(s: string, i: nat)
    requires i < |s| && !IsDigit(s[i])
    requires i == 0 ==> s[0] != '+' && s[0] != '-'
    ensures ParseInt(s).None?
  {
    if s[0] == '-' || s[0] == '+' {
      assert !IsDigit(s[1..][i - 1]);
    } else {
      assert !IsDigit(s[i]);
    }
  }

  /** A decimal numeral beyond the 64-bit range does not parse, with or without a sign. */
  lemma ParseIntRejectsOverflow(n: nat)
    requires n > MaxInt
    ensures ParseInt(FormatNat(n)).None?
    ensures ParseInt("+" + FormatNat(n)).None?
  {
    FormatNatValue(n);
    assert ("+" + FormatNat(n))[1..] == FormatNat(n);
  }

  /** A negative numeral below the 64-bit range does not parse either. */
  lemma ParseIntRejectsUnderflow(n: nat)
    requires n > -MinInt
    ensures ParseInt("-" + FormatNat(n)).None?
  {
    FormatNatValue(n);
    assert ("-" + FormatNat(n))[1..] == FormatNat(n);
  }
}
