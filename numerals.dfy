/** Decimal rendering of a natural number, as `format!("{}")` prints an unsigned integer. */
module Numerals {

  predicate IsDigit(c: char) {
    '0' <= c <= '9'
  }

  predicate AllDigits(s: string) {
    forall k :: 0 <= k < |s| ==> IsDigit(s[k])
  }

  function DigitChar(d: nat): char
    requires d < 10
  {
    (48 + d) as char
  }

  /** The shortest decimal numeral of x: no sign, no leading zero. */
  function Decimal(x: nat): (s: string)
    ensures |s| >= 1 && AllDigits(s)
    ensures |s| > 1 ==> s[0] != '0'
  {
    if x < 10 then [DigitChar(x)] else Decimal(x / 10) + [DigitChar(x % 10)]
  }

  /** The value a numeral denotes (the inverse reading). */
  function Value(s: string): nat
    requires AllDigits(s)
  {
    if s == [] then 0 else Value(s[..|s| - 1]) * 10 + (s[|s| - 1] as int - 48)
  }

  lemma {:induction false} ValueOfDecimal(x: nat)
    ensures Value(Decimal(x)) == x
  {
    var s := Decimal(x);
    if x < 10 {
      assert s[..0] == [];
    } else {
      ValueOfDecimal(x / 10);
      assert s[..|s| - 1] == Decimal(x / 10);
    }
  }

  /** Distinct numbers print differently. */
  lemma DecimalInjective(x: nat, y: nat)
    requires Decimal(x) == Decimal(y)
    ensures x == y
  {
    ValueOfDecimal(x);
    ValueOfDecimal(y);
  }
}
