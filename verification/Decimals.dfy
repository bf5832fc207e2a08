/** Unsigned decimal numerals: how the gateway prints an octet and reads a version part. */
module Decimals {

  predicate IsDigit(c: char) {
    '0' <= c <= '9'
  }

  predicate AllDigits(s: string) {
    forall i :: 0 <= i < |s| ==> IsDigit(s[i])
  }

  function DigitChar(d: nat): char
    requires d < 10
  {
    '0' + d as char
  }

  /** The numeral of n without leading zeros. */
  function Numeral(n: nat): string {
    if n < 10 then [DigitChar(n)] else Numeral(n / 10) + [DigitChar(n % 10)]
  }

  /** The number a string of digits stands for; leading zeros are allowed. */
  function Value(s: string): nat
    requires AllDigits(s)
  {
    if s == "" then 0 else Value(s[..|s| - 1]) * 10 + (s[|s| - 1] - '0') as nat
  }

  predicate IsCanonical(s: string) {
    s != "" && AllDigits(s) && (|s| > 1 ==> s[0] != '0')
  }

  lemma {:induction false} ValueOfNumeral(n: nat)
    ensures IsCanonical(Numeral(n)) && Value(Numeral(n)) == n
    ensures n > 0 ==> Numeral(n)[0] != '0'
  {
    if n < 10 {
      assert Numeral(n)[..0] == "";
    } else {
      ValueOfNumeral(n / 10);
      assert Numeral(n)[..|Numeral(n)| - 1] == Numeral(n / 10);
    }
  }

  lemma {:induction false} CanonicalIsPositive(s: string)
    requires IsCanonical(s) && |s| > 1
    ensures Value(s) >= 10
  {
    var p := s[..|s| - 1];
    if |p| > 1 {
      CanonicalIsPositive(p);
    } else {
      assert p[..0] == "";
    }
  }

  /** A canonical numeral is the numeral of its value, so canonical numerals are equal when their values are. */
  lemma {:induction false} NumeralOfValue(s: string)
    requires IsCanonical(s)
    ensures Numeral(Value(s)) == s
  {
    var p, d := s[..|s| - 1], (s[|s| - 1] - '0') as nat;
    assert s == p + [DigitChar(d)];
    if |s| > 1 {
      NumeralOfValue(p);
      CanonicalIsPositive(s);
      assert Value(s) / 10 == Value(p) && Value(s) % 10 == d;
    }
  }
}
