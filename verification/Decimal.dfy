/** Decimal rendering of unsigned numbers. */
module Decimal {
  import opened Bytes

  /** ASCII digits of `n`, without leading zeros. */
  function Digits(n: nat): (s: seq<byte>)
    ensures |s| >= 1
  {
    if n < 10 then [48 + n] else Digits(n / 10) + [48 + n % 10]
  }

  /** The number that a run of digits stands for. */
  function NumberOf(s: seq<byte>): int {
    if s == [] then 0 else 10 * NumberOf(s[..|s| - 1]) + (s[|s| - 1] as int - 48)
  }

  lemma {:induction false} DigitsMean(n: nat)
    ensures NumberOf(Digits(n)) == n && (forall c :: c in Digits(n) ==> 48 <= c <= 57)
    ensures |Digits(n)| > 1 ==> Digits(n)[0] != 48
  {
    if n < 10 {
      assert [48 + n][..0] == [] && NumberOf([]) == 0;
    } else {
      DigitsMean(n / 10);
      assert Digits(n)[..|Digits(n)| - 1] == Digits(n / 10);
      if n / 10 < 10 { assert Digits(n / 10) == [48 + n / 10]; }
    }
  }

  /** How many digits `n` has. */
  function DigitCount(n: nat): nat {
    |Digits(n)|
  }

  lemma {:induction false} MoreDigits(m: nat, n: nat)
    requires m <= n
    ensures DigitCount(m) <= DigitCount(n)
    decreases n
  {
    if m < 10 {
    } else {
      MoreDigits(m / 10, n / 10);
    }
  }

  /** Numbers with the same digits are the same. */
  lemma {:induction false} DigitsInjective(m: nat, n: nat)
    requires Digits(m) == Digits(n)
    ensures m == n
  {
    if m >= 10 && n >= 10 {
      var a, b := Digits(m / 10), Digits(n / 10);
      assert Digits(m)[..|a|] == a && Digits(n)[..|b|] == b;
      assert Digits(m)[|a|] == 48 + m % 10 && Digits(n)[|b|] == 48 + n % 10;
      DigitsInjective(m / 10, n / 10);
    }
  }
}
