/** Decimal numerals, as Python prints and reads non-negative ints. */
module Decimal {
  function Digit(d: nat): char
    requires d < 10
  {
    "0123456789"[d]
  }

  predicate IsDigit(c: char) {
    '0' <= c <= '9'
  }

  function DigitValue(c: char): (d: nat)
    requires IsDigit(c)
    ensures d < 10
  {
    (c as int) - ('0' as int)
  }

  /** str(n) */
  function Numeral(n: nat): (s: string)
    ensures s != [] && forall i :: 0 <= i < |s| ==> IsDigit(s[i])
  {
    if n < 10 then [Digit(n)] else Numeral(n / 10) + [Digit(n % 10)]
  }

  predicate AllDigits(s: string) {
    forall i :: 0 <= i < |s| ==> IsDigit(s[i])
  }

  /** int(s), for a string of digits */
  function Read(s: string): nat
    requires AllDigits(s)
  {
    if s == [] then 0 else 10 * Read(s[..|s| - 1]) + DigitValue(s[|s| - 1])
  }

  lemma {:induction false} ReadNumeral(n: nat)
    ensures Read(Numeral(n)) == n
  {
    if n >= 10 {
      ReadNumeral(n / 10);
      assert Numeral(n)[..|Numeral(n)| - 1] == Numeral(n / 10);
      DigitRoundTrip(n % 10);
    } else {
      DigitRoundTrip(n);
    }
  }

  ghost function PowerOfTen(k: nat): nat {
    if k == 0 then 1 else 10 * PowerOfTen(k - 1)
  }

  /** The sum of the digits, each times the power of ten of its place. */
  ghost function Positional(s: string): int {
    if s == [] then 0 else ((s[0] as int) - ('0' as int)) * PowerOfTen(|s| - 1) + Positional(s[1..])
  }

  lemma {:induction false} PositionalMore(s: string, c: char)
    ensures Positional(s + [c]) == 10 * Positional(s) + (c as int) - ('0' as int)
  {
    if s == [] {
      assert s + [c] == [c];
    } else {
      assert (s + [c])[1..] == s[1..] + [c];
      PositionalMore(s[1..], c);
      TimesTen((s[0] as int) - ('0' as int), PowerOfTen(|s| - 1));
    }
  }

  lemma TimesTen(d: int, p: int)
    ensures d * (10 * p) == 10 * (d * p)
  {
  }

  lemma {:induction false} ReadIsPositional(s: string)
    requires AllDigits(s)
    ensures Read(s) == Positional(s)
  {
    if s != [] {
      var rest, last := s[..|s| - 1], s[|s| - 1];
      ReadIsPositional(rest);
      PositionalMore(rest, last);
      assert s == rest + [last];
    }
  }

  /** A numeral is the number in base ten, without leading zeros. */
  lemma {:induction false} NumeralIsPositional(n: nat)
    ensures Positional(Numeral(n)) == n
    ensures n > 0 ==> Numeral(n)[0] != '0'
  {
    if n >= 10 {
      NumeralIsPositional(n / 10);
      PositionalMore(Numeral(n / 10), Digit(n % 10));
    }
  }

  lemma DigitRoundTrip(d: nat)
    requires d < 10
    ensures IsDigit(Digit(d)) && DigitValue(Digit(d)) == d
  {
  }

  lemma NumeralInjective(m: nat, n: nat)
    requires Numeral(m) == Numeral(n)
    ensures m == n
  {
    ReadNumeral(m);
    ReadNumeral(n);
  }
}
