/** Decimal numerals: the canonical numeral of a number, its parser, and numerals of a fixed width. */
module Decimal {
  function Digit(d: nat): char
    requires d < 10
  {
    '0' + d as char
  }

  /** The canonical numeral, one digit at a time. */
  function Numeral(u: nat): (s: string)
    ensures s != []
  {
    if u < 10 then [Digit(u)] else Numeral(u / 10) + [Digit(u % 10)]
  }

  /** `-` and the numeral of the absolute value. */
  function SignedNumeral(i: int): string {
    if i < 0 then ['-'] + Numeral(-i) else Numeral(i)
  }

  /** The low `n` digits of `u`. */
  function Fixed(u: nat, n: nat): (s: string)
    ensures |s| == n
  {
    if n == 0 then [] else Fixed(u / 10, n - 1) + [Digit(u % 10)]
  }

  function Pow10(n: nat): (p: nat)
    ensures p > 0
  {
    if n == 0 then 1 else 10 * Pow10(n - 1)
  }

  predicate AllDigits(s: string) {
    forall k :: 0 <= k < |s| ==> '0' <= s[k] <= '9'
  }

  predicate Canonical(s: string) {
    s != [] && AllDigits(s) && (|s| > 1 ==> s[0] != '0')
  }

  function Parse(s: string): nat
    requires AllDigits(s)
  {
    if s == [] then 0
    else 10 * Parse(s[..|s| - 1]) + (s[|s| - 1] as int - '0' as int)
  }

  /** A numeral is canonical and parses back to its number. */
  lemma {:induction false} NumeralParses(u: nat)
    ensures Canonical(Numeral(u)) && Parse(Numeral(u)) == u
    ensures u > 0 ==> Numeral(u)[0] != '0'
  {
    if u < 10 {
      assert Parse([]) == 0 && [Digit(u)][..0] == [];
    } else {
      NumeralParses(u / 10);
      var s := Numeral(u / 10);
      assert Numeral(u)[..|s|] == s;
    }
  }

  /** No other canonical string parses to the same number. */
  lemma {:induction false} NumeralIsTheOnlyOne(s: string)
    requires Canonical(s)
    ensures s == Numeral(Parse(s))
  {
    var n := |s| - 1;
    assert s == s[..n] + [s[n]];
    if n > 0 {
      NumeralIsTheOnlyOne(s[..n]);
      ParsePositive(s[..n]);
    } else {
      assert s[..0] == [] && Parse(s[..0]) == 0;
    }
  }

  lemma {:induction false} ParsePositive(s: string)
    requires AllDigits(s) && s != [] && s[0] != '0'
    ensures Parse(s) > 0
  {
    if |s| > 1 {
      ParsePositive(s[..|s| - 1]);
    } else {
      assert s[..0] == [] && Parse(s[..0]) == 0;
    }
  }

  lemma {:induction false} Pow10Add(m: nat, n: nat)
    ensures Pow10(m + n) == Pow10(m) * Pow10(n)
  {
    if m > 0 {
      Pow10Add(m - 1, n);
    }
  }

  /** One decimal place more, below or above. */
  lemma LastPlace(q: nat, r: nat, n: nat)
    requires n > 0 && r < Pow10(n)
    ensures r / 10 < Pow10(n - 1)
    ensures (q * Pow10(n) + r) / 10 == q * Pow10(n - 1) + r / 10
    ensures (q * Pow10(n) + r) % 10 == r % 10
  {
    var x := q * Pow10(n - 1);
    assert q * Pow10(n) == 10 * x;
  }

  /** A fixed-width numeral is that of the upper digits, then that of the lower ones. */
  lemma {:induction false} FixedSplit(u: nat, q: nat, r: nat, m: nat, n: nat)
    requires u == q * Pow10(n) + r && r < Pow10(n)
    ensures Fixed(u, m + n) == Fixed(q, m) + Fixed(r, n)
  {
    if n == 0 {
      assert Fixed(r, 0) == [];
    } else {
      LastPlace(q, r, n);
      FixedSplit(u / 10, q, r / 10, m, n - 1);
    }
  }

  lemma NumeralStep(u: nat)
    requires u >= 10
    ensures Numeral(u) == Numeral(u / 10) + [Digit(u % 10)]
  {
  }

  /** And so is a numeral, if there are upper digits. */
  lemma {:induction false} NumeralSplit(u: nat, q: nat, r: nat, n: nat)
    requires u == q * Pow10(n) + r && q > 0 && r < Pow10(n)
    ensures Numeral(u) == Numeral(q) + Fixed(r, n)
  {
    if n == 0 {
      assert Fixed(r, 0) == [];
    } else {
      LastPlace(q, r, n);
      NumeralSplit(u / 10, q, r / 10, n - 1);
      TwoPlaces(u, q, n);
      NumeralStep(u);
      LastDigitMoves(Numeral(q), Fixed(r / 10, n - 1), [Digit(r % 10)]);
    }
  }

  lemma TwoPlaces(u: nat, q: nat, n: nat)
    requires n > 0 && q > 0 && u >= q * Pow10(n)
    ensures u >= 10
  {
    AtLeast(q, Pow10(n));
    Pow10Positive(n);
  }

  lemma LastDigitMoves(a: string, b: string, c: string)
    ensures (a + b) + c == a + (b + c)
  {
  }

  lemma AtLeast(q: nat, p: nat)
    requires q > 0
    ensures q * p >= p
  {
  }

  lemma Pow10Positive(n: nat)
    ensures n > 0 ==> Pow10(n) >= 10
  {
  }

  /** A number with exactly `n` digits. */
  lemma {:induction false} NumeralFixed(u: nat, n: nat)
    requires n > 0 && u < Pow10(n) && (n == 1 || u >= Pow10(n - 1))
    ensures Numeral(u) == Fixed(u, n)
  {
    if n == 1 {
      assert Fixed(u / 10, 0) == [];
    } else {
      NumeralFixed(u / 10, n - 1);
      Pow10Positive(n - 1);
    }
  }
}
