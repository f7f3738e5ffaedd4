/** Decimal numbers as `%d` prints them and the readers accumulate them. */
module Decimals {
  import opened Chars

  predicate Digits(s: string) { forall i | 0 <= i < |s| :: IsDigit(s[i]) }

  function Digit(n: nat): char
    requires n < 10
  {
    '0' + n as char
  }

  /** The `%d` form of a number. */
  function Decimal(n: nat): string {
    if n < 10 then [Digit(n)] else Decimal(n / 10) + [Digit(n % 10)]
  }

  /** The value the reading loops accumulate. */
  function Value(s: string): nat
    requires Digits(s)
  {
    if s == "" then 0
    else
      var c := s[|s| - 1];
      assert IsDigit(c);
      10 * Value(s[..|s| - 1]) + (c - '0') as nat
  }

  lemma NoDigits()
    ensures Value("") == 0
  {
  }

  /** Reading a printed number gives it back. */
  lemma {:induction false} DecimalValue(n: nat)
    ensures Decimal(n) != "" && Digits(Decimal(n)) && Value(Decimal(n)) == n
  {
    if n >= 10 {
      DecimalValue(n / 10);
      var d := Decimal(n / 10);
      assert (d + [Digit(n % 10)])[..|d|] == d;
    } else {
      assert Value([Digit(n)][..0]) == 0;
    }
  }

  /** No shorter row of digits has the same value. */
  lemma {:induction false} DecimalShortest(s: string)
    requires s != "" && Digits(s)
    ensures |Decimal(Value(s))| <= |s|
  {
    var t, c := s[..|s| - 1], s[|s| - 1];
    assert IsDigit(c);
    if t == "" {
      assert Value(t) == 0;
    } else {
      DecimalShortest(t);
      assert Value(s) / 10 == Value(t);
    }
  }

  lemma {:induction false} ValueStep(s: string, k: nat)
    requires k < |s| && Digits(s)
    ensures Digits(s[..k]) && Digits(s[..k + 1]) && IsDigit(s[k])
    ensures Value(s[..k + 1]) == 10 * Value(s[..k]) + (s[k] as int - '0' as int)
  {
    assert s[..k + 1][..k] == s[..k];
  }

  method ParseDecimal(digits: string) returns (n: nat)
    requires Digits(digits)
    ensures n == Value(digits)
  {
    hide Value;
    n := 0;
    var k := 0;
    NoDigits();
    assert digits[..0] == "";
    while k < |digits|
      invariant 0 <= k <= |digits| && n == Value(digits[..k])
    {
      ValueStep(digits, k);
      n := n * 10 + (digits[k] as int - '0' as int);
      k := k + 1;
    }
    assert digits[..k] == digits;
  }
}
