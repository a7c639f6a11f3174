/**
 * Exact decimal numbers, standing in for the Python floats the script
 * produces for prices: `mantissa / 10^scale`.
 */
module Decimals {
  import opened Text

  datatype Decimal = Decimal(mantissa: int, scale: nat)

  /** The script's `0.0`. */
  const Zero := Decimal(0, 0)

  function Pow10(n: nat): (p: nat)
    ensures p >= 1
  {
    if n == 0 then 1 else 10 * Pow10(n - 1)
  }

  /** The number a decimal stands for. */
  function Value(d: Decimal): real {
    d.mantissa as real / Pow10(d.scale) as real
  }

  function DigitValue(c: char): nat
    requires IsDigit(c)
  {
    c as int - '0' as int
  }

  /** The number a text of ASCII digits spells in base ten (0 for the empty text). */
  function DigitsValue(s: string): nat
    requires AllDigits(s)
  {
    if s == [] then 0 else DigitsValue(s[..|s| - 1]) * 10 + DigitValue(s[|s| - 1])
  }

  lemma AllDigitsAppend(x: string, y: string)
    requires AllDigits(x) && AllDigits(y)
    ensures AllDigits(x + y)
  {
    forall i | 0 <= i < |x + y| ensures IsDigit((x + y)[i]) {
      if i < |x| { assert (x + y)[i] == x[i]; } else { assert (x + y)[i] == y[i - |x|]; }
    }
  }

  lemma ShiftStep(a: int, p: int, b: int, d: int)
    ensures (a * p + b) * 10 + d == a * (10 * p) + (b * 10 + d)
  {
  }

  /** Reading digits `x` followed by digits `y` shifts `x` left by `|y|` places. */
  lemma {:induction false} DigitsValueAppend(x: string, y: string)
    requires AllDigits(x) && AllDigits(y)
    ensures AllDigits(x + y)
    ensures DigitsValue(x + y) == DigitsValue(x) * Pow10(|y|) + DigitsValue(y)
  {
    AllDigitsAppend(x, y);
    if y == [] {
      assert x + y == x;
    } else {
      var y' := y[..|y| - 1];
      var d := y[|y| - 1];
      assert (x + y)[..|x + y| - 1] == x + y';
      assert (x + y)[|x + y| - 1] == d;
      assert AllDigits(y');
      DigitsValueAppend(x, y');
      ShiftStep(DigitsValue(x), Pow10(|y'|), DigitsValue(y'), DigitValue(d));
    }
  }

  lemma CastProduct(a: int, p: int)
    ensures (a * p) as real == a as real * p as real
  {
  }

  lemma DivideSum(a: real, b: real, p: real)
    requires p > 0.0
    ensures (a * p + b) / p == a + b / p
  {
  }

  lemma ShiftedParts(a: nat, b: nat, p: nat)
    requires p >= 1
    ensures (a * p + b) as real / p as real == a as real + b as real / p as real
  {
    CastProduct(a, p);
    DivideSum(a as real, b as real, p as real);
  }

  /** A decimal written as whole digits `w` and fraction digits `f` — the
      mantissa `w ++ f` scaled by `|f|` — is `w + f / 10^|f|`. */
  lemma DecimalOfParts(w: string, f: string)
    requires AllDigits(w) && AllDigits(f)
    ensures AllDigits(w + f)
    ensures Value(Decimal(DigitsValue(w + f), |f|))
            == DigitsValue(w) as real + DigitsValue(f) as real / Pow10(|f|) as real
  {
    DigitsValueAppend(w, f);
    ShiftedParts(DigitsValue(w), DigitsValue(f), Pow10(|f|));
  }
}
