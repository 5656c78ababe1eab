/** Decimal numbers as Python's `decimal` module keeps them, in its default 28-digit context. */
module Decimals {
  import opened Common

  const PRECISION := 28

  /** Sign, coefficient and exponent, or one of the special values. */
  datatype Decimal = Finite(neg: bool, coef: nat, exp: int) | Infinite(sign: bool) | NotANumber

  function Pow10(n: nat): (p: nat)
    ensures p > 0
  {
    if n == 0 then 1 else 10 * Pow10(n - 1)
  }

  /** Number of decimal digits of a coefficient; zero has one. */
  function Digits(c: nat): nat {
    if c < 10 then 1 else 1 + Digits(c / 10)
  }

  function Signed(d: Decimal): int
    requires d.Finite?
  {
    if d.neg then -(d.coef as int) else d.coef
  }

  /** The value in units of ten to the power `m`. */
  function Scaled(d: Decimal, m: int): int
    requires d.Finite? && m <= d.exp
  {
    Signed(d) * Pow10(d.exp - m)
  }

  /** Numerical equality. */
  predicate SameValue(a: Decimal, b: Decimal) {
    a.Finite? && b.Finite? && Scaled(a, Min(a.exp, b.exp)) == Scaled(b, Min(a.exp, b.exp))
  }

  // ---------------------------------------------------------------------------
  // Arithmetic facts
  // ---------------------------------------------------------------------------

  lemma {:induction false} PowAdd(a: nat, b: nat)
    ensures Pow10(a + b) == Pow10(a) * Pow10(b)
  {
    if a > 0 {
      PowAdd(a - 1, b);
      assert Pow10(a) * Pow10(b) == 10 * (Pow10(a - 1) * Pow10(b));
    }
  }

  lemma MulCancels(a: int, b: int, p: nat)
    requires p > 0
    ensures a * p == b * p <==> a == b
  {
    if a * p == b * p { assert (a - b) * p == 0; }
  }

  /** A finer unit does not change whether two values are equal. */
  lemma ScaledFiner(d: Decimal, m: int, k: nat)
    requires d.Finite? && m <= d.exp
    ensures Scaled(d, m - k) == Scaled(d, m) * Pow10(k)
  {
    PowAdd(d.exp - m, k);
    MulAssoc(Signed(d), Pow10(d.exp - m), Pow10(k));
  }

  lemma NegMul(a: int, b: int)
    ensures (-a) * b == -(a * b)
  {
  }

  lemma MulAssoc(a: int, b: int, c: int)
    ensures (a * b) * c == a * (b * c)
  {
  }

  lemma SameValueAt(a: Decimal, b: Decimal, m: int)
    requires a.Finite? && b.Finite? && m <= a.exp && m <= b.exp
    ensures SameValue(a, b) <==> Scaled(a, m) == Scaled(b, m)
  {
    var low := Min(a.exp, b.exp);
    ScaledFiner(a, low, low - m);
    ScaledFiner(b, low, low - m);
    MulCancels(Scaled(a, low), Scaled(b, low), Pow10(low - m));
  }

  lemma SameValueTransitive(a: Decimal, b: Decimal, c: Decimal)
    requires SameValue(a, b) && SameValue(b, c)
    ensures SameValue(a, c) && SameValue(b, a)
  {
    var m := Min(a.exp, Min(b.exp, c.exp));
    SameValueAt(a, b, m);
    SameValueAt(b, a, m);
    SameValueAt(b, c, m);
    SameValueAt(a, c, m);
  }

  /** A coefficient has at most k digits exactly when it is below ten to the k. */
  lemma {:induction false} DigitsBound(c: nat, k: nat)
    requires k > 0
    ensures Digits(c) <= k <==> c < Pow10(k)
  {
    if k == 1 {
      assert Pow10(1) == 10 * Pow10(0);
    } else if c >= 10 {
      DigitsBound(c / 10, k - 1);
      assert c / 10 < Pow10(k - 1) <==> c < 10 * Pow10(k - 1);
    } else {
      assert Pow10(k) == 10 * Pow10(k - 1);
    }
  }

  lemma TimesTen(a: int, p: int)
    ensures a * (10 * p) == 10 * (a * p)
  {
  }

  lemma {:induction false} DigitsShift(c: nat, k: nat)
    requires c > 0
    ensures c * Pow10(k) > 0 && Digits(c * Pow10(k)) == Digits(c) + k
  {
    if k > 0 {
      DigitsShift(c, k - 1);
      TimesTen(c, Pow10(k - 1));
      DigitsTimesTen(c * Pow10(k - 1));
    }
  }

  lemma DigitsTimesTen(n: nat)
    requires n > 0
    ensures Digits(10 * n) == Digits(n) + 1
  {
  }

  // ---------------------------------------------------------------------------
  // Rounding and trailing zeros
  // ---------------------------------------------------------------------------

  /** How many trailing zeros a positive coefficient has. */
  function Zeros(c: nat): nat
    requires c > 0
  {
    if c % 10 == 0 then 1 + Zeros(c / 10) else 0
  }

  /** The coefficient without them. */
  function Stripped(c: nat): (s: nat)
    requires c > 0
    ensures s > 0
  {
    if c % 10 == 0 then Stripped(c / 10) else c
  }

  lemma {:induction false} StripFacts(c: nat)
    requires c > 0
    ensures c == Stripped(c) * Pow10(Zeros(c))
    ensures Stripped(c) % 10 != 0
    ensures Digits(c) == Digits(Stripped(c)) + Zeros(c)
  {
    if c % 10 == 0 {
      StripFacts(c / 10);
      TimesTen(Stripped(c / 10), Pow10(Zeros(c / 10)));
    }
    DigitsShift(Stripped(c), Zeros(c));
  }

  lemma StrippedIsStripped(c: nat)
    requires c % 10 != 0
    ensures c > 0 && Stripped(c) == c && Zeros(c) == 0
  {
  }

  /** The coefficient without its last `k` digits, and what those digits were worth. */
  function Head(c: nat, k: nat): nat {
    if k == 0 then c else Head(c / 10, k - 1)
  }

  function Tail(c: nat, k: nat): nat {
    if k == 0 then 0 else 10 * Tail(c / 10, k - 1) + c % 10
  }

  lemma SplitStep(c: nat, h: nat, t: nat, p: nat)
    requires c / 10 == h * p + t && t < p
    ensures c == h * (10 * p) + (10 * t + c % 10)
    ensures 10 * t + c % 10 < 10 * p
  {
    TimesTen(h, p);
  }

  lemma {:induction false} SplitDigits(c: nat, k: nat)
    ensures c == Head(c, k) * Pow10(k) + Tail(c, k)
    ensures Tail(c, k) < Pow10(k)
  {
    if k > 0 {
      SplitDigits(c / 10, k - 1);
      SplitStep(c, Head(c / 10, k - 1), Tail(c / 10, k - 1), Pow10(k - 1));
    }
  }

  lemma {:induction false} HeadDigits(c: nat, k: nat)
    requires k < Digits(c)
    ensures Digits(Head(c, k)) == Digits(c) - k
  {
    if k > 0 { HeadDigits(c / 10, k - 1); }
  }

  lemma {:induction false} TailIsZeroIff(c: nat, k: nat)
    requires c > 0
    ensures Tail(c, k) == 0 <==> k <= Zeros(c)
  {
    if k > 0 && c >= 10 {
      TailIsZeroIff(c / 10, k - 1);
    }
  }

  /** Rounding half to even, dropping `k` digits. */
  function RoundOff(c: nat, k: nat): nat {
    var q, r := Head(c, k), Tail(c, k);
    if 2 * r > Pow10(k) || (2 * r == Pow10(k) && q % 2 == 1) then q + 1 else q
  }

  /** A finite number brought within the context's precision. */
  function Fix(d: Decimal): (out: Decimal)
    requires d.Finite?
    ensures out.Finite? && out.neg == d.neg
  {
    if Digits(d.coef) <= PRECISION then d
    else
      var drop := Digits(d.coef) - PRECISION;
      var q := RoundOff(d.coef, drop);
      if Digits(q) <= PRECISION then Finite(d.neg, q, d.exp + drop)
      else Finite(d.neg, q / 10, d.exp + drop + 1)
  }

  /** `normalize()`: round to the context, then move trailing zeros into the exponent. */
  function Normalize(d: Decimal): (out: Decimal)
    ensures d.Finite? ==> out.Finite?
    ensures !d.Finite? ==> out == d
  {
    if !d.Finite? then d
    else
      var f := Fix(d);
      if f.coef == 0 then Finite(f.neg, 0, 0)
      else Finite(f.neg, Stripped(f.coef), f.exp + Zeros(f.coef))
  }

  /** Multiplication in the context: exponents add, then the product is rounded. */
  function Multiply(a: Decimal, b: Decimal): Decimal
    requires a.Finite? && b.Finite?
  {
    Fix(Finite(a.neg != b.neg, a.coef * b.coef, a.exp + b.exp))
  }

  /** The significant digits of a number, trailing zeros apart. */
  function Significant(d: Decimal): nat
    requires d.Finite?
  {
    if d.coef == 0 then 1 else Digits(Stripped(d.coef))
  }

  lemma RoundedProduct(c: nat, q: nat, r: nat, p: nat, f: nat)
    requires c == q * p + r && r < p
    requires f == q || (f == q + 1 && r > 0)
    ensures c == f * p <==> f == q && r == 0
  {
    if f == q + 1 { assert f * p == q * p + p; }
  }

  /** Rounding keeps the value exactly when only zeros are dropped. */
  lemma RoundKeepsValueIff(d: Decimal, k: nat)
    requires d.Finite?
    ensures SameValue(d, Finite(d.neg, RoundOff(d.coef, k), d.exp + k)) <==> Tail(d.coef, k) == 0
  {
    var f, p := RoundOff(d.coef, k), Pow10(k);
    var mid := Finite(d.neg, f, d.exp + k);
    SplitDigits(d.coef, k);
    RoundedProduct(d.coef, Head(d.coef, k), Tail(d.coef, k), p, f);
    ScaledAtOwnExponent(d);
    NegMul(f, p);
    assert Scaled(mid, d.exp) == Signed(mid) * p;
  }

  lemma ScaledAtOwnExponent(d: Decimal)
    requires d.Finite?
    ensures Scaled(d, d.exp) == Signed(d)
  {
    assert Pow10(0) == 1;
  }

  /** A carry that adds a digit leaves a trailing zero to drop. */
  lemma CarryKeepsValue(neg: bool, f: nat, exp: int)
    requires f % 10 == 0
    ensures SameValue(Finite(neg, f, exp), Finite(neg, f / 10, exp + 1))
  {
    assert Pow10(1) == 10 * Pow10(0) && Pow10(0) == 1;
  }

  /** Rounding off to 28 digits carries into a 29th only from 28 nines. */
  lemma RoundedDigits(c: nat, k: nat)
    requires k > 0 && Digits(c) == PRECISION + k
    ensures RoundOff(c, k) > 0
    ensures Digits(RoundOff(c, k)) <= PRECISION || RoundOff(c, k) == 10 * Pow10(PRECISION - 1)
  {
    HeadDigits(c, k);
    NextHasAsManyDigits(Head(c, k), PRECISION);
  }

  lemma NextHasAsManyDigits(q: nat, n: nat)
    requires n > 1 && Digits(q) == n
    ensures q > 0 && (Digits(q + 1) <= n || q + 1 == 10 * Pow10(n - 1))
  {
    DigitsBound(q, n);
    DigitsBound(q + 1, n);
  }

  /** That carry leaves a one and 27 zeros once its extra zero is dropped. */
  lemma CarriedDigits(f: nat)
    requires f == 10 * Pow10(PRECISION - 1)
    ensures f % 10 == 0 && f / 10 > 0 && Digits(f / 10) == PRECISION
  {
    assert f / 10 == Pow10(PRECISION - 1);
    DigitsShift(1, PRECISION - 1);
  }

  /** Fixing leaves at most 28 digits, never turns a non-zero number into zero, and keeps the value exactly
      when no more than 28 digits were significant. */
  lemma FixFacts(d: Decimal)
    requires d.Finite?
    ensures Digits(Fix(d).coef) <= PRECISION
    ensures Fix(d).coef == 0 <==> d.coef == 0
    ensures SameValue(d, Fix(d)) <==> Significant(d) <= PRECISION
    ensures Digits(d.coef) <= PRECISION <==> Fix(d) == d
    ensures Digits(d.coef) > PRECISION ==> Fix(d).exp > d.exp
  {
    if Digits(d.coef) > PRECISION {
      var drop := Digits(d.coef) - PRECISION;
      RoundedDigits(d.coef, drop);
      FixKeepsValueIff(d);
      StripFacts(d.coef);
      TailIsZeroIff(d.coef, drop);
      if Digits(RoundOff(d.coef, drop)) > PRECISION { CarriedDigits(RoundOff(d.coef, drop)); }
    } else {
      if d.coef > 0 { StripFacts(d.coef); }
      ScaledAtOwnExponent(d);
    }
  }

  lemma FixKeepsValueIff(d: Decimal)
    requires d.Finite? && Digits(d.coef) > PRECISION
    ensures SameValue(d, Fix(d)) <==> Tail(d.coef, Digits(d.coef) - PRECISION) == 0
  {
    var drop := Digits(d.coef) - PRECISION;
    var f := RoundOff(d.coef, drop);
    RoundKeepsValueIff(d, drop);
    RoundedDigits(d.coef, drop);
    if Digits(f) > PRECISION {
      CarriedDigits(f);
      CarryKeepsValue(d.neg, f, d.exp + drop);
      SameValueSwap(d, Finite(d.neg, f, d.exp + drop), Fix(d));
    }
  }

  lemma SameValueSwap(d: Decimal, x: Decimal, y: Decimal)
    requires SameValue(x, y)
    ensures SameValue(d, x) <==> SameValue(d, y)
  {
    SameValueTransitive(x, y, x);
    if SameValue(d, x) { SameValueTransitive(d, x, y); }
    if SameValue(d, y) { SameValueTransitive(d, y, x); }
  }

  /** Moving trailing zeros into the exponent never changes the value. */
  lemma StripKeepsValue(f: Decimal)
    requires f.Finite? && f.coef > 0
    ensures SameValue(f, Finite(f.neg, Stripped(f.coef), f.exp + Zeros(f.coef)))
  {
    StripFacts(f.coef);
    var s, z := Stripped(f.coef), Zeros(f.coef);
    var out := Finite(f.neg, s, f.exp + z);
    assert Pow10(0) == 1;
    assert Scaled(f, f.exp) == Signed(f);
    assert Scaled(out, f.exp) == Signed(out) * Pow10(z);
    NegMul(s, Pow10(z));
  }

  lemma HigherExponentDivides(a: Decimal, b: Decimal)
    requires a.Finite? && b.Finite? && a.exp > b.exp && SameValue(a, b)
    ensures b.coef % 10 == 0
  {
    var p := Pow10(a.exp - b.exp - 1);
    assert Pow10(a.exp - b.exp) == 10 * p && Pow10(0) == 1;
    assert Scaled(b, b.exp) == Signed(b);
    assert Scaled(a, b.exp) == Signed(a) * (10 * p) == 10 * (Signed(a) * p);
  }
}
