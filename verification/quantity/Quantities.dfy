/** Exact quantities: coercion, the trailing-zero trim, and the JSON form. */
module Quantities {
  import opened Common
  import opened Decimals

  datatype QuantityError = NotExact | InvalidOperation

  const ZERO := Finite(false, 0, 0)

  function OfInt(n: int): Decimal { Finite(n < 0, if n < 0 then -n else n, 0) }

  /** `_trim`. `quantize(1)` refuses a result of more than 28 digits, and a special value has no exponent to
      compare. */
  function Trim(v: Decimal): Result<Decimal, QuantityError> {
    if v.Finite? && v.coef == 0 then Ok(ZERO)
    else if !v.Finite? then Err(NotExact)
    else
      var t := Normalize(v);
      if t.exp <= 0 then Ok(t)
      else if Digits(t.coef * Pow10(t.exp)) > PRECISION then Err(InvalidOperation)
      else Ok(Finite(t.neg, t.coef * Pow10(t.exp), 0))
  }

  /** What `as_quantity` can be handed; `Text` carries what `Decimal(str)` makes of it, if anything. */
  datatype Raw =
    Missing | OfDecimal(d: Decimal) | Whole(n: int) | Flag(b: bool) | Text(parsed: Option<Decimal>) | Binary

  function AsQuantity(value: Raw): Result<Decimal, QuantityError> {
    match value
    case Missing => Ok(ZERO)
    case OfDecimal(d) => Trim(d)
    case Whole(n) => Trim(OfInt(n))
    case Text(parsed) => if parsed.None? then Err(InvalidOperation) else Trim(parsed.value)
    case Flag(_) => Err(NotExact)
    case Binary => Err(NotExact)
  }

  /** The shape of every trimmed value: no positive exponent, and no trailing zero behind the point. */
  predicate Plain(t: Decimal) {
    t == ZERO || (t.Finite? && t.coef > 0 && Digits(t.coef) <= PRECISION
                  && (t.exp == 0 || (t.exp < 0 && t.coef % 10 != 0)))
  }

  /** Trimming succeeds exactly on finite values that stay below ten to the 28th once rounded to the context. */
  lemma TrimSucceedsIff(v: Decimal)
    ensures Trim(v).Ok? <==>
            v.Finite? && (v.coef == 0 || Digits(Fix(v).coef) + Fix(v).exp <= PRECISION)
    ensures Trim(v).Ok? ==> Plain(Trim(v).value)
  {
    if v.Finite? && v.coef > 0 {
      FixFacts(v);
      var f, t := Fix(v), Normalize(v);
      StripFacts(f.coef);
      if t.exp > 0 {
        DigitsShift(t.coef, t.exp);
      }
    }
  }

  /** Coefficients of 28 digits are not enough: ten to the 28th has a one-digit coefficient and is refused. */
  lemma OneDigitCanBeRefused()
    ensures Trim(Finite(false, 1, 28)) == Err(InvalidOperation)
    ensures Trim(Finite(false, 1, 27)).Ok?
  {
    TrimSucceedsIff(Finite(false, 1, 28));
    TrimSucceedsIff(Finite(false, 1, 27));
  }

  /** The exact value survives exactly when at most 28 digits are significant. */
  lemma TrimKeepsValueIff(v: Decimal)
    requires Trim(v).Ok?
    ensures SameValue(v, Trim(v).value) <==> Significant(v) <= PRECISION
  {
    if v.coef == 0 {
      SameValueAt(v, ZERO, Min(v.exp, 0));
      assert Scaled(v, Min(v.exp, 0)) == 0 && Scaled(ZERO, Min(v.exp, 0)) == 0;
    } else {
      var f, t, out := Fix(v), Normalize(v), Trim(v).value;
      FixFacts(v);
      StripKeepsValue(f);
      if t.exp > 0 { PullBackKeepsValue(t); }
      assert SameValue(f, out) by {
        if t.exp > 0 { SameValueTransitive(f, t, out); }
      }
      SameValueSwap(v, f, out);
    }
  }

  lemma PullBackKeepsValue(t: Decimal)
    requires t.Finite? && t.exp >= 0
    ensures SameValue(t, Finite(t.neg, t.coef * Pow10(t.exp), 0))
  {
    var out := Finite(t.neg, t.coef * Pow10(t.exp), 0);
    ScaledAtOwnExponent(out);
    assert Scaled(t, 0) == Signed(t) * Pow10(t.exp);
    NegMul(t.coef, Pow10(t.exp));
  }

  lemma TrimIdempotent(v: Decimal)
    requires Trim(v).Ok?
    ensures Trim(Trim(v).value) == Trim(v)
  {
    TrimSucceedsIff(v);
    PlainTrimsToItself(Trim(v).value);
  }

  lemma PlainTrimsToItself(t: Decimal)
    requires Plain(t)
    ensures Trim(t) == Ok(t)
  {
    if t != ZERO {
      FixFacts(t);
      StripFacts(t.coef);
      if t.exp < 0 { StrippedIsStripped(t.coef); } else { PulledBack(t.coef); }
    }
  }

  /** An integer that loses its zeros gets them back. */
  lemma PulledBack(c: nat)
    requires c > 0
    ensures Stripped(c) * Pow10(Zeros(c)) == c
    ensures Zeros(c) == 0 ==> Stripped(c) == c
  {
    StripFacts(c);
    assert Pow10(0) == 1;
  }

  /** Plain values are equal as numbers only when they are the same (sign, coefficient, exponent). */
  lemma PlainIsUnique(a: Decimal, b: Decimal)
    requires Plain(a) && Plain(b) && SameValue(a, b)
    ensures a == b
  {
    if a.exp > b.exp {
      HigherExponentDivides(a, b);
    } else if b.exp > a.exp {
      SameValueTransitive(a, b, a);
      HigherExponentDivides(b, a);
    } else {
      ScaledAtOwnExponent(a);
      ScaledAtOwnExponent(b);
    }
  }

  /** Trimming is a canonical form: two values of at most 28 significant digits trim to the same coefficient
      and exponent if and only if they are numerically equal. */
  lemma TrimIsCanonical(a: Decimal, b: Decimal)
    requires Trim(a).Ok? && Trim(b).Ok?
    requires Significant(a) <= PRECISION && Significant(b) <= PRECISION
    ensures Trim(a) == Trim(b) <==> SameValue(a, b)
  {
    var x, y := Trim(a).value, Trim(b).value;
    TrimSucceedsIff(a);
    TrimSucceedsIff(b);
    TrimKeepsValueIff(a);
    TrimKeepsValueIff(b);
    SameValueTransitive(a, x, a);
    SameValueTransitive(b, y, b);
    if SameValue(a, b) {
      SameValueTransitive(x, a, b);
      SameValueTransitive(x, b, y);
      PlainIsUnique(x, y);
    }
    if x == y { SameValueTransitive(a, x, b); }
  }

  // ---------------------------------------------------------------------------
  // Coercion
  // ---------------------------------------------------------------------------

  /** The number an argument stands for; NULL stands for none in stock. */
  function NumberOf(value: Raw): Option<Decimal> {
    match value
    case Missing => Some(ZERO)
    case OfDecimal(d) => Some(d)
    case Whole(n) => Some(OfInt(n))
    case Text(parsed) => parsed
    case Flag(_) => None
    case Binary => None
  }

  /** Coercion accepts exactly what stands for a number that trims, and refuses binary floats and booleans
      whatever their value. */
  lemma CoercesIff(value: Raw)
    ensures AsQuantity(value).Ok? <==> NumberOf(value).Some? && Trim(NumberOf(value).value).Ok?
    ensures AsQuantity(value).Ok? ==> AsQuantity(value) == Trim(NumberOf(value).value)
    ensures value.Flag? || value.Binary? ==> AsQuantity(value) == Err(NotExact)
  {
  }

  /** However a quantity arrives - NULL, Decimal, int or text - equal numbers coerce to one Decimal, coefficient
      and exponent included, and different ones do not. */
  lemma CoercionIsCanonical(a: Raw, b: Raw)
    requires AsQuantity(a).Ok? && AsQuantity(b).Ok?
    requires Significant(NumberOf(a).value) <= PRECISION && Significant(NumberOf(b).value) <= PRECISION
    ensures AsQuantity(a) == AsQuantity(b) <==> SameValue(NumberOf(a).value, NumberOf(b).value)
  {
    CoercesIff(a);
    CoercesIff(b);
    TrimIsCanonical(NumberOf(a).value, NumberOf(b).value);
  }

  /** The column's padding does not show: an integer padded with `scale` zeros coerces like itself. */
  lemma PaddingIsDropped(n: nat, scale: int, padded: nat)
    requires 0 < n && 0 <= scale && Digits(n) + scale <= PRECISION && padded == n * Pow10(scale)
    ensures AsQuantity(OfDecimal(Finite(false, padded, -scale))) == AsQuantity(Whole(n)) == Ok(OfInt(n))
  {
    var d := Finite(false, padded, -scale);
    DigitsShift(n, scale);
    FewDigits(d);
    FewDigits(OfInt(n));
    PaddedIsSame(n, scale, padded);
    TrimIsCanonical(d, OfInt(n));
    TrimmedInt(n);
  }

  lemma FewDigits(d: Decimal)
    requires d.Finite? && d.coef > 0 && d.exp <= 0 && Digits(d.coef) <= PRECISION
    ensures Trim(d).Ok? && Significant(d) <= PRECISION
  {
    StripFacts(d.coef);
    FixFacts(d);
    TrimSucceedsIff(d);
  }

  lemma PaddedIsSame(n: nat, scale: int, padded: nat)
    requires 0 <= scale && padded == n * Pow10(scale)
    ensures SameValue(Finite(false, padded, -scale), OfInt(n))
  {
    ScaledAtOwnExponent(Finite(false, padded, -scale));
    assert Scaled(OfInt(n), -scale) == n * Pow10(scale);
  }

  lemma TrimmedInt(n: nat)
    requires 0 < n && Digits(n) <= PRECISION
    ensures Trim(OfInt(n)) == Ok(OfInt(n))
  {
    PlainTrimsToItself(OfInt(n));
  }

  // ---------------------------------------------------------------------------
  // Whole values
  // ---------------------------------------------------------------------------

  /** `v` is a whole number. */
  ghost predicate IsWhole(v: Decimal) {
    exists n: int :: SameValue(v, OfInt(n))
  }

  /** `int(v)`: truncation toward zero. */
  function Truncate(v: Decimal): int
    requires v.Finite?
  {
    var whole := if v.exp >= 0 then v.coef * Pow10(v.exp) else Head(v.coef, -v.exp);
    if v.neg then -whole else whole
  }

  lemma AtLeastOne(d: int, p: nat)
    requires d >= 1
    ensures d * p >= p
  {
    assert (d - 1) * p >= 0;
  }

  lemma QuotientIsUnique(m: nat, h: nat, tail: nat, p: nat)
    requires m * p == h * p + tail && tail < p
    ensures m == h
  {
    if m > h {
      AtLeastOne(m - h, p);
    } else if m < h {
      AtLeastOne(h - m, p);
    }
  }

  lemma SignsAgree(neg: bool, c: nat, n: int, p: nat)
    requires p > 0 && (if neg then -(c as int) else c) == n * p
    ensures n > 0 ==> !neg && c == n * p
    ensures n < 0 ==> neg && c == (-n) * p
    ensures n == 0 ==> c == 0
  {
    if n > 0 { assert n * p > 0; }
    if n < 0 { NegMul(n, p); assert (-n) * p > 0; }
  }

  lemma WholeIsItsTruncation(v: Decimal, n: int)
    requires v.Finite? && SameValue(v, OfInt(n))
    ensures n == Truncate(v)
  {
    if v.exp >= 0 {
      ScaledAtOwnExponent(OfInt(n));
      NegMul(v.coef, Pow10(v.exp));
      assert Scaled(v, 0) == Signed(v) * Pow10(v.exp);
    } else {
      var k := -v.exp;
      ScaledAtOwnExponent(v);
      assert Scaled(OfInt(n), v.exp) == n * Pow10(k);
      SignsAgree(v.neg, v.coef, n, Pow10(k));
      SplitDigits(v.coef, k);
      QuotientIsUnique(if n < 0 then -n else n, Head(v.coef, k), Tail(v.coef, k), Pow10(k));
    }
  }

  /** A trimmed whole value has exponent zero, and no other has. */
  lemma TrimmedWhole(v: Decimal)
    requires Trim(v).Ok? && Significant(v) <= PRECISION
    ensures Trim(v).value.exp == 0 <==> IsWhole(v)
  {
    var t := Trim(v).value;
    TrimSucceedsIff(v);
    TrimKeepsValueIff(v);
    SameValueTransitive(v, t, v);
    if t.exp == 0 {
      var n := Signed(t);
      ScaledAtOwnExponent(t);
      ScaledAtOwnExponent(OfInt(n));
      assert SameValue(t, OfInt(n));
      SameValueTransitive(v, t, OfInt(n));
    }
    if n: int :| SameValue(v, OfInt(n)) {
      SameValueTransitive(t, v, OfInt(n));
      if t.exp < 0 {
        SameValueTransitive(t, OfInt(n), t);
        HigherExponentDivides(OfInt(n), t);
      }
    }
  }

  /** A whole quantity leaves money at money's own scale, exactly as long as the product fits the context. */
  lemma WholeTimesPrice(quantity: Decimal, price: Decimal)
    requires Trim(quantity).Ok? && Significant(quantity) <= PRECISION && IsWhole(quantity)
    requires price.Finite?
    ensures var t := Trim(quantity).value;
            Multiply(t, price).exp == price.exp <==> Digits(t.coef * price.coef) <= PRECISION
  {
    var t := Trim(quantity).value;
    TrimSucceedsIff(quantity);
    TrimmedWhole(quantity);
    FixFacts(Finite(t.neg != price.neg, t.coef * price.coef, t.exp + price.exp));
  }

  /** What `quantity_out` is handed; a binary float arrives as the decimal its shortest text denotes. */
  datatype Stored = Null | Int(n: int) | Number(d: Decimal) | Float(text: Decimal)

  datatype Json = JNull | JInt(n: int) | JFloat(of: Decimal)

  function DecimalOut(d: Decimal): Result<Json, QuantityError> {
    if !d.Finite? then Err(NotExact)
    else if SameValue(d, OfInt(Truncate(d))) then Ok(JInt(Truncate(d)))
    else Ok(JFloat(d))
  }

  function QuantityOut(value: Stored): Result<Json, QuantityError> {
    match value
    case Null => Ok(JNull)
    case Int(n) => Ok(JInt(n))
    case Number(d) => DecimalOut(d)
    case Float(text) => DecimalOut(text)
  }

  /** An int comes out exactly for whole values, and it is that value; anything else is passed on unrounded. */
  lemma QuantityOutIsIntIff(d: Decimal)
    requires d.Finite?
    ensures QuantityOut(Number(d)).value.JInt? <==> IsWhole(d)
    ensures QuantityOut(Number(d)).value.JInt? ==> SameValue(d, OfInt(QuantityOut(Number(d)).value.n))
    ensures !IsWhole(d) ==> QuantityOut(Number(d)) == Ok(JFloat(d))
  {
    if n: int :| SameValue(d, OfInt(n)) {
      WholeIsItsTruncation(d, n);
    }
  }

  /** And trimming first never changes what comes out as an int. */
  lemma OutAfterTrim(d: Decimal)
    requires Trim(d).Ok? && Significant(d) <= PRECISION && IsWhole(d)
    ensures QuantityOut(Number(Trim(d).value)) == QuantityOut(Number(d))
  {
    var t := Trim(d).value;
    TrimKeepsValueIff(d);
    var n: int :| SameValue(d, OfInt(n));
    SameValueTransitive(d, t, d);
    SameValueTransitive(t, d, OfInt(n));
    WholeIsItsTruncation(d, n);
    WholeIsItsTruncation(t, n);
  }
}
