/** The rate arithmetic of PurchaseService: the discount rate derived from a period rate (TEP)
    and the value the company receives for a document. */
module RateCalculator {
  import opened Outcomes
  import opened Decimals

  /** calculateDiscountRate: d = tep / (1 + tep), a BigDecimal division rounded HALF_UP at the
      scale of tep.  With tep = u / 10^s the exact quotient is u / (10^s + u), so the unscaled
      digits of d are u * 10^s / (10^s + u) rounded.  None when 1 + tep is zero, where
      BigDecimal.divide throws an ArithmeticException. */
  function DiscountRate(tep: Decimal): (d: Option<Decimal>)
    ensures d.None? <==> Pow10(tep.scale) + tep.unscaled == 0
    ensures d.Some? ==> d.value.scale == tep.scale
    ensures d.Some? ==>
      RoundsHalfUp(d.value.unscaled, tep.unscaled * Pow10(tep.scale), Pow10(tep.scale) + tep.unscaled)
  {
    var one := Pow10(tep.scale);
    if one + tep.unscaled == 0 then None
    else Some(Decimal(HalfUpQuotient(tep.unscaled * one, one + tep.unscaled), tep.scale))
  }

  /** calculateReceivedValue: nominal * (1 - d); BigDecimal subtract and multiply are exact. */
  function ReceivedValue(nominalValue: real, discountRate: Decimal): real
  {
    nominalValue * (1.0 - Value(discountRate))
  }

  /** For a non-negative TEP the division is defined and the discount rate lies in [0, 1]. */
  lemma DiscountRateInUnitInterval(tep: Decimal)
    requires tep.unscaled >= 0
    ensures DiscountRate(tep).Some?
    ensures 0 <= DiscountRate(tep).value.unscaled <= Pow10(tep.scale)
    ensures 0.0 <= Value(DiscountRate(tep).value) <= 1.0
  {
    var one := Pow10(tep.scale);
    var q := DiscountRate(tep).value.unscaled;
    RoundedQuotientBounds(q, tep.unscaled, one);
    DivideUnit(q, one);
  }

  /** The integer core of the two lemmas above and below: if q is u 10^s / (10^s + u) rounded
      HALF_UP, then 0 <= q <= 10^s, and q is 0 only for u = 0. */
  lemma RoundedQuotientBounds(q: int, u: nat, one: nat)
    requires one >= 1
    requires RoundsHalfUp(q, u * one, one + u)
    ensures 0 <= q <= one
    ensures q == 0 <==> u == 0
  {
    var num, den := u * one, one + u;
    var qd := q * den;
    assert -den <= 2 * num - 2 * qd <= den;
    assert 2 * num - 2 * qd == den ==> qd > num;
    QuotientNonNegative(q, num, den);
    QuotientAtMostOne(q, u, one);
    if u == 0 {
      QuotientOfZero(q, den);
    } else {
      QuotientOfPositive(u, one);
    }
  }

  lemma QuotientNonNegative(q: int, num: nat, den: nat)
    requires den > 0 && 2 * num - 2 * (q * den) <= den
    ensures q >= 0
  {
    MulLe(q, -1, den);
  }

  lemma QuotientAtMostOne(q: int, u: nat, one: nat)
    requires one >= 1
    requires -(one + u) <= 2 * (u * one) - 2 * (q * (one + u))
    ensures q <= one
  {
    var den := one + u;
    MulLe(one + 1, q, den);
    assert (one + 1) * den == one * one + u * one + den;
    MulLe(1, one, one);
  }

  lemma QuotientOfZero(q: int, den: nat)
    requires den > 0
    requires Abs(2 * (q * den)) <= den
    ensures q == 0
  {
    MulLe(1, q, den);
    MulLe(q, -1, den);
  }

  /** With u >= 1, 2 u 10^s >= 10^s + u: the exact quotient is at least 1/2. */
  lemma QuotientOfPositive(u: nat, one: nat)
    requires one >= 1 && u >= 1
    ensures 2 * (u * one) >= one + u
  {
    MulLe(1, one, u);
    MulLe(1, u, one);
  }

  /** Rounding may reach 1: a TEP of 1 at scale 0 gives 1/2, which HALF_UP rounds to 1, so the
      company would receive nothing for the document. */
  lemma DiscountRateReachesOne()
    ensures DiscountRate(Decimal(1, 0)) == Some(Decimal(1, 0))
  {
    assert HalfUpMagnitude(2, 2) == 1;
  }

  /** For a non-negative TEP the discount rate is zero exactly when the TEP is zero. */
  lemma DiscountRateZeroIff(tep: Decimal)
    requires tep.unscaled >= 0
    ensures DiscountRate(tep).Some?
    ensures DiscountRate(tep).value.unscaled == 0 <==> tep.unscaled == 0
  {
    RoundedQuotientBounds(DiscountRate(tep).value.unscaled, tep.unscaled, Pow10(tep.scale));
  }

  /** What the company receives lies between nothing and the nominal value. */
  lemma ReceivedValueBounds(nominalValue: real, discountRate: Decimal)
    requires nominalValue >= 0.0
    requires 0.0 <= Value(discountRate) <= 1.0
    ensures 0.0 <= ReceivedValue(nominalValue, discountRate) <= nominalValue
    ensures ReceivedValue(nominalValue, discountRate) == nominalValue
            <==> nominalValue == 0.0 || Value(discountRate) == 0.0
  {
    KeptFraction(nominalValue, Value(discountRate));
  }

  /** n (1 - v) for n >= 0 and v in [0, 1]. */
  lemma KeptFraction(n: real, v: real)
    requires n >= 0.0 && 0.0 <= v <= 1.0
    ensures 0.0 <= n * (1.0 - v) <= n
    ensures n * (1.0 - v) == n <==> n == 0.0 || v == 0.0
  {
    assert n - n * (1.0 - v) == n * v;
    MulNonNegative(n, v);
    MulNonNegative(n, 1.0 - v);
    if n > 0.0 && v > 0.0 {
      MulPositive(n, v);
    }
  }

  lemma MulNonNegative(x: real, y: real)
    ensures x >= 0.0 && y >= 0.0 ==> x * y >= 0.0
  {
  }

  lemma MulPositive(x: real, y: real)
    ensures x > 0.0 && y > 0.0 ==> x * y > 0.0
  {
  }

  /** The terms of a sale: for a non-negative TEP and nominal value the received value lies in
      [0, nominal], and equals the nominal value only for a zero TEP or a zero amount. */
  lemma SaleTermsBounds(tep: Decimal, nominalValue: real)
    requires tep.unscaled >= 0 && nominalValue >= 0.0
    ensures DiscountRate(tep).Some?
    ensures 0.0 <= ReceivedValue(nominalValue, DiscountRate(tep).value) <= nominalValue
    ensures ReceivedValue(nominalValue, DiscountRate(tep).value) == nominalValue
            <==> nominalValue == 0.0 || tep.unscaled == 0
  {
    DiscountRateInUnitInterval(tep);
    DiscountRateZeroIff(tep);
    var d := DiscountRate(tep).value;
    ReceivedValueBounds(nominalValue, d);
    ValueZeroIff(d);
  }

  lemma ValueZeroIff(d: Decimal)
    ensures Value(d) == 0.0 <==> d.unscaled == 0
  {
    var p := Pow10(d.scale) as real;
    if d.unscaled != 0 {
      assert Value(d) * p == d.unscaled as real;
    }
  }

  lemma MulLe(x: int, y: int, z: nat)
    ensures x <= y ==> x * z <= y * z
  {
  }

  lemma DivideUnit(q: int, one: nat)
    requires 0 <= q <= one && one >= 1
    ensures 0.0 <= q as real / one as real <= 1.0
  {
  }
}
