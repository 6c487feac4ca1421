/** Exact decimal numbers as java.math.BigDecimal represents them: an unscaled integer and a
    scale, standing for unscaled / 10^scale.  Only what the settlement engine uses is modelled:
    the value of a decimal and division rounded HALF_UP to a given scale. */
module Decimals {

  datatype Decimal = Decimal(unscaled: int, scale: nat)

  function Pow10(n: nat): (r: nat)
    ensures r >= 1
  {
    if n == 0 then 1 else 10 * Pow10(n - 1)
  }

  function Abs(x: int): nat
  {
    if x < 0 then -x else x
  }

  /** The number a decimal stands for. */
  function Value(d: Decimal): real
  {
    d.unscaled as real / Pow10(d.scale) as real
  }

  /** q is n / d rounded to an integer by RoundingMode.HALF_UP: the nearest integer, and on a
      tie the one farther from zero.  Written without division: |n/d - q| <= 1/2, and
      |n/d - q| == 1/2 only when |q| > |n/d|. */
  ghost predicate RoundsHalfUp(q: int, n: int, d: int)
  {
    Abs(2 * n - 2 * (q * d)) <= Abs(d) &&
    (Abs(2 * n - 2 * (q * d)) == Abs(d) ==> Abs(q * d) > Abs(n))
  }

  /** The magnitude of a HALF_UP quotient of two magnitudes. */
  function HalfUpMagnitude(a: nat, b: nat): (m: nat)
    requires b > 0
    ensures -(b as int) <= 2 * a - 2 * (m * b) < b
  {
    var m := (2 * a + b) / (2 * b);
    HalfUpMagnitudeBounds(a, b, m);
    m
  }

  lemma HalfUpMagnitudeBounds(a: nat, b: nat, m: int)
    requires b > 0 && m == (2 * a + b) / (2 * b)
    ensures m >= 0
    ensures -(b as int) <= 2 * a - 2 * (m * b) < b
  {
    var rest := (2 * a + b) % (2 * b);
    assert 2 * a + b == (2 * b) * m + rest;
    assert 0 <= rest < 2 * b;
    assert 2 * (m * b) == (2 * b) * m;
  }

  /** BigDecimal division of n by d to scale 0 with RoundingMode.HALF_UP: the sign is the sign
      of the exact quotient, the magnitude is rounded half away from zero. */
  function HalfUpQuotient(n: int, d: int): (q: int)
    requires d != 0
    ensures RoundsHalfUp(q, n, d)
  {
    var m := HalfUpMagnitude(Abs(n), Abs(d));
    var q: int := if (n < 0) == (d < 0) then m else -(m as int);
    QuotientSigns(n, d, m, q);
    q
  }

  lemma QuotientSigns(n: int, d: int, m: nat, q: int)
    requires d != 0
    requires -(Abs(d) as int) <= 2 * Abs(n) - 2 * (m * Abs(d)) < Abs(d)
    requires q == if (n < 0) == (d < 0) then m else -(m as int)
    ensures RoundsHalfUp(q, n, d)
  {
    var a, b := Abs(n), Abs(d);
    var e := 2 * a - 2 * (m * b);
    // q d has magnitude m b and the sign of n (or is zero), so 2n - 2qd is e or -e
    var qd := q * d;
    if n >= 0 {
      if d > 0 {
        assert qd == m * b;
      } else {
        MulNegNeg(m, b);
        assert qd == (-(m as int)) * (-(b as int)) == m * b;
      }
      assert 2 * n - 2 * qd == e;
    } else {
      if d > 0 {
        MulNeg(m, b);
        assert qd == (-(m as int)) * b == -(m * b);
      } else {
        MulNeg(m, b);
        assert qd == m * (-(b as int)) == -(m * b);
      }
      assert 2 * n - 2 * qd == -e;
    }
  }

  lemma MulNeg(x: int, y: int)
    ensures (-x) * y == -(x * y) && x * (-y) == -(x * y)
  {
  }

  lemma MulNegNeg(x: int, y: int)
    ensures (-x) * (-y) == x * y
  {
  }
}
