/**
 * Decimal quantization as done by Python's decimal.Decimal.quantize.
 * Amounts are exact rationals; the two rounding policies the source uses are
 * written out: 4 fractional digits with ROUND_HALF_EVEN (the context default)
 * for exchange-rate factors, and 2 fractional digits with ROUND_UP (away from
 * zero) for converted prices.
 */
module Decimals {

  /** x has at most 4 fractional digits. */
  predicate Places4(x: real) {
    (x * 10000.0).Floor as real == x * 10000.0
  }

  /** x has at most 2 fractional digits. */
  predicate Places2(x: real) {
    (x * 100.0).Floor as real == x * 100.0
  }

  /** The integer nearest to y; a tie goes to the even neighbour. */
  function RoundHalfEven(y: real): (n: int)
    ensures -0.5 <= n as real - y <= 0.5
    ensures (n as real - y == 0.5 || y - n as real == 0.5) ==> n % 2 == 0
  {
    var f := y.Floor;
    var d := y - f as real;
    if d < 0.5 then f
    else if d > 0.5 then f + 1
    else if f % 2 == 0 then f
    else f + 1
  }

  /** quantize(Decimal(".0001")) under ROUND_HALF_EVEN. */
  function Quantize4(x: real): (r: real)
    ensures Places4(r)
    ensures -0.00005 <= r - x <= 0.00005
    ensures Places4(x) ==> r == x
    // a tie goes to the neighbour whose last digit is even
    ensures (r - x == 0.00005 || x - r == 0.00005) ==> (r * 10000.0).Floor % 2 == 0
  {
    var n := RoundHalfEven(x * 10000.0);
    assert (n as real / 10000.0) * 10000.0 == n as real;
    n as real / 10000.0
  }

  /** The least integer not below y. */
  function Ceiling(y: real): (n: int)
    ensures y <= n as real < y + 1.0
  {
    -((-y).Floor)
  }

  /** An integral value is its own ceiling. */
  lemma {:induction false} CeilingOfInteger(k: int)
    ensures Ceiling(k as real) == k
  {
    assert (-(k as real)) == (-k) as real;
  }

  /** Scaling a whole number of cents back down to an amount. */
  lemma {:induction false} CentsScale(x: real, n: int)
    requires x * 100.0 <= n as real < x * 100.0 + 1.0
    ensures x <= n as real / 100.0 < x + 0.01
    ensures (n as real / 100.0) * 100.0 == n as real
  {
  }

  /** An amount with whole cents is its own number of cents, rounded up. */
  lemma {:induction false} CentsExact(x: real)
    requires Places2(x)
    ensures Ceiling(x * 100.0) as real == x * 100.0
  {
    CeilingOfInteger((x * 100.0).Floor);
  }

  /** A non-negative amount rounded up to whole cents. */
  function CentsUp(x: real): (r: real)
    requires x >= 0.0
    ensures Places2(r)
    ensures x <= r < x + 0.01
    ensures Places2(x) ==> r == x
  {
    var n := Ceiling(x * 100.0);
    CentsScale(x, n);
    if Places2(x) then CentsExact(x); n as real / 100.0
    else n as real / 100.0
  }

  /** quantize(Decimal("0.01"), rounding=ROUND_UP): away from zero. */
  function QuantizeUp2(x: real): (r: real)
    ensures Places2(r)
    ensures x >= 0.0 ==> x <= r < x + 0.01
    ensures x < 0.0 ==> x - 0.01 < r <= x
    ensures Places2(x) ==> r == x
  {
    if x >= 0.0 then CentsUp(x)
    else
      var c := CentsUp(-x);
      assert Places2(x) ==> Places2(-x) by {
        if Places2(x) {
          var k := (x * 100.0).Floor;
          assert (-x * 100.0) == (-k) as real;
        }
      }
      assert (-c) * 100.0 == -(c * 100.0);
      assert ((-c) * 100.0).Floor == -((c * 100.0).Floor);
      -c
  }

  /** The quantized factor is determined by its two defining properties. */
  lemma {:induction false} Quantize4Unique(x: real, q: real)
    requires Places4(q) && -0.00005 < q - x < 0.00005
    ensures q == Quantize4(x)
  {
    var n := (q * 10000.0).Floor;
    var m := RoundHalfEven(x * 10000.0);
    assert n as real == q * 10000.0;
    assert -0.5 < n as real - x * 10000.0 < 0.5;
    assert -1.0 < (n - m) as real < 1.0;
  }

  /** ROUND_UP never moves a value towards zero and never by a whole cent. */
  lemma {:induction false} QuantizeUp2Magnitude(x: real)
    ensures x >= 0.0 ==> QuantizeUp2(x) >= 0.0
    ensures x <= 0.0 ==> QuantizeUp2(x) <= 0.0
    ensures -0.01 < QuantizeUp2(x) - x < 0.01
  {
    if x < 0.0 {
      assert -x * 100.0 > 0.0;
    }
  }

  /** A rate re-expressed through a multiplier: (rate * multiplier).quantize(Decimal(".0001")). */
  function Requote(rate: real, multiplier: real): real {
    Quantize4(rate * multiplier)
  }

  /** A requoted rate has 4 digits and is within half a unit of the 4th digit of the exact quotient. */
  lemma {:induction false} RequoteClose(rate: real, x: real)
    requires x != 0.0
    ensures Places4(Requote(rate, 1.0 / x))
    ensures -0.00005 <= Requote(rate, 1.0 / x) - rate / x <= 0.00005
  {
    assert rate * (1.0 / x) == rate / x;
  }

  /** The rate that defines the multiplier requotes to exactly 1. */
  lemma {:induction false} RequoteInverse(x: real, m: real)
    requires x * m == 1.0
    ensures Requote(x, m) == 1.0
  {
    assert Places4(x * m) by {
      assert (x * m) * 10000.0 == 10000.0;
    }
  }

  /** A multiplier of 1 leaves a 4-digit rate as it is. */
  lemma {:induction false} RequoteByOne(rate: real)
    requires Places4(rate)
    ensures Requote(rate, 1.0) == rate
  {
    assert rate * 1.0 == rate;
  }
}
