/**
 * Rounding to two decimal places, the `round(x, 2)` that every analytic
 * applies to its result. Prices and percentages are exact reals here; the
 * rounding rule is round-half-up on the exact value.
 */
module Rounding {

  /** True when `x` is a whole number of hundredths. */
  predicate IsCents(x: real) {
    (x * 100.0).Floor as real == x * 100.0
  }

  /** The number of hundredths `x` rounds to: the whole number nearest `100 * x`, halves up. */
  function Cents(x: real): (k: int)
    ensures k as real - 0.5 <= x * 100.0 < k as real + 0.5
  {
    (x * 100.0 + 0.5).Floor
  }

  /** `x` rounded to the nearest hundredth, halves rounded up. */
  function Round2(x: real): (r: real)
    ensures x - 0.005 < r <= x + 0.005
    ensures IsCents(r)
  {
    var k := Cents(x);
    assert (k as real / 100.0) * 100.0 == k as real;
    k as real / 100.0
  }

  /** Rounding never reverses the order of two values. */
  lemma Round2Monotone(a: real, b: real)
    requires a <= b
    ensures Round2(a) <= Round2(b)
  {
    var ka, kb := Cents(a), Cents(b);
    assert a * 100.0 <= b * 100.0;
    assert ka <= kb;
  }

  /** A whole number of hundredths is left as it is. */
  lemma Round2FixesCents(k: int)
    ensures Round2(k as real / 100.0) == k as real / 100.0
  {
    var x := k as real / 100.0;
    assert x * 100.0 == k as real;
    assert Cents(x) == k;
  }

  /** The values the analytics' sign and bound arguments rely on. */
  lemma Round2FixesLandmarks()
    ensures Round2(0.0) == 0.0
    ensures Round2(10.0) == 10.0
    ensures Round2(100.0) == 100.0
  {
    Round2FixesCents(0);
    Round2FixesCents(1000);
    Round2FixesCents(10000);
  }

  /** Rounding an already rounded value changes nothing. */
  lemma Round2Idempotent(x: real)
    ensures Round2(Round2(x)) == Round2(x)
  {
    var r := Round2(x);
    var k := (r * 100.0).Floor;
    assert r == k as real / 100.0;
    Round2FixesCents(k);
  }

  /** Anything within half a hundredth below zero, or less than that above it, rounds to zero. */
  lemma Round2NearZero(x: real)
    requires -0.005 <= x < 0.005
    ensures Round2(x) == 0.0
  {
    assert 0.0 <= x * 100.0 + 0.5 < 1.0;
  }
}
