/**
 * The C library arithmetic the engine relies on: std::fmod keeps the sign of the
 * dividend, std::floor rounds down, and the integer `%` of C++ truncates toward
 * zero.  fmod and floor of a quotient are written as the whole multiples of the
 * divisor they take off, one multiple at a time.
 */
module Angles {

  /**
   * std::fmod for a positive modulus: whole multiples of m are taken off toward
   * zero, so the remainder keeps the sign of the dividend.
   */
  function FMod(x: real, m: real): (r: real)
    requires m > 0.0
    ensures x >= 0.0 ==> 0.0 <= r < m
    ensures x < 0.0 ==> -m < r <= 0.0
    ensures 0.0 <= x < m ==> r == x
    decreases if x < 0.0 then 1 else 0, if x < 0.0 then 0 else (x / m).Floor
  {
    if x < 0.0 then -FMod(-x, m)
    else if x < m then x
    else
      QuotientStep(x, m);
      FMod(x - m, m)
  }

  /** std::floor(t / step): the number of whole steps in t, rounded down. */
  function FloorSteps(t: real, step: real): (q: int)
    requires step > 0.0
    decreases if t < 0.0 then 1 else 0, if t < 0.0 then (-t / step).Floor else (t / step).Floor
  {
    if t < 0.0 then
      if t + step < 0.0 then
        QuotientStep(-t, step);
        FloorSteps(t + step, step) - 1
      else FloorSteps(t + step, step) - 1
    else if t < step then 0
    else
      QuotientStep(t, step);
      FloorSteps(t - step, step) + 1
  }

  /** Taking one divisor off a dividend of at least one divisor takes one off its quotient's whole part. */
  lemma QuotientStep(x: real, m: real)
    requires m > 0.0 && x >= m
    ensures 0 <= ((x - m) / m).Floor < (x / m).Floor
  {
    var y := x / m;
    assert y * m == x;
    assert (y - 1.0) * m == x - m;
    var z := (x - m) / m;
    assert z * m == x - m;
    if z < y - 1.0 { ScaleLt(z, y - 1.0, m); }
    if z > y - 1.0 { ScaleLt(y - 1.0, z, m); }
  }

  /** FloorSteps is the floor of the quotient: q steps fit in t and q + 1 do not. */
  lemma {:induction false} FloorStepsBounds(t: real, step: real)
    requires step > 0.0
    ensures FloorSteps(t, step) as real * step <= t < (FloorSteps(t, step) as real + 1.0) * step
    decreases if t < 0.0 then 1 else 0, if t < 0.0 then (-t / step).Floor else (t / step).Floor
  {
    var q := FloorSteps(t, step);
    if t < 0.0 {
      if t + step < 0.0 { QuotientStep(-t, step); }
      var p := FloorSteps(t + step, step);
      assert q == p - 1;
      FloorStepsBounds(t + step, step);
      StepShift(p, step);
    } else if t >= step {
      QuotientStep(t, step);
      var p := FloorSteps(t - step, step);
      assert q == p + 1;
      FloorStepsBounds(t - step, step);
      StepShift(q, step);
    }
  }

  lemma StepShift(p: int, step: real)
    ensures (p - 1) as real * step == p as real * step - step
  {
  }

  lemma ScaleLe(a: real, b: real, m: real)
    requires m > 0.0 && a <= b
    ensures a * m <= b * m
  {
  }

  lemma ScaleLt(a: real, b: real, m: real)
    requires m > 0.0 && a < b
    ensures a * m < b * m
  {
  }

  /** For a non-negative dividend below twice the modulus, fmod subtracts one modulus. */
  lemma FModOnce(x: real, m: real)
    requires m > 0.0 && m <= x < 2.0 * m
    ensures FMod(x, m) == x - m
  {
    assert FMod(x, m) == FMod(x - m, m);
  }

  /** fmod by 360 of a non-negative angle removes its whole turns. */
  lemma FModTurns(x: real, k: nat)
    requires k as real * 360.0 <= x < (k as real + 1.0) * 360.0
    ensures FMod(x, 360.0) == x - k as real * 360.0
  {
    FModSteps(x, 360.0, k);
  }

  /** k moduli added one at a time. */
  function Multiple(k: nat, m: real): (r: real)
    decreases k
  {
    if k == 0 then 0.0 else Multiple(k - 1, m) + m
  }

  /** Adding k moduli one at a time is multiplying by k. */
  lemma {:induction false} MultipleIsProduct(k: nat, m: real)
    ensures Multiple(k, m) == k as real * m
    decreases k
  {
    if k > 0 {
      MultipleIsProduct(k - 1, m);
      assert k as real * m == (k - 1) as real * m + m;
    }
  }

  /** fmod of a non-negative value removes its whole multiples of the modulus. */
  lemma FModSteps(x: real, m: real, k: nat)
    requires m > 0.0 && k as real * m <= x < (k as real + 1.0) * m
    ensures FMod(x, m) == x - k as real * m
  {
    MultipleIsProduct(k, m);
    MultipleIsProduct(k + 1, m);
    FModMultiple(x, m, k);
  }

  /** FModSteps with the multiple built by additions. */
  lemma {:induction false} FModMultiple(x: real, m: real, k: nat)
    requires m > 0.0 && Multiple(k, m) <= x < Multiple(k, m) + m
    ensures FMod(x, m) == x - Multiple(k, m)
    decreases k
  {
    if k > 0 {
      MultipleNonNegative(k - 1, m);
      FModMultiple(x - m, m, k - 1);
    }
  }

  /** A sum of positive moduli is not negative. */
  lemma {:induction false} MultipleNonNegative(k: nat, m: real)
    requires m > 0.0
    ensures Multiple(k, m) >= 0.0
    decreases k
  {
    if k > 0 {
      MultipleNonNegative(k - 1, m);
    }
  }

  /** C++ `%` on integers: the remainder has the sign of the dividend. */
  function CRem(a: int, n: int): (r: int)
    requires n > 0
    ensures a >= 0 ==> r == a % n
    ensures a < 0 ==> -n < r <= 0
  {
    if a >= 0 then a % n else -((-a) % n)
  }
}
