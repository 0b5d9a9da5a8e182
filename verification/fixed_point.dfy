/** Fixed-point cost values and the two evaluation functions. */
module FixedPoint {

  const FP_ONE: nat := 10000

  const FP_INFINITY: nat := 0xFFFF_FFFF_FFFF_FFFF

  function F(g: nat, h: nat): nat { g + h }

  /** `weight` is itself a fixed-point value. */
  function FPrime(weight: nat, g: nat, h: nat): nat { g + weight * h / FP_ONE }

  /** f' never exceeds the weighted f. */
  lemma FPrimeBound(weight: nat, g: nat, h: nat)
    requires FP_ONE <= weight
    ensures F(g, h) <= FPrime(weight, g, h)
    ensures FP_ONE * FPrime(weight, g, h) <= weight * F(g, h)
  {
    assert FP_ONE * (weight * h / FP_ONE) <= weight * h;
    assert weight * (g + h) == weight * g + weight * h;
    assert FP_ONE * g <= weight * g;
    assert FP_ONE * h <= weight * h;
  }

  /** At weight one, f' is f. */
  lemma FPrimeAtOne(g: nat, h: nat)
    ensures FPrime(FP_ONE, g, h) == F(g, h)
  {
  }
}
