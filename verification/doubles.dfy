/** IEEE 754 binary64 values as far as the position bookkeeping observes them:
    the only operation applied to them is the `!=` comparison of two stored
    coordinates, so a value is a finite real, an infinity or NaN. */
module Doubles {

  datatype Double = Finite(value: real) | PosInf | NegInf | NaN

  /** IEEE 754 equality (the `==` of C++ on `double`): NaN compares unequal to
      everything, itself included; every other value equals exactly itself. */
  predicate Eq(a: Double, b: Double)
  {
    !a.NaN? && !b.NaN? && a == b
  }

  /** Equality is reflexive exactly on the non-NaN values. */
  lemma EqReflexiveUnlessNaN(a: Double)
    ensures Eq(a, a) <==> !a.NaN?
  {
  }
}
