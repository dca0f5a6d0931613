/** Quotients that are shares. */
module Quotients {

  lemma QuotientInUnit(a: real, b: real)
    requires 0.0 <= a <= b && b > 0.0
    ensures 0.0 <= a / b <= 1.0
    ensures a / b == 1.0 <==> a == b
  {}

  /** A fraction grows with its numerator. */
  lemma QuotientRises(a: real, a': real, b: real)
    requires b > 0.0
    ensures a <= a' <==> a / b <= a' / b
  {
    assert a' / b - a / b == (a' - a) / b;
  }
}
