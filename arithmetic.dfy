/** Facts about natural-number multiplication shared by the models that divide. */
module Arithmetic {

  /** Multiplication by a natural number keeps order, on either side. */
  lemma MulMonotone(d: nat, x: nat, y: nat)
    requires x <= y
    ensures d * x <= d * y && x * d <= y * d
  {
    var k := y - x;
    assert d * y == d * x + d * k;
  }
}
