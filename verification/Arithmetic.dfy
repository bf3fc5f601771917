/** The one nonlinear fact the other modules share. */
module Arithmetic {
  lemma MulMonotone(k: int, l: int, m: int)
    requires k <= l && m > 0
    ensures k * m <= l * m
  {
  }
}
