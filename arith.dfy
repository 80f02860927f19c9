/** Arithmetic facts shared by the buffer layouts. */
module Arithmetic {

  /** Multiplying by a natural number keeps the order. */
  lemma MulMono(a: int, b: int, m: nat)
    requires a <= b
    ensures a * m <= b * m
  {
  }
}
