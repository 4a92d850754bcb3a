/** Facts about products that the solver does not find by itself. */
module Arithmetic {
  lemma ProductMonotone(a: int, b: int, n: nat)
    requires a <= b
    ensures a * n <= b * n
  {
  }
}
