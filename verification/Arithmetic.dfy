module Arithmetic {
  function Min(a: int, b: int): int { if a < b then a else b }

  lemma {:induction false} MulMonotone(a: int, b: int, c: nat)
    requires a <= b
    ensures a * c <= b * c
  {
  }
}
