/** Integer helpers shared by the scorer and the progress record:
    `Math.min` and `Math.max` on two arguments. */
module Arith {

  function Min(a: int, b: int): int
  {
    if a <= b then a else b
  }

  function Max(a: int, b: int): int
  {
    if a >= b then a else b
  }
}
