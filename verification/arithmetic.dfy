/** Small integer helpers shared by the card formatter and the checkout
    step counter. */
module Arithmetic {

  /** The smaller of two integers. */
  function Min(a: int, b: int): (m: int)
    ensures m <= a && m <= b
    ensures m == a || m == b
  {
    if a <= b then a else b
  }
}
