/** The smaller and the larger of two numbers. */
module Bounds {
  function Min(a: int, b: int): int {
    if a <= b then a else b
  }

  function Max(a: int, b: int): int {
    if a >= b then a else b
  }
}

/** The same for reals. */
module RealBounds {
  function Min(a: real, b: real): real {
    if a <= b then a else b
  }

  function Max(a: real, b: real): real {
    if a >= b then a else b
  }
}

/** Products of reals under a name of their own, and their signs. */
module RealProducts {
  function Product(x: real, y: real): real {
    x * y
  }

  lemma Sign(x: real, y: real)
    requires y > 0.0
    ensures (Product(x, y) > 0.0 <==> x > 0.0) && (Product(x, y) >= 0.0 <==> x >= 0.0)
    ensures Product(x, y) == 0.0 <==> x == 0.0
  {}

  lemma PositiveQuotient(x: real, y: real)
    requires x > 0.0 && y > 0.0
    ensures x / y > 0.0 && Product(x / y, y) == x
  {}

  lemma SelfQuotient(x: real)
    requires x != 0.0
    ensures x / x == 1.0
  {}
}
