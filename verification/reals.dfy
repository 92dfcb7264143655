/** Small facts of real arithmetic, one multiplication at a time, for proofs that would lose the solver otherwise. */
module Reals {
  lemma MulPositive(x: real, y: real)
    requires x > 0.0 && y > 0.0
    ensures x * y > 0.0
  {
  }

  lemma MulMonotone(x: real, y: real, k: real)
    requires x <= y && k >= 0.0
    ensures x * k <= y * k
  {
  }

  lemma MulStrict(x: real, y: real, k: real)
    requires x < y && k > 0.0
    ensures x * k < y * k
  {
  }

  lemma MulCancel(x: real, y: real, k: real)
    requires k != 0.0 && x * k == y * k
    ensures x == y
  {
  }

  lemma MulSame(x: real, x': real, y: real, y': real)
    requires x == x' && y == y'
    ensures x * y == x' * y'
  {
  }

  lemma DivMul(x: real, k: real)
    requires k != 0.0
    ensures x / k * k == x
  {
  }

  lemma SquareNotNegative(x: real)
    ensures x * x >= 0.0
    ensures x != 0.0 ==> x * x > 0.0
  {
  }

  lemma ProductNotNegative(x: real, y: real, product: real)
    requires x >= 0.0 && y >= 0.0 && product == x * y
    ensures product >= 0.0
  {
  }

  lemma ProductPositive(x: real, y: real, product: real)
    requires x > 0.0 && y > 0.0 && product == x * y
    ensures product > 0.0
  {
  }

  lemma SquarePositive(x: real, square: real)
    requires x != 0.0 && square == x * x
    ensures square > 0.0
  {
    if x > 0.0 {
      ProductPositive(x, x, square);
    } else {
      ProductPositive(-x, -x, square);
    }
  }

  /** Two numbers with one square, neither negative, are the same. */
  lemma RootUnique(h: real, x: real)
    requires h >= 0.0 && h * h == x * x && x >= 0.0
    ensures h == x
  {
    if h + x > 0.0 {
      assert (h - x) * (h + x) == 0.0;
    }
  }
}
