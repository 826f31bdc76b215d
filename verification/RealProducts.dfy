/** Products of reals, kept apart from everything else so that proofs can hide them. */
module RealProducts {
  import opened Rounding

  /** A product under a name of its own, so that proofs can treat it as one number. */
  function Mul(a: real, b: real): real {
    a * b
  }

  lemma MulZero(a: real, k: real)
    ensures Mul(a, k) == 0.0 <==> a == 0.0 || k == 0.0
  {
  }

  lemma MulCancel(a: real, k: real)
    ensures Mul(a, k) == k <==> a == 1.0 || k == 0.0
  {
  }

  lemma PairOver(a: real, b: real, n: real)
    requires n != 0.0
    ensures Mul(Mul(a / n, b / n), Mul(n, n)) == Mul(a, b)
  {
  }

  lemma SquareNonNegative(x: real)
    ensures x * x >= 0.0
  {
  }

  lemma ZeroSum(a: real, b: real)
    requires a >= 0.0 && b >= 0.0 && a + b == 0.0
    ensures a == 0.0 && b == 0.0
  {
  }

  lemma SqrtOfOne(n: real)
    requires n >= 0.0 && n * n == 1.0
    ensures n == 1.0
  {
    assert Mul(n - 1.0, n + 1.0) == 0.0;
    MulZero(n - 1.0, n + 1.0);
  }

  lemma AbsMul(a: real, b: real)
    ensures Abs(Mul(a, b)) == Mul(Abs(a), Abs(b)) >= 0.0
  {
  }

  lemma MulMonotone(a: real, b: real, k: real)
    requires a <= b && k >= 0.0
    ensures Mul(a, k) <= Mul(b, k)
  {
  }
}
