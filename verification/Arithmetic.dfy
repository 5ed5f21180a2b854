/** Facts of non-linear arithmetic the solver needs help with. */
module Arithmetic {

  lemma NonNegative(x: nat, n: nat)
    ensures x * n >= 0
  {
  }

  lemma MulBound(x: int, n: nat)
    requires x != 0
    ensures x * n >= n || x * n + n <= 0
  {
    if x > 0 {
      assert x * n == (x - 1) * n + n;
      NonNegative(x - 1, n);
    } else {
      assert x * n == -((-x - 1) * n) - n;
      NonNegative(-x - 1, n);
    }
  }

  lemma EuclidUnique(a: int, b: nat, q: int, r: nat, n: nat)
    requires a * n + b == q * n + r && b < n && r < n
    ensures a == q && b == r
  {
    assert (a - q) * n == r - b;
    if a != q {
      MulBound(a - q, n);
    }
  }

  lemma MulMonotone(a: int, b: int, k: nat)
    requires a <= b
    ensures a * k <= b * k
  {
    NonNegative(b - a, k);
    assert b * k == a * k + (b - a) * k;
  }

  lemma RealNonNegative(x: real, y: real)
    requires x >= 0.0 && y >= 0.0
    ensures x * y >= 0.0
  {
  }

  lemma RealPositive(x: real, y: real)
    requires x > 0.0 && y > 0.0
    ensures x * y > 0.0
  {
  }

  lemma RealMonotone(w: real, x: real, y: real)
    requires w >= 0.0 && x <= y
    ensures w * x <= w * y && x * w <= y * w
  {
    RealNonNegative(w, y - x);
    assert w * y == w * x + w * (y - x);
  }

  lemma RealStrict(w: real, x: real, y: real)
    requires w > 0.0 && x < y
    ensures w * x < w * y && x * w < y * w
  {
    RealPositive(w, y - x);
    assert w * y == w * x + w * (y - x);
  }

  lemma Distribute(k: real, x: real, y: real)
    ensures k * (x + y) == k * x + k * y
  {
  }

  /** Quotient and remainder are unique. */
  lemma DivModUnique(k: int, n: nat, q: int, r: nat)
    requires n >= 1 && k == q * n + r && r < n
    ensures k / n == q && k % n == r
  {
    EuclidUnique(k / n, k % n, q, r, n);
  }
}
