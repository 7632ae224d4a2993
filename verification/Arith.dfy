/** Truncation, and sign and ordering facts about products of reals, each small enough for the solver. */
module Arith {

  /** Python's `int` on a number: truncation toward zero. */
  function Truncate(x: real): int {
    if x >= 0.0 then x.Floor else -((-x).Floor)
  }

  /** The whole part, with the sign of the number. */
  lemma TruncateIff(x: real, n: int)
    ensures x >= 0.0 ==> (Truncate(x) == n <==> n as real <= x < n as real + 1.0)
    ensures x <= 0.0 ==> (Truncate(x) == n <==> n as real - 1.0 < x <= n as real)
  {
  }

  lemma Distribute(a: real, b: real, c: real)
    ensures (a + b) * c == a * c + b * c
    ensures (a - b) * c == a * c - b * c
    ensures c * (a + b) == c * a + c * b
    ensures c * (a - b) == c * a - c * b
  {
  }

  lemma ProductSign(x: real, y: real)
    requires x >= 0.0 && y >= 0.0
    ensures x * y >= 0.0
    ensures x > 0.0 && y > 0.0 ==> x * y > 0.0
  {
  }

  /** The sign of a square, named so that the solver keeps it as a term of its own. */
  lemma SquareSign(x: real, s: real)
    requires s == x * x
    ensures s >= 0.0 && (s == 0.0 <==> x == 0.0)
  {
    SameFactors(x, x, s);
  }

  lemma SameFactors(x: real, y: real, s: real)
    requires x == y && s == x * y
    ensures s >= 0.0 && (s == 0.0 <==> x == 0.0)
  {
    if x >= 0.0 {
      ProductSign(x, y);
    } else {
      var u, v := -x, -y;
      assert u * v == x * y;
      ProductSign(u, v);
    }
  }

  lemma MultiplyOrder(a: real, b: real, k: real)
    requires a <= b && k >= 0.0
    ensures a * k <= b * k
    ensures a < b && k > 0.0 ==> a * k < b * k
  {
    ProductSign(b - a, k);
    Distribute(b, a, k);
  }

  lemma CancelOrder(a: real, b: real, k: real)
    requires k > 0.0 && a * k <= b * k
    ensures a <= b
  {
    if b < a {
      MultiplyOrder(b, a, k);
    }
  }

  lemma CancelStrict(a: real, b: real, k: real)
    requires k > 0.0 && a * k < b * k
    ensures a < b
  {
    if b <= a {
      MultiplyOrder(b, a, k);
    }
  }

  lemma CancelEqual(a: real, b: real, k: real)
    requires k != 0.0 && a * k == b * k
    ensures a == b
  {
  }

  lemma QuotientTimes(a: real, b: real)
    requires b != 0.0
    ensures a / b * b == a
  {
  }
}
