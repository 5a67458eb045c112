/** Sign and quotient facts the real-valued scores need. */
module Reals {
  lemma Square(x: real)
    ensures x * x >= 0.0
  {
  }

  lemma Positive(x: real, y: real)
    ensures x > 0.0 && y > 0.0 ==> x * y > 0.0
  {
  }

  lemma Cancel(a: real, z: real)
    requires a > 0.0 && a * z >= 0.0
    ensures z >= 0.0
  {
    Positive(a, -z);
    assert a * -z == -(a * z);
  }

  lemma DifferenceOfSquares(x: real, y: real)
    ensures (x - y) * (x + y) == x * x - y * y
  {
  }

  lemma ProductSign(p: real, q: real, r: real)
    requires r == p * q
    ensures p > 0.0 && q > 0.0 ==> r > 0.0
  {
  }

  lemma BoundedBySquares(x: real, y: real)
    requires y >= 0.0 && x * x <= y * y
    ensures -y <= x <= y
  {
    DifferenceOfSquares(x, y);
    ProductSign(x - y, x + y, x * x - y * y);
    assert (-x - y) * (-x + y) == x * x - y * y;
    ProductSign(-x - y, -x + y, x * x - y * y);
  }

  lemma QuotientRange(x: real, y: real)
    requires y > 0.0 && -y <= x <= y
    ensures -1.0 <= x / y <= 1.0
  {
    var q := x / y;
    assert q * y == x;
    Positive(q - 1.0, y);
    Positive(-1.0 - q, y);
    assert (q - 1.0) * y == x - y && (-1.0 - q) * y == -y - x;
  }

  lemma Fraction(n: nat, m: nat)
    requires n <= m && m > 0
    ensures 0.0 <= n as real / m as real <= 1.0
    ensures n as real / m as real == 1.0 <==> n == m
  {
    var x, y := n as real, m as real;
    QuotientRange(x, y);
    var q := x / y;
    assert q * y == x;
    ProductSign(-q, y, -x);
  }
}
