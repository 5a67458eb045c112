/** Cosine similarity over the reals; rounding is not modelled. */
module Vectors {
  import opened Utf16
  import opened Wrappers
  import opened Reals

  type Vector = seq<real>

  function Dot(a: Vector, b: Vector): real
    requires |a| == |b|
  {
    if a == [] then 0.0 else Dot(Init(a), Init(b)) + Last(a) * Last(b)
  }

  /** A square root without rounding. */
  ghost predicate IsSquareRoot(sqrt: real -> real) {
    forall x :: x >= 0.0 ==> sqrt(x) >= 0.0 && sqrt(x) * sqrt(x) == x
  }

  /** The dot product over the product of the two norms. */
  function Quotient(dot: real, normA: real, normB: real): real {
    var denom := normA * normB;
    if denom == 0.0 then 0.0 else dot / denom
  }

  /** Of a longer second vector only the first coordinates count. */
  function CosineOf(a: Vector, b: Vector, sqrt: real -> real): real
    requires |a| <= |b|
  {
    var c := b[..|a|];
    Quotient(Dot(a, c), sqrt(Dot(a, a)), sqrt(Dot(c, c)))
  }

  /** None is NaN, which a missing coordinate of b makes of the sums and so of the result. */
  method Cosine(a: Vector, b: Vector, sqrt: real -> real) returns (c: Option<real>)
    ensures c == if |a| <= |b| then Some(CosineOf(a, b, sqrt)) else None
  {
    var dot, normA, normB := 0.0, 0.0, 0.0;
    for i := 0 to |a|
      invariant i <= |b|
      invariant dot == Dot(a[..i], b[..i]) && normA == Dot(a[..i], a[..i]) && normB == Dot(b[..i], b[..i])
    {
      if i == |b| {
        return None;
      }
      assert Init(a[..i + 1]) == a[..i] && Init(b[..i + 1]) == b[..i];
      dot := dot + a[i] * b[i];
      normA := normA + a[i] * a[i];
      normB := normB + b[i] * b[i];
    }
    assert a[..|a|] == a;
    c := Some(Quotient(dot, sqrt(normA), sqrt(normB)));
  }

  /** The cross term of one more coordinate is covered by the two norms. */
  lemma CrossTerm(d: real, a: real, b: real, x: real, y: real)
    requires a >= 0.0 && b >= 0.0 && d * d <= a * b
    ensures 2.0 * d * (x * y) <= a * (y * y) + b * (x * x)
  {
    Square(x);
    if a == 0.0 {
      Square(d);
      if d != 0.0 { assert d * d > 0.0; }
    } else {
      var z := a * (y * y) + b * (x * x) - 2.0 * d * (x * y);
      Square(a * y - d * x);
      Scaled(d, a, b, x, y);
      assert (a * b - d * d) * (x * x) >= 0.0;
      Cancel(a, z);
    }
  }

  lemma Scaled(d: real, a: real, b: real, x: real, y: real)
    ensures a * (a * (y * y) + b * (x * x) - 2.0 * d * (x * y))
         == (a * y - d * x) * (a * y - d * x) + (a * b - d * d) * (x * x)
  {
  }

  lemma OneMore(d: real, a: real, b: real, x: real, y: real)
    requires a >= 0.0 && b >= 0.0 && d * d <= a * b
    ensures (d + x * y) * (d + x * y) <= (a + x * x) * (b + y * y)
    ensures a + x * x >= 0.0 && b + y * y >= 0.0
  {
    CrossTerm(d, a, b, x, y);
    Expand(d, a, b, x, y);
    Square(x);
    Square(y);
  }

  lemma Expand(d: real, a: real, b: real, x: real, y: real)
    ensures (d + x * y) * (d + x * y) == d * d + 2.0 * d * (x * y) + (x * x) * (y * y)
    ensures (a + x * x) * (b + y * y) == a * b + a * (y * y) + b * (x * x) + (x * x) * (y * y)
  {
  }

  lemma {:induction false} CauchySchwarz(a: Vector, b: Vector)
    requires |a| == |b|
    ensures Dot(a, a) >= 0.0 && Dot(b, b) >= 0.0
    ensures Dot(a, b) * Dot(a, b) <= Dot(a, a) * Dot(b, b)
  {
    if a == [] {
    } else {
      CauchySchwarz(Init(a), Init(b));
      OneMore(Dot(Init(a), Init(b)), Dot(Init(a), Init(a)), Dot(Init(b), Init(b)), Last(a), Last(b));
    }
  }

  lemma {:induction false} DotSymmetric(a: Vector, b: Vector)
    requires |a| == |b|
    ensures Dot(a, b) == Dot(b, a)
  {
    if a == [] {
    } else {
      DotSymmetric(Init(a), Init(b));
    }
  }

  lemma Regroup(x: real, y: real)
    ensures (x * y) * (x * y) == (x * x) * (y * y) && x * y == y * x
    ensures x >= 0.0 && y >= 0.0 ==> x * y >= 0.0
  {
  }

  lemma QuotientInRange(d: real, aa: real, bb: real, ra: real, rb: real)
    requires ra >= 0.0 && rb >= 0.0 && ra * ra == aa && rb * rb == bb && d * d <= aa * bb
    ensures -1.0 <= Quotient(d, ra, rb) <= 1.0
  {
    Regroup(ra, rb);
    BoundedBySquares(d, ra * rb);
    if ra * rb != 0.0 { QuotientRange(d, ra * rb); }
  }

  lemma QuotientTimesNorms(d: real, ra: real, rb: real)
    ensures if ra * rb == 0.0 then Quotient(d, ra, rb) == 0.0 else Quotient(d, ra, rb) * (ra * rb) == d
  {
    if ra * rb != 0.0 { UndoDivision(d, ra * rb); }
  }

  lemma UndoDivision(x: real, y: real)
    requires y != 0.0
    ensures (x / y) * y == x
  {
  }

  lemma QuotientSymmetric(d: real, ra: real, rb: real)
    ensures Quotient(d, ra, rb) == Quotient(d, rb, ra)
  {
    Regroup(ra, rb);
  }

  lemma SelfQuotient(x: real, y: real)
    requires x == y && y != 0.0
    ensures x / y == 1.0
  {
  }

  lemma QuotientOfOne(aa: real, ra: real)
    requires ra * ra == aa && aa != 0.0
    ensures Quotient(aa, ra, ra) == 1.0
  {
    SelfQuotient(aa, ra * ra);
  }

  /** Between -1 and 1; symmetric for vectors of one length; 1 of a non-zero vector with itself. */
  lemma CosineRange(a: Vector, b: Vector, sqrt: real -> real)
    requires |a| <= |b| && IsSquareRoot(sqrt)
    ensures -1.0 <= CosineOf(a, b, sqrt) <= 1.0
    ensures |a| == |b| ==> CosineOf(a, b, sqrt) == CosineOf(b, a, sqrt)
    ensures Dot(a, a) != 0.0 ==> CosineOf(a, a, sqrt) == 1.0
  {
    hide Dot, Quotient;
    var c := b[..|a|];
    CauchySchwarz(a, c);
    DotSymmetric(a, c);
    var ra, rc := sqrt(Dot(a, a)), sqrt(Dot(c, c));
    QuotientInRange(Dot(a, c), Dot(a, a), Dot(c, c), ra, rc);
    QuotientSymmetric(Dot(a, c), ra, rc);
    if Dot(a, a) != 0.0 { QuotientOfOne(Dot(a, a), ra); }
    assert a[..|a|] == a;
    if |a| == |b| { assert c == b && b[..|b|] == b; }
  }

  /** The cosine times the two norms is the dot product; without a norm it is zero. */
  lemma CosineTimesNorms(a: Vector, b: Vector, sqrt: real -> real)
    requires |a| <= |b|
    ensures var c := b[..|a|];
            var norms := sqrt(Dot(a, a)) * sqrt(Dot(c, c));
            if norms == 0.0 then CosineOf(a, b, sqrt) == 0.0 else CosineOf(a, b, sqrt) * norms == Dot(a, c)
  {
    hide Dot, Quotient;
    var c := b[..|a|];
    QuotientTimesNorms(Dot(a, c), sqrt(Dot(a, a)), sqrt(Dot(c, c)));
  }

  lemma ZeroSquare(x: real)
    requires x * x == 0.0
    ensures x == 0.0
  {
    ProductSign(x, x, x * x);
    ProductSign(-x, -x, x * x);
  }

  /** The norm vanishes only if every coordinate does. */
  lemma {:induction false} ZeroNormIffZero(a: Vector)
    ensures Dot(a, a) == 0.0 <==> forall i | 0 <= i < |a| :: a[i] == 0.0
  {
    if a == [] {
    } else {
      CauchySchwarz(Init(a), Init(a));
      ZeroNormIffZero(Init(a));
      Square(Last(a));
      assert forall i | 0 <= i < |Init(a)| :: Init(a)[i] == a[i];
      if Dot(a, a) == 0.0 {
        var l := Last(a);
        assert Dot(a, a) == Dot(Init(a), Init(a)) + l * l;
        assert l * l == 0.0 && Dot(Init(a), Init(a)) == 0.0;
        ZeroSquare(l);
        forall i | 0 <= i < |a| ensures a[i] == 0.0 {
          if i < |Init(a)| { assert Init(a)[i] == 0.0; }
        }
      }
    }
  }
}
