/**
  The closed-form rearrangements shared by both solvers. A feed of flow F
  and grade (or dilution ratio) f splits into two streams A and B with
  grades a and b; each lemma shows that one rearrangement satisfies the
  component balance F*f == A*a + B*b once the mass balance F == A + B is
  used to find the other stream.
 */
module Algebra {

  /** Feed known: A = F(f - b)/(a - b), B = F - A. */
  lemma SplitOfKnownFeed(F: real, f: real, a: real, b: real)
    requires a - b != 0.0
    ensures var A := F * (f - b) / (a - b); F * f == A * a + (F - A) * b
  {
    var A := F * (f - b) / (a - b);
    assert A * (a - b) == F * (f - b);
    calc {
      A * a + (F - A) * b;
      A * (a - b) + F * b;
      F * (f - b) + F * b;
      F * f;
    }
  }

  /** B known: F = B(b - a)/(f - a), A = F - B. */
  lemma FeedFromSecondStream(B: real, f: real, a: real, b: real)
    requires f - a != 0.0
    ensures var F := B * (b - a) / (f - a); F * f == (F - B) * a + B * b
  {
    var F := B * (b - a) / (f - a);
    assert F * (f - a) == B * (b - a);
    calc {
      (F - B) * a + B * b;
      F * a + B * (b - a);
      F * a + F * (f - a);
      F * f;
    }
  }

  /** A known: F = A(a - b)/(f - b), B = F - A. */
  lemma FeedFromFirstStream(A: real, f: real, a: real, b: real)
    requires f - b != 0.0
    ensures var F := A * (a - b) / (f - b); F * f == A * a + (F - A) * b
  {
    var F := A * (a - b) / (f - b);
    assert F * (f - b) == A * (a - b);
    calc {
      A * a + (F - A) * b;
      A * (a - b) + F * b;
      F * (f - b) + F * b;
      F * f;
    }
  }

  /** A quotient with a non-zero divisor is zero exactly when its dividend is. */
  lemma QuotientZero(n: real, d: real)
    requires d != 0.0
    ensures n / d == 0.0 <==> n == 0.0
  {
    assert (n / d) * d == n;
  }

  /** The feed found from one product, B(a - b)/d, is zero exactly when B is zero or a = b. */
  lemma ScaledDifferenceZero(B: real, a: real, b: real, d: real)
    requires d != 0.0
    ensures B * (a - b) / d == 0.0 <==> B == 0.0 || a == b
  {
    QuotientZero(B * (a - b), d);
    ProductZero(B, a - b);
  }

  lemma ProductZero(x: real, y: real)
    ensures x * y == 0.0 <==> x == 0.0 || y == 0.0
  {
    if x != 0.0 && y != 0.0 {
      assert (x * y) / y == x;
    }
  }
}
