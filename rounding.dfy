/**
  Decimal rounding over the reals: `Round(x, n)` is the multiple of 10^-n
  nearest to `x`, ties going to the even multiple, the way Python's
  `round(x, n)` treats the exact value it is given.
 */
module Rounding {

  /** 10^n as a real. */
  function Pow10(n: nat): (p: real)
    ensures p >= 1.0
  {
    if n == 0 then 1.0 else 10.0 * Pow10(n - 1)
  }

  predicate IsInteger(x: real)
  {
    x.Floor as real == x
  }

  /** `x` is a whole number of steps of size 1/p. */
  predicate OnScale(x: real, p: real)
  {
    IsInteger(x * p)
  }

  /** The multiple of 1/p nearest to `x`, ties to the even multiple. */
  function RoundToScale(x: real, p: real): (r: real)
    requires p > 0.0
    ensures OnScale(r, p)
    ensures -0.5 / p <= r - x <= 0.5 / p
  {
    var s := x * p;
    var k := s.Floor;
    var q := if s - k as real < 0.5 || (s - k as real == 0.5 && k % 2 == 0) then k else k + 1;
    var r := q as real / p;
    assert r * p == q as real;
    assert IsInteger(q as real);
    assert -0.5 <= q as real - s <= 0.5;
    assert r - x == (q as real - s) / p;
    assert OnScale(r, p);
    DivideBounds(q as real - s, p);
    assert -0.5 / p <= r - x <= 0.5 / p;
    r
  }

  lemma DivideBounds(a: real, p: real)
    requires p > 0.0 && -0.5 <= a <= 0.5
    ensures -0.5 / p <= a / p <= 0.5 / p
  {
    assert a / p - (-0.5 / p) == (a + 0.5) / p;
    assert 0.5 / p - a / p == (0.5 - a) / p;
  }

  lemma RoundToScaleFixes(x: real, p: real)
    requires p > 0.0 && OnScale(x, p)
    ensures RoundToScale(x, p) == x
  {
    var s := x * p;
    assert s.Floor as real == s;
    assert x == s.Floor as real / p;
  }

  lemma DifferenceOnScale(a: real, b: real, p: real)
    requires OnScale(a, p) && OnScale(b, p)
    ensures OnScale(a - b, p)
  {
    var ka, kb := (a * p).Floor, (b * p).Floor;
    assert (a - b) * p == a * p - b * p;
    assert (a - b) * p == (ka - kb) as real;
    assert IsInteger((ka - kb) as real);
  }

  /** Half a unit in the n-th decimal place: the largest rounding error. */
  function HalfUnit(n: nat): (h: real)
    ensures 0.0 < h <= 0.5
  {
    0.5 / Pow10(n)
  }

  /** `x` has at most `n` decimal places. */
  predicate OnGrid(x: real, n: nat)
  {
    OnScale(x, Pow10(n))
  }

  /** Rounds half to even at `n` decimal places. */
  function Round(x: real, n: nat): (r: real)
    ensures OnGrid(r, n)
    ensures -HalfUnit(n) <= r - x <= HalfUnit(n)
  {
    RoundToScale(x, Pow10(n))
  }

  /** A value that already has at most `n` decimal places is left alone. */
  lemma RoundOnGrid(x: real, n: nat)
    requires OnGrid(x, n)
    ensures Round(x, n) == x
  {
    RoundToScaleFixes(x, Pow10(n));
  }

  /** Rounding the difference of two rounded values changes nothing. */
  lemma RoundDifferenceOfRounded(a: real, b: real, n: nat)
    ensures Round(Round(a, n) - Round(b, n), n) == Round(a, n) - Round(b, n)
  {
    DifferenceOnScale(Round(a, n), Round(b, n), Pow10(n));
    RoundOnGrid(Round(a, n) - Round(b, n), n);
  }

  lemma {:induction false} PowIsInteger(n: nat)
    ensures IsInteger(Pow10(n))
  {
    if n > 0 {
      PowIsInteger(n - 1);
      var k := Pow10(n - 1).Floor;
      assert Pow10(n) == (10 * k) as real;
      assert IsInteger((10 * k) as real);
    }
  }

  /** Whole numbers are unchanged by rounding at any number of places. */
  lemma RoundInteger(k: int, n: nat)
    ensures Round(k as real, n) == k as real
  {
    var p := Pow10(n);
    PowIsInteger(n);
    var kp := p.Floor;
    assert p == kp as real;
    assert k as real * p == (k * kp) as real;
    assert IsInteger((k * kp) as real);
    assert IsInteger(k as real * p);
    assert OnScale(k as real, p);
    RoundToScaleFixes(k as real, p);
  }
}
