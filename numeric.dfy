/** Scalar arithmetic used by the reducer and by the shaders. Everything is over
    exact reals: float rounding and shader precision are not modelled. */
module Numeric {

  /** `clamp(v, lo, hi)` from the project's math utilities, which are not part of
      this model; it is taken to be `Math.min(Math.max(v, lo), hi)`. */
  function Clamp(v: real, lo: real, hi: real): (r: real)
    ensures lo <= hi ==> lo <= r <= hi
    ensures lo <= v <= hi ==> r == v
    ensures v < lo <= hi ==> r == lo
    ensures hi < v ==> r == hi
  {
    var m := if v < lo then lo else v;
    if m > hi then hi else m
  }

  /** GLSL `mix(a, b, t)`, that is `a * (1 - t) + b * t`. */
  function Mix(a: real, b: real, t: real): (r: real)
    ensures t == 0.0 ==> r == a
    ensures t == 1.0 ==> r == b
  {
    a * (1.0 - t) + b * t
  }

  /** For a parameter in [0,1], mix stays inside any interval holding both ends. */
  lemma MixWithin(a: real, b: real, t: real, lo: real, hi: real)
    requires 0.0 <= t <= 1.0
    requires lo <= a <= hi && lo <= b <= hi
    ensures lo <= Mix(a, b, t) <= hi
  {
    var d := b - a;
    if d >= 0.0 {
      assert 0.0 <= d * t <= d;
    } else {
      assert d <= d * t <= 0.0;
    }
  }

  /** The cubic Bezier polynomial exactly as the shaders spell it out. */
  function Cubic(a0: real, a1: real, a2: real, a3: real, t: real): (r: real)
    ensures t == 0.0 ==> r == a0
    ensures t == 1.0 ==> r == a3
  {
    var t2 := t * t;
    var t3 := t2 * t;
    var mt := 1.0 - t;
    var mt2 := mt * mt;
    var mt3 := mt2 * mt;
    mt3 * a0 + 3.0 * mt2 * t * a1 + 3.0 * mt * t2 * a2 + t3 * a3
  }

  /** The k-th cubic Bernstein weight, k in 0..3. */
  function Bernstein(k: nat, t: real): real
    requires k < 4
  {
    var mt := 1.0 - t;
    match k
    case 0 => mt * mt * mt
    case 1 => 3.0 * mt * mt * t
    case 2 => 3.0 * mt * t * t
    case 3 => t * t * t
  }

  /** Strictly inside (0,1) the third weight is positive; at one half it is 3/8. */
  lemma BernsteinInside(t: real)
    requires 0.0 < t < 1.0
    ensures 0.0 < Bernstein(2, t)
    ensures t == 0.5 ==> Bernstein(2, t) == 0.375
  {
    var mt := 1.0 - t;
    MulPos(3.0 * mt, t);
    MulPos(3.0 * mt * t, t);
  }

  lemma MulPos(a: real, b: real)
    requires 0.0 < a && 0.0 < b
    ensures 0.0 < a * b
  {
  }

  /** Convexity of the cubic: for t in [0,1] it stays within any interval that holds
      all four coefficients. */
  lemma CubicWithin(a0: real, a1: real, a2: real, a3: real, t: real, lo: real, hi: real)
    requires 0.0 <= t <= 1.0
    requires lo <= a0 <= hi && lo <= a1 <= hi && lo <= a2 <= hi && lo <= a3 <= hi
    ensures lo <= Cubic(a0, a1, a2, a3, t) <= hi
  {
    CubicShift(a0, a1, a2, a3, t, lo);
    CubicShift(a0, a1, a2, a3, t, hi);
    CubicNonneg(a0 - lo, a1 - lo, a2 - lo, a3 - lo, t);
    CubicNonneg(hi - a0, hi - a1, hi - a2, hi - a3, t);
  }

  /** The four weights of the cubic sum to one, so shifting every coefficient by c
      shifts the cubic by c, and reflecting them about c reflects it. */
  lemma CubicShift(a0: real, a1: real, a2: real, a3: real, t: real, c: real)
    ensures Cubic(a0, a1, a2, a3, t) - c == Cubic(a0 - c, a1 - c, a2 - c, a3 - c, t)
    ensures c - Cubic(a0, a1, a2, a3, t) == Cubic(c - a0, c - a1, c - a2, c - a3, t)
  {
    var mt := 1.0 - t;
    assert mt * mt * mt + 3.0 * (mt * mt) * t + 3.0 * mt * (t * t) + t * t * t == 1.0 by {
      assert (mt + t) * (mt + t) * (mt + t) == 1.0;
    }
  }

  /** For t in [0,1] a cubic with non-negative coefficients is non-negative. */
  lemma CubicNonneg(d0: real, d1: real, d2: real, d3: real, t: real)
    requires 0.0 <= t <= 1.0
    requires 0.0 <= d0 && 0.0 <= d1 && 0.0 <= d2 && 0.0 <= d3
    ensures 0.0 <= Cubic(d0, d1, d2, d3, t)
  {
    var mt := 1.0 - t;
    CubicTermsNonneg(t);
    NonnegCombination(mt * mt * mt, 3.0 * (mt * mt) * t, 3.0 * mt * (t * t), t * t * t, d0, d1, d2, d3);
  }

  /** For t in [0,1] the four weights of the cubic are non-negative. */
  lemma CubicTermsNonneg(t: real)
    requires 0.0 <= t <= 1.0
    ensures var mt := 1.0 - t;
      && 0.0 <= mt * mt * mt && 0.0 <= 3.0 * (mt * mt) * t
      && 0.0 <= 3.0 * mt * (t * t) && 0.0 <= t * t * t
  {
    var mt := 1.0 - t;
    MulNonneg(mt, mt);
    MulNonneg(mt * mt, mt);
    MulNonneg(t, t);
    MulNonneg(t * t, t);
    MulNonneg(mt * mt, t);
    MulNonneg(mt, t * t);
  }

  lemma NonnegCombination(w0: real, w1: real, w2: real, w3: real, d0: real, d1: real, d2: real, d3: real)
    requires 0.0 <= w0 && 0.0 <= w1 && 0.0 <= w2 && 0.0 <= w3
    requires 0.0 <= d0 && 0.0 <= d1 && 0.0 <= d2 && 0.0 <= d3
    ensures 0.0 <= w0 * d0 + w1 * d1 + w2 * d2 + w3 * d3
  {
    MulNonneg(w0, d0);
    MulNonneg(w1, d1);
    MulNonneg(w2, d2);
    MulNonneg(w3, d3);
  }

  lemma MulNonneg(a: real, b: real)
    requires 0.0 <= a && 0.0 <= b
    ensures 0.0 <= a * b
  {
  }

  /** The cubic is the Bernstein-weighted sum of its four coefficients, for every t. */
  lemma CubicWeights(a0: real, a1: real, a2: real, a3: real, t: real)
    ensures Cubic(a0, a1, a2, a3, t)
         == Bernstein(0, t) * a0 + Bernstein(1, t) * a1 + Bernstein(2, t) * a2 + Bernstein(3, t) * a3
  {
  }

  /** The cubic is linear in its control values: two cubics that differ only in
      the third value differ by the cubic of that difference alone. */
  lemma CubicThirdDifference(a0: real, a1: real, a2: real, b2: real, a3: real, t: real)
    ensures Cubic(a0, a1, a2, a3, t) - Cubic(a0, a1, b2, a3, t) == Cubic(0.0, 0.0, a2 - b2, 0.0, t)
  {
    CubicWeights(a0, a1, a2, a3, t);
    CubicWeights(a0, a1, b2, a3, t);
    CubicWeights(0.0, 0.0, a2 - b2, 0.0, t);
    var w := Bernstein(2, t);
    assert w * a2 - w * b2 == w * (a2 - b2);
  }

  /** A cubic whose only non-zero value is the third one is that value times its
      Bernstein weight. */
  lemma CubicThirdOnly(d: real, t: real)
    ensures Cubic(0.0, 0.0, d, 0.0, t) == d * Bernstein(2, t)
  {
  }

  /** Scaling a fraction in [0,1) by a positive n stays in [0,n). */
  lemma ScaledFraction(t: real, n: real)
    requires 0.0 <= t < 1.0 && 0.0 < n
    ensures 0.0 <= t * n < n
  {
    assert n - t * n == (1.0 - t) * n;
    MulNonneg(1.0 - t, n);
    MulNonneg(t, n);
    assert (1.0 - t) * n > 0.0;
  }

  function Min4(a: real, b: real, c: real, d: real): (m: real)
    ensures m <= a && m <= b && m <= c && m <= d
    ensures m == a || m == b || m == c || m == d
  {
    var ab := if a <= b then a else b;
    var cd := if c <= d then c else d;
    if ab <= cd then ab else cd
  }

  function Max4(a: real, b: real, c: real, d: real): (m: real)
    ensures m >= a && m >= b && m >= c && m >= d
    ensures m == a || m == b || m == c || m == d
  {
    var ab := if a >= b then a else b;
    var cd := if c >= d then c else d;
    if ab >= cd then ab else cd
  }

  /** GLSL `int(x)`: conversion truncates toward zero. */
  function Trunc(x: real): (n: int)
    ensures 0.0 <= x ==> 0 <= n && n as real <= x < n as real + 1.0
    ensures x < 0.0 ==> n <= 0 && n as real - 1.0 < x <= n as real
  {
    if x >= 0.0 then x.Floor else -((-x).Floor)
  }

  /** A coordinate scaled into [0, n) splits into a whole cell number in
      [0, n-1] and a fraction: `int(s) + fract(s) == s`. */
  lemma SplitScaled(s: real, n: int)
    requires 0.0 <= s < n as real
    ensures 0 <= Trunc(s) <= n - 1
    ensures Trunc(s) as real + Fract(s) == s
  {
  }

  /** GLSL `fract(x)`, defined as `x - floor(x)`. */
  function Fract(x: real): (f: real)
    ensures 0.0 <= f < 1.0
    ensures 0.0 <= x ==> f == x - Trunc(x) as real
  {
    x - x.Floor as real
  }

  /** Division and remainder are determined by a quotient-remainder decomposition. */
  lemma DivModOf(n: int, d: int, q: int, r: int)
    requires 0 < d && 0 <= r < d && n == q * d + r
    ensures n / d == q && n % d == r
  {
    var q', r' := n / d, n % d;
    assert (q' - q) * d == r - r';
    UnitMultiple(q' - q, d);
  }

  /** A multiple of d strictly between -d and d is zero. */
  lemma UnitMultiple(k: int, d: int)
    requires 0 < d && -d < k * d < d
    ensures k == 0
  {
  }
}
