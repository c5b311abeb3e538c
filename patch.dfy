/** The uniforms and the Bezier helpers both patch shaders declare with the same
    text: `cubicBezier` and `bicubicBezier` on positions, and the colour versions
    `cubicColorInterpolation` and `bicubicColorInterpolation`. */
module Patch {
  import opened Numeric
  import opened Vectors

  /** The uniforms of a patch fragment shader: `u_points[9]`, `u_colors[9]`,
      `u_controlPoints[36]` (four handle offsets per anchor), `u_width` and
      `u_height`. */
  datatype Uniforms = Uniforms(
    points: seq<Vec2>,
    colors: seq<Rgb>,
    controlPoints: seq<Vec2>,
    width: int,
    height: int)

  /** The array sizes the shaders declare. */
  predicate Declared(u: Uniforms) {
    |u.points| == 9 && |u.colors| == 9 && |u.controlPoints| == 36
  }

  /** Offsets of the four handles of an anchor inside its block of four
      `u_controlPoints` entries. */
  const TOP: int := 0
  const RIGHT: int := 1
  const BOTTOM: int := 2
  const LEFT: int := 3

  /** `u_controlPoints[anchor * 4 + offset]`. */
  function HandleOf(u: Uniforms, anchor: int, offset: int): Vec2
    requires Declared(u) && 0 <= anchor < 9 && 0 <= offset < 4
  {
    u.controlPoints[anchor * 4 + offset]
  }

  /** `cubicBezier(p0, p1, p2, p3, t)`; it passes through p0 at t = 0 and p3 at t = 1. */
  function CubicBezier(p0: Vec2, p1: Vec2, p2: Vec2, p3: Vec2, t: real): (r: Vec2)
    ensures t == 0.0 ==> r == p0
    ensures t == 1.0 ==> r == p3
  {
    Vec2(Cubic(p0.x, p1.x, p2.x, p3.x, t), Cubic(p0.y, p1.y, p2.y, p3.y, t))
  }

  /** `cubicColorInterpolation(c0, c1, c2, c3, t)`, the same polynomial on colours. */
  function CubicColor(c0: Rgb, c1: Rgb, c2: Rgb, c3: Rgb, t: real): (c: Rgb)
    ensures t == 0.0 ==> c == c0
    ensures t == 1.0 ==> c == c3
  {
    Rgb(Cubic(c0.r, c1.r, c2.r, c3.r, t), Cubic(c0.g, c1.g, c2.g, c3.g, t),
        Cubic(c0.b, c1.b, c2.b, c3.b, t))
  }

  /** For t in [0,1] each channel of the cubic colour stays within any interval
      that holds that channel of the four inputs. */
  lemma CubicColorWithin(c0: Rgb, c1: Rgb, c2: Rgb, c3: Rgb, t: real, k: nat, lo: real, hi: real)
    requires k < 3 && 0.0 <= t <= 1.0
    requires ChannelWithin(c0, k, lo, hi) && ChannelWithin(c1, k, lo, hi)
    requires ChannelWithin(c2, k, lo, hi) && ChannelWithin(c3, k, lo, hi)
    ensures ChannelWithin(CubicColor(c0, c1, c2, c3, t), k, lo, hi)
  {
    CubicWithin(Channel(c0, k), Channel(c1, k), Channel(c2, k), Channel(c3, k), t, lo, hi);
  }

  /** Row i of the lattice evaluated at s: `cubicBezier(p[i*4], ..., p[i*4+3], s)`. */
  function RowCurve(p: seq<Vec2>, i: int, s: real): Vec2
    requires |p| == 16 && 0 <= i < 4
  {
    CubicBezier(p[i * 4], p[i * 4 + 1], p[i * 4 + 2], p[i * 4 + 3], s)
  }

  /** The surface `bicubicBezier(p, t)` computes: the four rows at t.x, then a cubic
      through those at t.y. It interpolates the four corner control points. */
  function BicubicSurface(p: seq<Vec2>, t: Vec2): (r: Vec2)
    requires |p| == 16
    ensures t == Vec2(0.0, 0.0) ==> r == p[0]
    ensures t == Vec2(1.0, 0.0) ==> r == p[3]
    ensures t == Vec2(0.0, 1.0) ==> r == p[12]
    ensures t == Vec2(1.0, 1.0) ==> r == p[15]
  {
    CubicBezier(RowCurve(p, 0, t.x), RowCurve(p, 1, t.x), RowCurve(p, 2, t.x), RowCurve(p, 3, t.x), t.y)
  }

  /** Along the four borders of the parameter square the surface reduces to one
      cubic: the left and right columns of the lattice, the top and bottom rows. */
  lemma SurfaceBorders(p: seq<Vec2>, s: real)
    requires |p| == 16
    ensures BicubicSurface(p, Vec2(0.0, s)) == CubicBezier(p[0], p[4], p[8], p[12], s)
    ensures BicubicSurface(p, Vec2(1.0, s)) == CubicBezier(p[3], p[7], p[11], p[15], s)
    ensures BicubicSurface(p, Vec2(s, 0.0)) == RowCurve(p, 0, s)
    ensures BicubicSurface(p, Vec2(s, 1.0)) == RowCurve(p, 3, s)
  {
  }

  /** Two cubic curves that differ only in their third control point differ by
      the curve whose only non-zero control point is the difference of those two. */
  lemma CubicBezierThirdDifference(p0: Vec2, p1: Vec2, a: Vec2, b: Vec2, p3: Vec2, s: real)
    ensures Sub(CubicBezier(p0, p1, a, p3, s), CubicBezier(p0, p1, b, p3, s))
         == CubicBezier(ZERO2, ZERO2, Sub(a, b), ZERO2, s)
  {
    CubicThirdDifference(p0.x, p1.x, a.x, b.x, p3.x, s);
    CubicThirdDifference(p0.y, p1.y, a.y, b.y, p3.y, s);
  }

  /** That curve is its control point scaled by the third Bernstein weight. */
  lemma CubicBezierThirdOnly(d: Vec2, s: real)
    ensures CubicBezier(ZERO2, ZERO2, d, ZERO2, s) == Scale(d, Bernstein(2, s))
  {
    CubicThirdOnly(d.x, s);
    CubicThirdOnly(d.y, s);
  }

  /** `bicubicBezier(p, t)`, filling `temp[4]` row by row. */
  method BicubicBezier(p: seq<Vec2>, t: Vec2) returns (r: Vec2)
    requires |p| == 16
    ensures r == BicubicSurface(p, t)
  {
    var temp := new Vec2[4];
    for i := 0 to 4
      invariant forall k | 0 <= k < i :: temp[k] == RowCurve(p, k, t.x)
    {
      temp[i] := CubicBezier(p[i * 4], p[i * 4 + 1], p[i * 4 + 2], p[i * 4 + 3], t.x);
    }
    r := CubicBezier(temp[0], temp[1], temp[2], temp[3], t.y);
  }

  /** Row i of a colour lattice evaluated at s. */
  function RowColor(c: seq<Rgb>, i: int, s: real): Rgb
    requires |c| == 16 && 0 <= i < 4
  {
    CubicColor(c[i * 4], c[i * 4 + 1], c[i * 4 + 2], c[i * 4 + 3], s)
  }

  /** The colour `bicubicColorInterpolation(c, t)` computes; it takes the corner
      colours at the four corners of the parameter square. */
  function BicubicColorSurface(c: seq<Rgb>, t: Vec2): (r: Rgb)
    requires |c| == 16
    ensures t == Vec2(0.0, 0.0) ==> r == c[0]
    ensures t == Vec2(1.0, 0.0) ==> r == c[3]
    ensures t == Vec2(0.0, 1.0) ==> r == c[12]
    ensures t == Vec2(1.0, 1.0) ==> r == c[15]
  {
    CubicColor(RowColor(c, 0, t.x), RowColor(c, 1, t.x), RowColor(c, 2, t.x), RowColor(c, 3, t.x), t.y)
  }

  /** For t in [0,1]^2 a bicubic colour stays, channel by channel, within any
      interval that holds that channel of all sixteen lattice colours. */
  lemma BicubicColorWithin(c: seq<Rgb>, t: Vec2, k: nat, lo: real, hi: real)
    requires |c| == 16 && k < 3
    requires 0.0 <= t.x <= 1.0 && 0.0 <= t.y <= 1.0
    requires forall i | 0 <= i < 16 :: ChannelWithin(c[i], k, lo, hi)
    ensures ChannelWithin(BicubicColorSurface(c, t), k, lo, hi)
  {
    forall i | 0 <= i < 4 ensures ChannelWithin(RowColor(c, i, t.x), k, lo, hi) {
      CubicColorWithin(c[i * 4], c[i * 4 + 1], c[i * 4 + 2], c[i * 4 + 3], t.x, k, lo, hi);
    }
    CubicColorWithin(RowColor(c, 0, t.x), RowColor(c, 1, t.x), RowColor(c, 2, t.x), RowColor(c, 3, t.x),
                     t.y, k, lo, hi);
  }

  /** `bicubicColorInterpolation(c, t)`, filling `temp[4]` row by row. */
  method BicubicColorInterpolation(c: seq<Rgb>, t: Vec2) returns (r: Rgb)
    requires |c| == 16
    ensures r == BicubicColorSurface(c, t)
  {
    var temp := new Rgb[4];
    for i := 0 to 4
      invariant forall k | 0 <= k < i :: temp[k] == RowColor(c, k, t.x)
    {
      temp[i] := CubicColor(c[i * 4], c[i * 4 + 1], c[i * 4 + 2], c[i * 4 + 3], t.x);
    }
    r := CubicColor(temp[0], temp[1], temp[2], temp[3], t.y);
  }
}
