/** GLSL `vec2` and `vec3` values over exact reals, with the componentwise
    operations the shaders use. */
module Vectors {
  import opened Numeric

  /** A 2-D point or offset (`vec2`, or a JavaScript `{x, y}` object). */
  datatype Vec2 = Vec2(x: real, y: real)

  /** An RGB colour (`vec3`), channels normally in [0,1]. */
  datatype Rgb = Rgb(r: real, g: real, b: real)

  /** Channel k of a colour: 0 is red, 1 green, 2 blue. */
  function Channel(c: Rgb, k: nat): real
    requires k < 3
  {
    match k
    case 0 => c.r
    case 1 => c.g
    case 2 => c.b
  }

  function Add(a: Vec2, b: Vec2): Vec2 {
    Vec2(a.x + b.x, a.y + b.y)
  }

  const ZERO2: Vec2 := Vec2(0.0, 0.0)

  function Sub(a: Vec2, b: Vec2): Vec2 {
    Vec2(a.x - b.x, a.y - b.y)
  }

  /** `v * k` for a `vec2` and a scalar. */
  function Scale(v: Vec2, k: real): Vec2 {
    Vec2(v.x * k, v.y * k)
  }

  /** A non-zero vector scaled by a positive factor is not zero. */
  lemma ScaleNonzero(v: Vec2, k: real)
    requires v != ZERO2 && 0.0 < k
    ensures Scale(v, k) != ZERO2
  {
    if v.x != 0.0 {
      assert v.x * k != 0.0;
    } else {
      assert v.y * k != 0.0;
    }
  }

  /** `mix` on `vec2`. */
  function Mix2(a: Vec2, b: Vec2, t: real): Vec2 {
    Vec2(Mix(a.x, b.x, t), Mix(a.y, b.y, t))
  }

  /** `mix` on `vec3`. */
  function Mix3(a: Rgb, b: Rgb, t: real): Rgb {
    Rgb(Mix(a.r, b.r, t), Mix(a.g, b.g, t), Mix(a.b, b.b, t))
  }

  /** For a parameter in [0,1], `mix` on colours keeps channel k inside any
      interval that holds channel k of both ends. */
  lemma Mix3Within(a: Rgb, b: Rgb, t: real, k: nat, lo: real, hi: real)
    requires k < 3 && 0.0 <= t <= 1.0
    requires ChannelWithin(a, k, lo, hi) && ChannelWithin(b, k, lo, hi)
    ensures ChannelWithin(Mix3(a, b, t), k, lo, hi)
  {
    MixWithin(Channel(a, k), Channel(b, k), t, lo, hi);
  }

  /** `a + b` on `vec3`. */
  function AddRgb(a: Rgb, b: Rgb): (c: Rgb)
    ensures forall k: nat | k < 3 :: Channel(c, k) == Channel(a, k) + Channel(b, k)
  {
    Rgb(a.r + b.r, a.g + b.g, a.b + b.b)
  }

  /** `w * c` for a scalar and a `vec3`. */
  function ScaleRgb(c: Rgb, w: real): (s: Rgb)
    ensures forall k: nat | k < 3 :: Channel(s, k) == w * Channel(c, k)
  {
    Rgb(w * c.r, w * c.g, w * c.b)
  }

  /** `c / w` for a `vec3` and a non-zero scalar. */
  function DivRgb(c: Rgb, w: real): (q: Rgb)
    requires w != 0.0
    ensures forall k: nat | k < 3 :: Channel(q, k) == Channel(c, k) / w
  {
    Rgb(c.r / w, c.g / w, c.b / w)
  }

  /** Every channel k of c lies in [lo, hi]. */
  predicate ChannelWithin(c: Rgb, k: nat, lo: real, hi: real)
    requires k < 3
  {
    lo <= Channel(c, k) <= hi
  }

  /** Both coordinates of v lie in [lo, hi]. */
  predicate InSquare(v: Vec2, lo: real, hi: real) {
    lo <= v.x <= hi && lo <= v.y <= hi
  }
}
