/** The single-patch shader: one bicubic Bezier patch spans the whole canvas.
    Its 4x4 lattice is filled in a nested loop from the anchors 0, 1, `u_width`
    and `u_width + 1` (the top-left cell of the mesh) and their handles, and a
    16-entry colour lattice is filled beside it; the fragment colour is the
    bicubic interpolation of that colour lattice at `v_texCoord`. */
module ImprovedShader {
  import opened Numeric
  import opened Vectors
  import opened Patch

  /** The uniforms the patch loop reads: the declared arrays, and a width with
      every read index inside them (the largest read is colour `2 * u_width + 1`). */
  predicate Readable(u: Uniforms) {
    Declared(u) && 0 <= u.width <= 3
  }

  /** `(i / 3) * u_width + (j / 3)`: the anchor lattice entry (i, j) is built
      from. Rows 0-2 use anchor row 0 and row 3 uses anchor row 1; likewise for
      columns. */
  function CornerIndex(u: Uniforms, i: int, j: int): (ci: int)
    requires Readable(u) && 0 <= i < 4 && 0 <= j < 4
    ensures ci == (if i == 3 then u.width else 0) + (if j == 3 then 1 else 0)
  {
    (i / 3) * u.width + j / 3
  }

  /** Lattice position (i, j) as the loop body computes it: a corner is an
      anchor; an edge point on row 0 or 3 is an anchor plus its right (j = 1) or
      left (j = 2) handle; on column 0 or 3 an anchor plus its top (i = 1) or
      bottom (i = 2) handle; an interior point mixes two handle tips along the
      top row with two along the left column. */
  function LatticePoint(u: Uniforms, i: int, j: int): (pt: Vec2)
    requires Readable(u) && 0 <= i < 4 && 0 <= j < 4
    ensures i == 0 && j == 0 ==> pt == u.points[0]
    ensures i == 0 && j == 3 ==> pt == u.points[1]
    ensures i == 3 && j == 0 ==> pt == u.points[u.width]
    ensures i == 3 && j == 3 ==> pt == u.points[u.width + 1]
  {
    var ci := CornerIndex(u, i, j);
    if i % 3 == 0 && j % 3 == 0 then
      u.points[ci]
    else if i % 3 == 0 then
      Add(u.points[ci], u.controlPoints[ci * 4 + (if j % 3 == 1 then 1 else 3)])
    else if j % 3 == 0 then
      Add(u.points[ci], u.controlPoints[ci * 4 + (if i % 3 == 1 then 0 else 2)])
    else
      var h1 := Add(u.points[ci], u.controlPoints[ci * 4 + 1]);
      var h2 := Add(u.points[ci + 1], u.controlPoints[(ci + 1) * 4 + 3]);
      var v1 := Add(u.points[ci], u.controlPoints[ci * 4 + 2]);
      var v2 := Add(u.points[ci + u.width], u.controlPoints[(ci + u.width) * 4]);
      Mix2(Mix2(h1, h2, 0.5), Mix2(v1, v2, 0.5), 0.5)
  }

  /** Lattice colour (i, j) as the loop body computes it: a corner takes its
      anchor's colour; every other entry blends the four colours from its corner
      index `ci` on: `mix(mix(C[ci], C[ci+1], j/3), mix(C[ci+w], C[ci+w+1], j/3), i/3)`. */
  function LatticeColor(u: Uniforms, i: int, j: int): (c: Rgb)
    requires Readable(u) && 0 <= i < 4 && 0 <= j < 4
    ensures i == 0 && j == 0 ==> c == u.colors[0]
    ensures i == 0 && j == 3 ==> c == u.colors[1]
    ensures i == 3 && j == 0 ==> c == u.colors[u.width]
    ensures i == 3 && j == 3 ==> c == u.colors[u.width + 1]
  {
    var ci := CornerIndex(u, i, j);
    if i % 3 == 0 && j % 3 == 0 then
      u.colors[ci]
    else
      Mix3(Mix3(u.colors[ci], u.colors[ci + 1], j as real / 3.0),
           Mix3(u.colors[ci + u.width], u.colors[ci + u.width + 1], j as real / 3.0),
           i as real / 3.0)
  }

  /** The position lattice `p[16]`, entry `i * 4 + j` at row i, column j. */
  function ImprovedLattice(u: Uniforms): (p: seq<Vec2>)
    requires Readable(u)
    ensures |p| == 16
    ensures p[0] == u.points[0] && p[3] == u.points[1]
    ensures p[12] == u.points[u.width] && p[15] == u.points[u.width + 1]
  {
    seq(16, k requires 0 <= k < 16 => LatticePoint(u, k / 4, k % 4))
  }

  /** The colour lattice `c[16]`, entry `i * 4 + j` at row i, column j. */
  function ImprovedColors(u: Uniforms): (c: seq<Rgb>)
    requires Readable(u)
    ensures |c| == 16
    ensures c[0] == u.colors[0] && c[3] == u.colors[1]
    ensures c[12] == u.colors[u.width] && c[15] == u.colors[u.width + 1]
  {
    seq(16, k requires 0 <= k < 16 => LatticeColor(u, k / 4, k % 4))
  }

  /** Entry `i * 4 + j` of the position lattice is the point of row i, column j. */
  lemma LatticePointAt(u: Uniforms, i: int, j: int)
    requires Readable(u) && 0 <= i < 4 && 0 <= j < 4
    ensures ImprovedLattice(u)[i * 4 + j] == LatticePoint(u, i, j)
  {
    assert (i * 4 + j) / 4 == i && (i * 4 + j) % 4 == j;
  }

  /** Entry `i * 4 + j` of the colour lattice is the colour of row i, column j. */
  lemma LatticeColorAt(u: Uniforms, i: int, j: int)
    requires Readable(u) && 0 <= i < 4 && 0 <= j < 4
    ensures ImprovedColors(u)[i * 4 + j] == LatticeColor(u, i, j)
  {
    assert (i * 4 + j) / 4 == i && (i * 4 + j) % 4 == j;
  }

  /** The body of the shader's nested loop for lattice entry (i, j): the position
      and the colour it stores at `p[i * 4 + j]` and `c[i * 4 + j]`. */
  method FillEntry(u: Uniforms, i: int, j: int) returns (point: Vec2, color: Rgb)
    requires Readable(u) && 0 <= i < 4 && 0 <= j < 4
    ensures point == LatticePoint(u, i, j) && color == LatticeColor(u, i, j)
  {
    var pointIdx := CornerIndex(u, i, j);
    if i % 3 == 0 && j % 3 == 0 {
      point := u.points[pointIdx];
      color := u.colors[pointIdx];
    } else {
      var cornerPoint := u.points[pointIdx];
      var cpIdx := pointIdx * 4;
      if i % 3 == 0 {
        point := Add(cornerPoint, u.controlPoints[cpIdx + (if j % 3 == 1 then 1 else 3)]);
      } else if j % 3 == 0 {
        point := Add(cornerPoint, u.controlPoints[cpIdx + (if i % 3 == 1 then 0 else 2)]);
      } else {
        var h1 := Add(cornerPoint, u.controlPoints[cpIdx + 1]);
        var h2 := Add(u.points[pointIdx + 1], u.controlPoints[(pointIdx + 1) * 4 + 3]);
        var v1 := Add(cornerPoint, u.controlPoints[cpIdx + 2]);
        var v2 := Add(u.points[pointIdx + u.width], u.controlPoints[(pointIdx + u.width) * 4]);
        point := Mix2(Mix2(h1, h2, 0.5), Mix2(v1, v2, 0.5), 0.5);
      }
      color := Mix3(Mix3(u.colors[pointIdx], u.colors[pointIdx + 1], j as real / 3.0),
                    Mix3(u.colors[pointIdx + u.width], u.colors[pointIdx + u.width + 1], j as real / 3.0),
                    i as real / 3.0);
    }
  }

  /** The fragment shader's `main`: `pos = v_texCoord` (no flip), the nested
      loop that fills `p[16]` and `c[16]`, then `bicubicBezier(p, pos)` and
      `bicubicColorInterpolation(c, pos)`; only the colour reaches `fragColor`. */
  method ShadeImproved(vTex: Vec2, u: Uniforms) returns (finalPos: Vec2, finalColor: Rgb)
    requires Readable(u)
    ensures finalPos == BicubicSurface(ImprovedLattice(u), vTex)
    ensures finalColor == BicubicColorSurface(ImprovedColors(u), vTex)
  {
    ghost var lattice, colors := ImprovedLattice(u), ImprovedColors(u);
    var pos := vTex;
    // GLSL arrays are values: `p` and `c` are sequences updated slot by slot.
    var p: seq<Vec2> := seq(16, _ => Vec2(0.0, 0.0));
    var c: seq<Rgb> := seq(16, _ => Rgb(0.0, 0.0, 0.0));
    for i := 0 to 4
      invariant |p| == 16 && |c| == 16
      invariant forall k | 0 <= k < i * 4 :: p[k] == lattice[k] && c[k] == colors[k]
    {
      for j := 0 to 4
        invariant |p| == 16 && |c| == 16
        invariant forall k | 0 <= k < i * 4 + j :: p[k] == lattice[k] && c[k] == colors[k]
      {
        var point, color := FillEntry(u, i, j);
        LatticePointAt(u, i, j);
        LatticeColorAt(u, i, j);
        p := p[i * 4 + j := point];
        c := c[i * 4 + j := color];
      }
    }
    assert p == lattice && c == colors;
    finalPos := BicubicBezier(p, pos);
    finalColor := BicubicColorInterpolation(c, pos);
  }

  /** Where each edge point of the lattice comes from. Every entry is built from
      the anchors 0, 1, `u_width` and `u_width + 1` alone, so the patch only ever
      shows the top-left cell of the mesh; and because the corner index of
      columns 1-2 and rows 1-2 is anchor 0, p[2] is anchor 0 plus its left handle
      and p[8] anchor 0 plus its bottom handle, while p[7], p[11] use anchor 1 and
      p[13], p[14] use anchor `u_width`. */
  lemma ImprovedLatticeEntries(u: Uniforms)
    requires Readable(u)
    ensures var p := ImprovedLattice(u); var w := u.width; var P := u.points;
      && p[0] == P[0] && p[3] == P[1] && p[12] == P[w] && p[15] == P[w + 1]
      && p[1] == Add(P[0], HandleOf(u, 0, RIGHT)) && p[2] == Add(P[0], HandleOf(u, 0, LEFT))
      && p[4] == Add(P[0], HandleOf(u, 0, TOP)) && p[8] == Add(P[0], HandleOf(u, 0, BOTTOM))
      && p[7] == Add(P[1], HandleOf(u, 1, TOP)) && p[11] == Add(P[1], HandleOf(u, 1, BOTTOM))
      && p[13] == Add(P[w], HandleOf(u, w, RIGHT)) && p[14] == Add(P[w], HandleOf(u, w, LEFT))
  {
    var p := ImprovedLattice(u);
    LatticePointAt(u, 0, 1); LatticePointAt(u, 0, 2);
    LatticePointAt(u, 1, 0); LatticePointAt(u, 2, 0);
    LatticePointAt(u, 1, 3); LatticePointAt(u, 2, 3);
    LatticePointAt(u, 3, 1); LatticePointAt(u, 3, 2);
  }

  /** The four interior points coincide: each is the mean of the same four
      handle tips (anchor 0's right and bottom handles, anchor 1's left handle,
      anchor `u_width`'s top handle). */
  lemma ImprovedInteriorPoints(u: Uniforms)
    requires Readable(u)
    ensures var p := ImprovedLattice(u); var w := u.width; var P := u.points;
      var h1 := Add(P[0], HandleOf(u, 0, RIGHT));
      var h2 := Add(P[1], HandleOf(u, 1, LEFT));
      var v1 := Add(P[0], HandleOf(u, 0, BOTTOM));
      var v2 := Add(P[w], HandleOf(u, w, TOP));
      && p[5] == p[6] == p[9] == p[10]
      && p[5] == Vec2((h1.x + h2.x + v1.x + v2.x) / 4.0, (h1.y + h2.y + v1.y + v2.y) / 4.0)
  {
    LatticePointAt(u, 1, 1); LatticePointAt(u, 1, 2);
    LatticePointAt(u, 2, 1); LatticePointAt(u, 2, 2);
    InteriorPointsAgree(u);
  }

  lemma InteriorPointsAgree(u: Uniforms)
    requires Readable(u)
    ensures var w := u.width; var P := u.points;
      var h1 := Add(P[0], HandleOf(u, 0, RIGHT));
      var h2 := Add(P[1], HandleOf(u, 1, LEFT));
      var v1 := Add(P[0], HandleOf(u, 0, BOTTOM));
      var v2 := Add(P[w], HandleOf(u, w, TOP));
      && LatticePoint(u, 1, 1) == LatticePoint(u, 1, 2) == LatticePoint(u, 2, 1) == LatticePoint(u, 2, 2)
      && LatticePoint(u, 1, 1) == Vec2((h1.x + h2.x + v1.x + v2.x) / 4.0, (h1.y + h2.y + v1.y + v2.y) / 4.0)
  {
    var w := u.width;
    InteriorPoint(u, 1, 1); InteriorPoint(u, 1, 2);
    InteriorPoint(u, 2, 1); InteriorPoint(u, 2, 2);
    MeanOfMixes(Add(u.points[0], HandleOf(u, 0, RIGHT)), Add(u.points[1], HandleOf(u, 1, LEFT)),
                Add(u.points[0], HandleOf(u, 0, BOTTOM)), Add(u.points[w], HandleOf(u, w, TOP)));
  }

  /** An interior lattice point mixes the same four handle tips, whichever of
      the four it is. */
  lemma InteriorPoint(u: Uniforms, i: int, j: int)
    requires Readable(u) && 1 <= i <= 2 && 1 <= j <= 2
    ensures var w := u.width; var P := u.points;
      LatticePoint(u, i, j)
        == Mix2(Mix2(Add(P[0], HandleOf(u, 0, RIGHT)), Add(P[1], HandleOf(u, 1, LEFT)), 0.5),
                Mix2(Add(P[0], HandleOf(u, 0, BOTTOM)), Add(P[w], HandleOf(u, w, TOP)), 0.5), 0.5)
  {
    assert CornerIndex(u, i, j) == 0;
  }

  /** Mixing two midpoints half and half gives the mean of the four points. */
  lemma MeanOfMixes(h1: Vec2, h2: Vec2, v1: Vec2, v2: Vec2)
    ensures Mix2(Mix2(h1, h2, 0.5), Mix2(v1, v2, 0.5), 0.5)
         == Vec2((h1.x + h2.x + v1.x + v2.x) / 4.0, (h1.y + h2.y + v1.y + v2.y) / 4.0)
  {
  }

  /** The patch passes through the four anchors at the corners of `v_texCoord`,
      and takes their colours there. */
  lemma ImprovedThroughAnchors(u: Uniforms)
    requires Readable(u)
    ensures var p := ImprovedLattice(u); var w := u.width;
      && BicubicSurface(p, Vec2(0.0, 0.0)) == u.points[0]
      && BicubicSurface(p, Vec2(1.0, 0.0)) == u.points[1]
      && BicubicSurface(p, Vec2(0.0, 1.0)) == u.points[w]
      && BicubicSurface(p, Vec2(1.0, 1.0)) == u.points[w + 1]
    ensures var c := ImprovedColors(u); var w := u.width;
      && BicubicColorSurface(c, Vec2(0.0, 0.0)) == u.colors[0]
      && BicubicColorSurface(c, Vec2(1.0, 0.0)) == u.colors[1]
      && BicubicColorSurface(c, Vec2(0.0, 1.0)) == u.colors[w]
      && BicubicColorSurface(c, Vec2(1.0, 1.0)) == u.colors[w + 1]
  {
    PointsThroughAnchors(u);
    ColorsThroughAnchors(u);
  }

  lemma PointsThroughAnchors(u: Uniforms)
    requires Readable(u)
    ensures var p := ImprovedLattice(u); var w := u.width;
      && BicubicSurface(p, Vec2(0.0, 0.0)) == u.points[0]
      && BicubicSurface(p, Vec2(1.0, 0.0)) == u.points[1]
      && BicubicSurface(p, Vec2(0.0, 1.0)) == u.points[w]
      && BicubicSurface(p, Vec2(1.0, 1.0)) == u.points[w + 1]
  {
    var p := ImprovedLattice(u);
    assert BicubicSurface(p, Vec2(0.0, 0.0)) == p[0];
    assert BicubicSurface(p, Vec2(1.0, 0.0)) == p[3];
    assert BicubicSurface(p, Vec2(0.0, 1.0)) == p[12];
    assert BicubicSurface(p, Vec2(1.0, 1.0)) == p[15];
  }

  lemma ColorsThroughAnchors(u: Uniforms)
    requires Readable(u)
    ensures var c := ImprovedColors(u); var w := u.width;
      && BicubicColorSurface(c, Vec2(0.0, 0.0)) == u.colors[0]
      && BicubicColorSurface(c, Vec2(1.0, 0.0)) == u.colors[1]
      && BicubicColorSurface(c, Vec2(0.0, 1.0)) == u.colors[w]
      && BicubicColorSurface(c, Vec2(1.0, 1.0)) == u.colors[w + 1]
  {
    var c := ImprovedColors(u);
    assert BicubicColorSurface(c, Vec2(0.0, 0.0)) == c[0];
    assert BicubicColorSurface(c, Vec2(1.0, 0.0)) == c[3];
    assert BicubicColorSurface(c, Vec2(0.0, 1.0)) == c[12];
    assert BicubicColorSurface(c, Vec2(1.0, 1.0)) == c[15];
  }

  /** As written, the edge colours of row 3 and column 3 blend the colours of
      the next anchor row and column: with corner index `u_width` (row 3) the
      outer `mix` has weight 1 and leaves `mix(C[2w], C[2w+1], j/3)`, and with
      corner index 1 (column 3) the inner ones have weight 1 and leave
      `mix(C[2], C[w+2], i/3)`. None of C[2], C[w+2], C[2w], C[2w+1] is a corner
      of the patch. */
  lemma EdgeColorsReadNextAnchors(u: Uniforms)
    requires Readable(u)
    ensures var c := ImprovedColors(u); var w := u.width; var C := u.colors;
      && c[13] == Mix3(C[2 * w], C[2 * w + 1], 1.0 / 3.0)
      && c[14] == Mix3(C[2 * w], C[2 * w + 1], 2.0 / 3.0)
      && c[7] == Mix3(C[2], C[w + 2], 1.0 / 3.0)
      && c[11] == Mix3(C[2], C[w + 2], 2.0 / 3.0)
  {
    var c := ImprovedColors(u);
    var w := u.width;
    var C := u.colors;
    LatticeColorAt(u, 3, 1); LatticeColorAt(u, 3, 2);
    LatticeColorAt(u, 1, 3); LatticeColorAt(u, 2, 3);
    MixOneIsEnd(Mix3(C[w], C[w + 1], 1.0 / 3.0), Mix3(C[2 * w], C[2 * w + 1], 1.0 / 3.0));
    MixOneIsEnd(Mix3(C[w], C[w + 1], 2.0 / 3.0), Mix3(C[2 * w], C[2 * w + 1], 2.0 / 3.0));
    MixOneIsEnd(C[1], C[2]);
    MixOneIsEnd(C[w + 1], C[w + 2]);
  }

  lemma MixOneIsEnd(a: Rgb, b: Rgb)
    ensures Mix3(a, b, 1.0) == b
  {
  }

  /** The colour indices the loop reads: 0 to `2 * u_width + 1`, and 2 (read
      through column 3 even when `u_width` is 0). */
  predicate ReadsColor(u: Uniforms, n: int) {
    0 <= n < 9 && (n <= 2 * u.width + 1 || n == 2)
  }

  /** What the shader does guarantee: every lattice colour, and so for
      `v_texCoord` in [0,1]^2 the fragment colour, stays channel by channel
      within any interval that holds that channel of every colour the loop reads. */
  lemma ImprovedColorWithinPalette(u: Uniforms, t: Vec2, k: nat, lo: real, hi: real)
    requires Readable(u) && k < 3 && InSquare(t, 0.0, 1.0)
    requires forall n | ReadsColor(u, n) :: ChannelWithin(u.colors[n], k, lo, hi)
    ensures ChannelWithin(BicubicColorSurface(ImprovedColors(u), t), k, lo, hi)
  {
    var c := ImprovedColors(u);
    forall n | 0 <= n < 16 ensures ChannelWithin(c[n], k, lo, hi) {
      var i, j := n / 4, n % 4;
      assert n == i * 4 + j;
      LatticeColorWithin(u, i, j, k, lo, hi);
    }
    BicubicColorWithin(c, t, k, lo, hi);
  }

  lemma LatticeColorWithin(u: Uniforms, i: int, j: int, k: nat, lo: real, hi: real)
    requires Readable(u) && 0 <= i < 4 && 0 <= j < 4 && k < 3
    requires forall n | ReadsColor(u, n) :: ChannelWithin(u.colors[n], k, lo, hi)
    ensures ChannelWithin(LatticeColor(u, i, j), k, lo, hi)
  {
    var ci := CornerIndex(u, i, j);
    var C := u.colors;
    if i % 3 == 0 && j % 3 == 0 {
      assert ReadsColor(u, ci);
    } else {
      var w := u.width;
      assert ReadsColor(u, ci) && ReadsColor(u, ci + 1);
      assert ReadsColor(u, ci + w) && ReadsColor(u, ci + w + 1);
      MixOfMixesWithin(C[ci], C[ci + 1], C[ci + w], C[ci + w + 1], j as real / 3.0, i as real / 3.0, k, lo, hi);
    }
  }

  /** Uniforms of a 3x3 mesh whose four patch corners (anchors 0, 1, 3, 4) are
      black and whose anchors 6 and 7 are white. */
  function BlackCornersWhiteRowBelow(): (u: Uniforms)
    ensures Readable(u) && u.width == 3
  {
    var black := Rgb(0.0, 0.0, 0.0);
    var white := Rgb(1.0, 1.0, 1.0);
    Uniforms(seq(9, _ => ZERO2), [black, black, black, black, black, black, white, white, black],
             seq(36, _ => ZERO2), 3, 3)
  }

  /** With all four patch corners black, the middle of the patch's bottom edge
      (`v_texCoord` = (0.5, 1)) is nevertheless grey (0.75, 0.75, 0.75), because
      c[13] and c[14] came from the white anchors of the row below. */
  lemma BlackCornersGiveGrey()
    ensures var u := BlackCornersWhiteRowBelow();
      && u.colors[0] == u.colors[1] == u.colors[3] == u.colors[4] == Rgb(0.0, 0.0, 0.0)
      && BicubicColorSurface(ImprovedColors(u), Vec2(0.5, 1.0)) == Rgb(0.75, 0.75, 0.75)
  {
    var u := BlackCornersWhiteRowBelow();
    var c := ImprovedColors(u);
    var black := Rgb(0.0, 0.0, 0.0);
    var white := Rgb(1.0, 1.0, 1.0);
    EdgeColorsReadNextAnchors(u);
    LatticeColorAt(u, 3, 0); LatticeColorAt(u, 3, 3);
    assert c[12] == black && c[15] == black;
    assert c[13] == white && c[14] == white;
    assert BicubicColorSurface(c, Vec2(0.5, 1.0)) == RowColor(c, 3, 0.5);
    assert RowColor(c, 3, 0.5) == CubicColor(black, white, white, black, 0.5);
  }

  /** The evidently intended colour lattice: every entry blends the patch's own
      four corner colours, `mix(mix(C[0], C[1], j/3), mix(C[w], C[w+1], j/3), i/3)`.
      It agrees with the shader at the four corners and on rows 0-2 x columns 0-2. */
  function CorrectedColor(u: Uniforms, i: int, j: int): Rgb
    requires Readable(u) && 0 <= i < 4 && 0 <= j < 4
  {
    var C := u.colors;
    var w := u.width;
    Mix3(Mix3(C[0], C[1], j as real / 3.0), Mix3(C[w], C[w + 1], j as real / 3.0), i as real / 3.0)
  }

  /** The corrected colour agrees with the shader's at the four corners and on
      rows 0-2 x columns 0-2, where the corner index is anchor 0. */
  lemma CorrectedColorAgrees(u: Uniforms, i: int, j: int)
    requires Readable(u) && 0 <= i < 4 && 0 <= j < 4
    requires (i % 3 == 0 && j % 3 == 0) || (i < 3 && j < 3)
    ensures CorrectedColor(u, i, j) == LatticeColor(u, i, j)
  {
    var C := u.colors;
    var w := u.width;
    if i % 3 == 0 && j % 3 == 0 {
      var top, bottom := Mix3(C[0], C[1], j as real / 3.0), Mix3(C[w], C[w + 1], j as real / 3.0);
      if i == 0 {
        assert CorrectedColor(u, i, j) == top;
      } else {
        assert CorrectedColor(u, i, j) == bottom;
      }
    }
  }

  function CorrectedColors(u: Uniforms): (c: seq<Rgb>)
    requires Readable(u)
    ensures |c| == 16
    ensures forall i, j | 0 <= i < 4 && 0 <= j < 4 :: c[i * 4 + j] == CorrectedColor(u, i, j)
  {
    var c := seq(16, k requires 0 <= k < 16 => CorrectedColor(u, k / 4, k % 4));
    forall i, j | 0 <= i < 4 && 0 <= j < 4 ensures c[i * 4 + j] == CorrectedColor(u, i, j) {
      assert (i * 4 + j) / 4 == i && (i * 4 + j) % 4 == j;
    }
    c
  }

  /** With the corrected lattice the fragment colour, for `v_texCoord` in
      [0,1]^2, stays channel by channel within any interval that holds that
      channel of the patch's four corner colours. */
  lemma CorrectedColorWithinCorners(u: Uniforms, t: Vec2, k: nat, lo: real, hi: real)
    requires Readable(u) && k < 3 && InSquare(t, 0.0, 1.0)
    requires ChannelWithin(u.colors[0], k, lo, hi) && ChannelWithin(u.colors[1], k, lo, hi)
    requires ChannelWithin(u.colors[u.width], k, lo, hi) && ChannelWithin(u.colors[u.width + 1], k, lo, hi)
    ensures ChannelWithin(BicubicColorSurface(CorrectedColors(u), t), k, lo, hi)
  {
    var c := CorrectedColors(u);
    forall n | 0 <= n < 16 ensures ChannelWithin(c[n], k, lo, hi) {
      var i, j := n / 4, n % 4;
      assert n == i * 4 + j;
      CorrectedColorWithin(u, i, j, k, lo, hi);
    }
    BicubicColorWithin(c, t, k, lo, hi);
  }

  lemma CorrectedColorWithin(u: Uniforms, i: int, j: int, k: nat, lo: real, hi: real)
    requires Readable(u) && 0 <= i < 4 && 0 <= j < 4 && k < 3
    requires ChannelWithin(u.colors[0], k, lo, hi) && ChannelWithin(u.colors[1], k, lo, hi)
    requires ChannelWithin(u.colors[u.width], k, lo, hi) && ChannelWithin(u.colors[u.width + 1], k, lo, hi)
    ensures ChannelWithin(CorrectedColor(u, i, j), k, lo, hi)
  {
    var C := u.colors;
    var w := u.width;
    MixOfMixesWithin(C[0], C[1], C[w], C[w + 1], j as real / 3.0, i as real / 3.0, k, lo, hi);
  }

  /** `mix(mix(a, b, s), mix(c, d, s), t)` for s, t in [0,1] keeps channel k in
      any interval that holds channel k of all four colours. */
  lemma MixOfMixesWithin(a: Rgb, b: Rgb, c: Rgb, d: Rgb, s: real, t: real, k: nat, lo: real, hi: real)
    requires k < 3 && 0.0 <= s <= 1.0 && 0.0 <= t <= 1.0
    requires ChannelWithin(a, k, lo, hi) && ChannelWithin(b, k, lo, hi)
    requires ChannelWithin(c, k, lo, hi) && ChannelWithin(d, k, lo, hi)
    ensures ChannelWithin(Mix3(Mix3(a, b, s), Mix3(c, d, s), t), k, lo, hi)
  {
    Mix3Within(a, b, s, k, lo, hi);
    Mix3Within(c, d, s, k, lo, hi);
    Mix3Within(Mix3(a, b, s), Mix3(c, d, s), t, k, lo, hi);
  }

  /** On any mesh whose four patch corners are black, such as the one above,
      the corrected lattice keeps the whole patch black. */
  lemma CorrectedBlackCorners(u: Uniforms, t: Vec2)
    requires Readable(u) && InSquare(t, 0.0, 1.0)
    requires u.colors[0] == u.colors[1] == u.colors[u.width] == u.colors[u.width + 1] == Rgb(0.0, 0.0, 0.0)
    ensures BicubicColorSurface(CorrectedColors(u), t) == Rgb(0.0, 0.0, 0.0)
  {
    var r := BicubicColorSurface(CorrectedColors(u), t);
    CorrectedColorWithinCorners(u, t, 0, 0.0, 0.0);
    CorrectedColorWithinCorners(u, t, 1, 0.0, 0.0);
    CorrectedColorWithinCorners(u, t, 2, 0.0, 0.0);
    assert r.r == 0.0 && r.g == 0.0 && r.b == 0.0;
  }
}
