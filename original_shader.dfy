/** The per-cell patch shader: each fragment finds its grid cell, builds that
    cell's 4x4 Bezier control lattice from the four corner anchors and their
    handles, evaluates the patch position, and blends the four corner colours
    bilinearly. Only the colour reaches `fragColor`. */
module OriginalShader {
  import opened Numeric
  import opened Vectors
  import opened Patch
  import MeshReducer

  /** The vertex stage's `v_texCoord = a_position * 0.5 + 0.5`: clip space
      [-1,1]^2 onto [0,1]^2. */
  function VertexTexCoord(a: Vec2): (v: Vec2)
    ensures InSquare(a, -1.0, 1.0) ==> InSquare(v, 0.0, 1.0)
    ensures a == Vec2(-1.0, -1.0) ==> v == Vec2(0.0, 0.0)
    ensures a == Vec2(1.0, 1.0) ==> v == Vec2(1.0, 1.0)
  {
    Vec2(a.x * 0.5 + 0.5, a.y * 0.5 + 0.5)
  }

  /** `colorInterpolation(c0, c1, c2, c3, t)`: bilinear blend of the corner colours,
      c0 top-left, c1 top-right, c2 bottom-left, c3 bottom-right. It takes each
      corner colour at its corner, and for t in [0,1]^2 each channel stays within
      the range of the four corners. */
  function ColorInterpolation(c0: Rgb, c1: Rgb, c2: Rgb, c3: Rgb, t: Vec2): (c: Rgb)
    ensures t == Vec2(0.0, 0.0) ==> c == c0
    ensures t == Vec2(1.0, 0.0) ==> c == c1
    ensures t == Vec2(0.0, 1.0) ==> c == c2
    ensures t == Vec2(1.0, 1.0) ==> c == c3
    ensures forall k: nat, lo: real, hi: real | k < 3 && InSquare(t, 0.0, 1.0)
              && ChannelWithin(c0, k, lo, hi) && ChannelWithin(c1, k, lo, hi)
              && ChannelWithin(c2, k, lo, hi) && ChannelWithin(c3, k, lo, hi)
              :: ChannelWithin(c, k, lo, hi)
  {
    var c01 := Mix3(c0, c1, t.x);
    var c23 := Mix3(c2, c3, t.x);
    var c := Mix3(c01, c23, t.y);
    assert forall k: nat, lo: real, hi: real | k < 3 && InSquare(t, 0.0, 1.0)
              && ChannelWithin(c0, k, lo, hi) && ChannelWithin(c1, k, lo, hi)
              && ChannelWithin(c2, k, lo, hi) && ChannelWithin(c3, k, lo, hi)
              :: ChannelWithin(c, k, lo, hi) by {
      forall k: nat, lo: real, hi: real | k < 3 && InSquare(t, 0.0, 1.0)
              && ChannelWithin(c0, k, lo, hi) && ChannelWithin(c1, k, lo, hi)
              && ChannelWithin(c2, k, lo, hi) && ChannelWithin(c3, k, lo, hi)
        ensures ChannelWithin(c, k, lo, hi)
      {
        MixWithin(Channel(c0, k), Channel(c1, k), t.x, lo, hi);
        MixWithin(Channel(c2, k), Channel(c3, k), t.x, lo, hi);
        MixWithin(Channel(c01, k), Channel(c23, k), t.y, lo, hi);
      }
    }
    c
  }

  /** A fragment's cell: column i, row j and the local coordinate inside it. */
  datatype Cell = Cell(i: int, j: int, local: Vec2)

  /** `main`'s cell locator: flip y (`texCoord = (v.x, 1 - v.y)`), then
      `i = int(texCoord.x * (u_width - 1))` with `fract` of the same product as the
      local coordinate, and likewise j with `u_height`. The local coordinate always
      lies in [0,1)^2. */
  function LocateCell(v: Vec2, width: int, height: int): (c: Cell)
    ensures InSquare(c.local, 0.0, 1.0) && c.local.x < 1.0 && c.local.y < 1.0
  {
    var texCoord := Vec2(v.x, 1.0 - v.y);
    var sx := texCoord.x * (width - 1) as real;
    var sy := texCoord.y * (height - 1) as real;
    Cell(Trunc(sx), Trunc(sy), Vec2(Fract(sx), Fract(sy)))
  }

  /** One axis of the locator: for t in [0,1) and n >= 1 cells, `int(t * n)` is a
      cell in [0, n-1] and adding the fraction gives back `t * n`. */
  lemma AxisCell(t: real, n: int)
    requires 0.0 <= t < 1.0 && 1 <= n
    ensures 0 <= Trunc(t * n as real) <= n - 1
    ensures Trunc(t * n as real) as real + Fract(t * n as real) == t * n as real
  {
    ScaledFraction(t, n as real);
    SplitScaled(t * n as real, n);
  }

  /** For a grid of at least 2x2 and texCoord in [0,1)^2, that is v.x in [0,1) and
      v.y in (0,1], the located cell lies inside the grid and `i + local.x`,
      `j + local.y` recover the scaled coordinates. */
  lemma LocateCellInGrid(v: Vec2, width: int, height: int)
    requires 2 <= width && 2 <= height
    requires 0.0 <= v.x < 1.0 && 0.0 < v.y <= 1.0
    ensures var c := LocateCell(v, width, height);
      && 0 <= c.i <= width - 2 && 0 <= c.j <= height - 2
      && c.i as real + c.local.x == v.x * (width - 1) as real
      && c.j as real + c.local.y == (1.0 - v.y) * (height - 1) as real
  {
    LocateColumn(v, width, height);
    LocateRow(v, width, height);
  }

  lemma LocateColumn(v: Vec2, width: int, height: int)
    requires 2 <= width && 0.0 <= v.x < 1.0
    ensures var c := LocateCell(v, width, height);
      0 <= c.i <= width - 2 && c.i as real + c.local.x == v.x * (width - 1) as real
  {
    AxisCell(v.x, width - 1);
  }

  lemma LocateRow(v: Vec2, width: int, height: int)
    requires 2 <= height && 0.0 < v.y <= 1.0
    ensures var c := LocateCell(v, width, height);
      0 <= c.j <= height - 2 && c.j as real + c.local.y == (1.0 - v.y) * (height - 1) as real
  {
    AxisCell(1.0 - v.y, height - 1);
  }

  /** Nothing clamps the locator: at the right border (`texCoord.x == 1`) the
      column is `u_width - 1`, so `index + 1` is already the first anchor of the
      next row. Fragment centres never reach the border, which is why `ShadeOriginal`
      takes texCoord in [0,1)^2. */
  lemma RightBorderLeavesRow(v: Vec2, width: int, height: int)
    requires 2 <= width && v.x == 1.0
    ensures LocateCell(v, width, height).i == width - 1
    ensures LocateCell(v, width, height).local.x == 0.0
  {
  }

  /** The cell whose top-left anchor is `index` can be read: its four anchors and
      their handle blocks exist in the declared arrays. */
  predicate CellInBounds(u: Uniforms, index: int) {
    Declared(u) && 0 <= index && 0 <= u.width && index + u.width + 1 < 9
  }

  /** For a grid of at least 2x2 with at most 9 anchors, every cell the locator
      can return has all its reads inside the uploaded anchors: `index`,
      `index + 1`, `index + u_width` and `index + u_width + 1` are below
      `u_width * u_height`, and their handle reads below 36. */
  lemma CellReadsInBounds(width: int, height: int, i: int, j: int)
    requires 2 <= width && 2 <= height && width * height <= 9
    requires 0 <= i <= width - 2 && 0 <= j <= height - 2
    ensures 0 <= j * width + i
    ensures j * width + i + width + 1 < width * height <= 9
    ensures (j * width + i + width + 1) * 4 + 3 < 36
  {
    assert j * width <= (height - 2) * width;
  }

  /** The 4x4 lattice `main` assembles for the cell with top-left anchor `index`.
      Corners are the four anchors; edge points are a corner plus one of its
      handles; the interior points sit at 0.33333 and 0.66667 along p4-p7 and
      p8-p11. `p11Offset` and `p14Offset` choose which handles of the bottom-right
      anchor give p11 and p14. */
  function Lattice(u: Uniforms, index: int, p11Offset: int, p14Offset: int): (p: seq<Vec2>)
    requires CellInBounds(u, index) && 0 <= p11Offset < 4 && 0 <= p14Offset < 4
    ensures |p| == 16
    ensures p[0] == u.points[index] && p[3] == u.points[index + 1]
    ensures p[12] == u.points[index + u.width] && p[15] == u.points[index + u.width + 1]
  {
    var w := u.width;
    var p0 := u.points[index];
    var p3 := u.points[index + 1];
    var p12 := u.points[index + w];
    var p15 := u.points[index + w + 1];
    var p1 := Add(p0, HandleOf(u, index, RIGHT));
    var p2 := Add(p3, HandleOf(u, index + 1, LEFT));
    var p4 := Add(p0, HandleOf(u, index, BOTTOM));
    var p8 := Add(p12, HandleOf(u, index + w, TOP));
    var p7 := Add(p3, HandleOf(u, index + 1, BOTTOM));
    var p11 := Add(p15, HandleOf(u, index + w + 1, p11Offset));
    var p13 := Add(p12, HandleOf(u, index + w, RIGHT));
    var p14 := Add(p15, HandleOf(u, index + w + 1, p14Offset));
    var p5 := Mix2(p4, p7, 0.33333);
    var p6 := Mix2(p4, p7, 0.66667);
    var p9 := Mix2(p8, p11, 0.33333);
    var p10 := Mix2(p8, p11, 0.66667);
    [p0, p1, p2, p3, p4, p5, p6, p7, p8, p9, p10, p11, p12, p13, p14, p15]
  }

  /** The lattice as the shader builds it: p11 from the bottom-right anchor's
      left handle and p14 from its top handle. */
  function CellLattice(u: Uniforms, index: int): (p: seq<Vec2>)
    requires CellInBounds(u, index)
    ensures |p| == 16
    ensures p[11] == Add(u.points[index + u.width + 1], HandleOf(u, index + u.width + 1, LEFT))
    ensures p[14] == Add(u.points[index + u.width + 1], HandleOf(u, index + u.width + 1, TOP))
  {
    Lattice(u, index, LEFT, TOP)
  }

  /** The lattice with the bottom-right anchor's handles the other way round: p11
      (on the right edge, above p15) from its top handle and p14 (on the bottom
      edge, left of p15) from its left handle, mirroring how p2 and p8 are built. */
  function CellLatticeCorrected(u: Uniforms, index: int): (p: seq<Vec2>)
    requires CellInBounds(u, index)
    ensures |p| == 16
    ensures p[11] == Add(u.points[index + u.width + 1], HandleOf(u, index + u.width + 1, TOP))
    ensures p[14] == Add(u.points[index + u.width + 1], HandleOf(u, index + u.width + 1, LEFT))
  {
    Lattice(u, index, TOP, LEFT)
  }

  /** Which anchor and which handle each edge point of the shader's lattice comes
      from, and where the interior points sit. */
  lemma CellLatticeEntries(u: Uniforms, index: int)
    requires CellInBounds(u, index)
    ensures var p := CellLattice(u, index); var w := u.width;
      && p[0] == u.points[index] && p[3] == u.points[index + 1]
      && p[12] == u.points[index + w] && p[15] == u.points[index + w + 1]
      && p[1] == Add(p[0], u.controlPoints[index * 4 + RIGHT])
      && p[2] == Add(p[3], u.controlPoints[(index + 1) * 4 + LEFT])
      && p[4] == Add(p[0], u.controlPoints[index * 4 + BOTTOM])
      && p[7] == Add(p[3], u.controlPoints[(index + 1) * 4 + BOTTOM])
      && p[8] == Add(p[12], u.controlPoints[(index + w) * 4 + TOP])
      && p[13] == Add(p[12], u.controlPoints[(index + w) * 4 + RIGHT])
      && p[11] == Add(p[15], u.controlPoints[(index + w + 1) * 4 + LEFT])
      && p[14] == Add(p[15], u.controlPoints[(index + w + 1) * 4 + TOP])
      && p[5] == Mix2(p[4], p[7], 0.33333) && p[6] == Mix2(p[4], p[7], 0.66667)
      && p[9] == Mix2(p[8], p[11], 0.33333) && p[10] == Mix2(p[8], p[11], 0.66667)
  {
  }

  /** The right column of the shader's lattice: the top-right anchor, that
      anchor plus its bottom handle, the bottom-right anchor plus its left handle,
      and the bottom-right anchor. */
  lemma RightColumn(u: Uniforms, index: int)
    requires CellInBounds(u, index)
    ensures var p := CellLattice(u, index); var a := u.points[index + 1]; var b := u.points[index + u.width + 1];
      && p[3] == a && p[7] == Add(a, HandleOf(u, index + 1, BOTTOM))
      && p[11] == Add(b, HandleOf(u, index + u.width + 1, LEFT)) && p[15] == b
  {
  }

  /** The left column of the shader's lattice: the top-left anchor, that anchor
      plus its bottom handle, the bottom-left anchor plus its top handle, and the
      bottom-left anchor. */
  lemma LeftColumn(u: Uniforms, index: int)
    requires CellInBounds(u, index)
    ensures var p := CellLattice(u, index); var a := u.points[index]; var b := u.points[index + u.width];
      && p[0] == a && p[4] == Add(a, HandleOf(u, index, BOTTOM))
      && p[8] == Add(b, HandleOf(u, index + u.width, TOP)) && p[12] == b
  {
  }

  /** The patch passes through the cell's four anchors at the corners of its local
      coordinates. */
  lemma SurfaceThroughAnchors(u: Uniforms, index: int)
    requires CellInBounds(u, index)
    ensures var p := CellLattice(u, index); var w := u.width;
      && BicubicSurface(p, Vec2(0.0, 0.0)) == u.points[index]
      && BicubicSurface(p, Vec2(1.0, 0.0)) == u.points[index + 1]
      && BicubicSurface(p, Vec2(0.0, 1.0)) == u.points[index + w]
      && BicubicSurface(p, Vec2(1.0, 1.0)) == u.points[index + w + 1]
  {
    CellLatticeEntries(u, index);
  }

  /** As written, two horizontally adjacent cells disagree along their shared
      edge: the left cell's right column (local x = 1) and the right cell's left
      column (local x = 0) differ exactly in their third entry, the shared
      lower anchor plus its left handle against the same anchor plus its top
      handle, so the positions differ by Bernstein weight 2 times (left - top). */
  lemma SharedVerticalEdgeGap(u: Uniforms, index: int, s: real)
    requires CellInBounds(u, index + 1) && 0 <= index
    ensures var anchor := index + 1 + u.width;
      Sub(BicubicSurface(CellLattice(u, index), Vec2(1.0, s)),
          BicubicSurface(CellLattice(u, index + 1), Vec2(0.0, s)))
      == Scale(Sub(HandleOf(u, anchor, LEFT), HandleOf(u, anchor, TOP)), Bernstein(2, s))
  {
    var w := u.width;
    var p := CellLattice(u, index);
    var q := CellLattice(u, index + 1);
    var lh, th := HandleOf(u, index + 1 + w, LEFT), HandleOf(u, index + 1 + w, TOP);
    assert index + w + 1 == index + 1 + w;
    RightColumn(u, index);
    LeftColumn(u, index + 1);
    SurfaceBorders(p, s);
    SurfaceBorders(q, s);
    CubicBezierThirdDifference(p[3], p[7], p[11], q[8], p[15], s);
    assert Sub(p[11], q[8]) == Sub(lh, th);
    CubicBezierThirdOnly(Sub(lh, th), s);
  }

  /** So the seam is open: whenever the shared anchor's left and top handles
      differ (as the default handles (-0.1, 0) and (0, -0.1) do), the two cells'
      borders are apart everywhere strictly between the shared anchors. */
  lemma SharedVerticalEdgeOpen(u: Uniforms, index: int, s: real)
    requires CellInBounds(u, index + 1) && 0 <= index
    requires HandleOf(u, index + 1 + u.width, LEFT) != HandleOf(u, index + 1 + u.width, TOP)
    requires 0.0 < s < 1.0
    ensures BicubicSurface(CellLattice(u, index), Vec2(1.0, s))
         != BicubicSurface(CellLattice(u, index + 1), Vec2(0.0, s))
  {
    SharedVerticalEdgeGap(u, index, s);
    BernsteinInside(s);
    ScaleNonzero(Sub(HandleOf(u, index + 1 + u.width, LEFT), HandleOf(u, index + 1 + u.width, TOP)), Bernstein(2, s));
  }

  /** When the shared lower anchor keeps the default handles `createInitialState`
      gives it, the two cells' borders at the middle of the shared edge are 3/8
      of (-0.1, 0.1) apart, that is (-0.0375, 0.0375). */
  lemma DefaultHandlesGap(u: Uniforms, index: int)
    requires CellInBounds(u, index + 1) && 0 <= index
    requires HandleOf(u, index + 1 + u.width, LEFT) == MeshReducer.DEFAULT_HANDLES.left
    requires HandleOf(u, index + 1 + u.width, TOP) == MeshReducer.DEFAULT_HANDLES.top
    ensures Sub(BicubicSurface(CellLattice(u, index), Vec2(1.0, 0.5)),
                BicubicSurface(CellLattice(u, index + 1), Vec2(0.0, 0.5)))
            == Vec2(-0.0375, 0.0375)
  {
    SharedVerticalEdgeGap(u, index, 0.5);
    BernsteinInside(0.5);
  }

  /** With the corrected lattice, neighbouring cells meet: the right column of a
      cell equals the left column of the cell to its right, and the bottom row
      equals the top row of the cell below, so the patches agree along every
      shared edge. */
  lemma CorrectedSharedEdgesMatch(u: Uniforms, index: int, s: real)
    requires CellInBounds(u, index + 1) && CellInBounds(u, index + u.width) && 0 <= index
    ensures BicubicSurface(CellLatticeCorrected(u, index), Vec2(1.0, s))
         == BicubicSurface(CellLatticeCorrected(u, index + 1), Vec2(0.0, s))
    ensures BicubicSurface(CellLatticeCorrected(u, index), Vec2(s, 1.0))
         == BicubicSurface(CellLatticeCorrected(u, index + u.width), Vec2(s, 0.0))
  {
    var w := u.width;
    var p := CellLatticeCorrected(u, index);
    var q := CellLatticeCorrected(u, index + 1);
    var r := CellLatticeCorrected(u, index + w);
    SurfaceBorders(p, s);
    SurfaceBorders(q, s);
    SurfaceBorders(r, s);
    assert index + w + 1 == index + 1 + w;
    assert p[3] == q[0] && p[7] == q[4] && p[11] == q[8] && p[15] == q[12];
    assert p[12] == r[0] && p[13] == r[1] && p[14] == r[2] && p[15] == r[3];
  }

  /** The colours of neighbouring cells agree along shared edges, as written: the
      bilinear blend only uses the corner colours, which the cells share. */
  lemma ColorsMatchAcrossSharedEdges(u: Uniforms, index: int, s: real)
    requires CellInBounds(u, index + 1) && CellInBounds(u, index + u.width) && 0 <= index
    ensures var w := u.width; var c := u.colors;
      ColorInterpolation(c[index], c[index + 1], c[index + w], c[index + w + 1], Vec2(1.0, s))
      == ColorInterpolation(c[index + 1], c[index + 2], c[index + 1 + w], c[index + w + 2], Vec2(0.0, s))
    ensures var w := u.width; var c := u.colors;
      ColorInterpolation(c[index], c[index + 1], c[index + w], c[index + w + 1], Vec2(s, 1.0))
      == ColorInterpolation(c[index + w], c[index + w + 1], c[index + 2 * w], c[index + 2 * w + 1], Vec2(s, 0.0))
  {
  }

  /** The fragment shader's `main`, up to `fragColor`: locate the cell, fill
      `p[16]` and `colors[4]`, evaluate the patch position and the bilinear colour
      of the cell's corners. */
  method ShadeOriginal(vTex: Vec2, u: Uniforms) returns (pos: Vec2, color: Rgb)
    requires Declared(u) && 2 <= u.width && 2 <= u.height && u.width * u.height <= 9
    requires 0.0 <= vTex.x < 1.0 && 0.0 < vTex.y <= 1.0
    ensures var cell := LocateCell(vTex, u.width, u.height);
      var index := cell.j * u.width + cell.i;
      && CellInBounds(u, index)
      && pos == BicubicSurface(CellLattice(u, index), cell.local)
      && color == ColorInterpolation(u.colors[index], u.colors[index + 1], u.colors[index + u.width],
                                     u.colors[index + u.width + 1], cell.local)
  {
    var cell := LocateCell(vTex, u.width, u.height);
    LocateCellInGrid(vTex, u.width, u.height);
    CellReadsInBounds(u.width, u.height, cell.i, cell.j);
    var index := cell.j * u.width + cell.i;

    var p, colors := FillCell(u, index);
    pos := BicubicBezier(p, cell.local);
    color := ColorInterpolation(colors[0], colors[1], colors[2], colors[3], cell.local);
  }

  /** The part of `main` that fills `p[16]` and `colors[4]` for the cell with
      top-left anchor `index`, slot by slot: the four anchors and their colours,
      then the eight edge points from anchor handles, then the four interior
      points. */
  method FillCell(u: Uniforms, index: int) returns (p: seq<Vec2>, colors: seq<Rgb>)
    requires CellInBounds(u, index)
    ensures p == CellLattice(u, index)
    ensures colors == [u.colors[index], u.colors[index + 1], u.colors[index + u.width], u.colors[index + u.width + 1]]
  {
    // GLSL arrays are values: `p` and `colors` are sequences updated slot by slot.
    p := seq(16, _ => Vec2(0.0, 0.0));
    colors := seq(4, _ => Rgb(0.0, 0.0, 0.0));
    p, colors := PlaceCorners(u, index, p, colors);
    p := PlaceEdges(u, index, p);
    p := PlaceInterior(p);
    CellLatticeEntries(u, index);
  }

  /** The first block of `main`: the four corner anchors into p[0], p[3], p[12],
      p[15] and their colours into `colors[0..4]`. */
  method PlaceCorners(u: Uniforms, index: int, p0: seq<Vec2>, colors0: seq<Rgb>)
      returns (p: seq<Vec2>, colors: seq<Rgb>)
    requires CellInBounds(u, index) && |p0| == 16 && |colors0| == 4
    ensures |p| == 16
    ensures p[0] == u.points[index] && p[3] == u.points[index + 1]
    ensures p[12] == u.points[index + u.width] && p[15] == u.points[index + u.width + 1]
    ensures colors == [u.colors[index], u.colors[index + 1], u.colors[index + u.width], u.colors[index + u.width + 1]]
  {
    p, colors := p0, colors0;
    p := p[0 := u.points[index]];
    p := p[3 := u.points[index + 1]];
    p := p[12 := u.points[index + u.width]];
    p := p[15 := u.points[index + u.width + 1]];

    colors := colors[0 := u.colors[index]];
    colors := colors[1 := u.colors[index + 1]];
    colors := colors[2 := u.colors[index + u.width]];
    colors := colors[3 := u.colors[index + u.width + 1]];
  }

  /** The second block: the eight edge points, each an anchor already in place
      plus one of that anchor's handle offsets. */
  method PlaceEdges(u: Uniforms, index: int, p0: seq<Vec2>) returns (p: seq<Vec2>)
    requires CellInBounds(u, index) && |p0| == 16
    ensures |p| == 16
    ensures p[0] == p0[0] && p[3] == p0[3] && p[12] == p0[12] && p[15] == p0[15]
    ensures p[1] == Add(p0[0], u.controlPoints[index * 4 + 1])
    ensures p[2] == Add(p0[3], u.controlPoints[(index + 1) * 4 + 3])
    ensures p[4] == Add(p0[0], u.controlPoints[index * 4 + 2])
    ensures p[8] == Add(p0[12], u.controlPoints[(index + u.width) * 4])
    ensures p[7] == Add(p0[3], u.controlPoints[(index + 1) * 4 + 2])
    ensures p[11] == Add(p0[15], u.controlPoints[(index + u.width + 1) * 4 + 3])
    ensures p[13] == Add(p0[12], u.controlPoints[(index + u.width) * 4 + 1])
    ensures p[14] == Add(p0[15], u.controlPoints[(index + u.width + 1) * 4])
  {
    p := p0;
    p := p[1 := Add(p[0], u.controlPoints[index * 4 + 1])];
    p := p[2 := Add(p[3], u.controlPoints[(index + 1) * 4 + 3])];
    p := p[4 := Add(p[0], u.controlPoints[index * 4 + 2])];
    p := p[8 := Add(p[12], u.controlPoints[(index + u.width) * 4])];

    p := p[7 := Add(p[3], u.controlPoints[(index + 1) * 4 + 2])];
    p := p[11 := Add(p[15], u.controlPoints[(index + u.width + 1) * 4 + 3])];
    p := p[13 := Add(p[12], u.controlPoints[(index + u.width) * 4 + 1])];
    p := p[14 := Add(p[15], u.controlPoints[(index + u.width + 1) * 4])];
  }

  /** The third block: the four interior points, mixed from the left and right
      edge points of their row; every other slot is left as it was. */
  method PlaceInterior(p0: seq<Vec2>) returns (p: seq<Vec2>)
    requires |p0| == 16
    ensures |p| == 16
    ensures forall k | 0 <= k < 16 && k != 5 && k != 6 && k != 9 && k != 10 :: p[k] == p0[k]
    ensures p[5] == Mix2(p0[4], p0[7], 0.33333) && p[6] == Mix2(p0[4], p0[7], 0.66667)
    ensures p[9] == Mix2(p0[8], p0[11], 0.33333) && p[10] == Mix2(p0[8], p0[11], 0.66667)
  {
    p := p0;
    p := p[5 := Mix2(p[4], p[7], 0.33333)];
    p := p[6 := Mix2(p[4], p[7], 0.66667)];
    p := p[9 := Mix2(p[8], p[11], 0.33333)];
    p := p[10 := Mix2(p[8], p[11], 0.66667)];
  }

  /** Each channel of the colour `main` writes lies between the smallest and the
      largest value of that channel over the cell's four corner colours. */
  lemma ShadedColorWithinCorners(vTex: Vec2, u: Uniforms, k: nat)
    requires Declared(u) && 2 <= u.width && 2 <= u.height && u.width * u.height <= 9
    requires 0.0 <= vTex.x < 1.0 && 0.0 < vTex.y <= 1.0
    requires k < 3
    ensures var cell := LocateCell(vTex, u.width, u.height);
      var index := cell.j * u.width + cell.i;
      0 <= index && index + u.width + 1 < 9 &&
      var c := ColorInterpolation(u.colors[index], u.colors[index + 1], u.colors[index + u.width],
                                  u.colors[index + u.width + 1], cell.local);
      var a, b, d, e := Channel(u.colors[index], k), Channel(u.colors[index + 1], k),
                        Channel(u.colors[index + u.width], k), Channel(u.colors[index + u.width + 1], k);
      Min4(a, b, d, e) <= Channel(c, k) <= Max4(a, b, d, e)
  {
    var cell := LocateCell(vTex, u.width, u.height);
    LocateCellInGrid(vTex, u.width, u.height);
    CellReadsInBounds(u.width, u.height, cell.i, cell.j);
    var index := cell.j * u.width + cell.i;
    var c0, c1, c2, c3 := u.colors[index], u.colors[index + 1], u.colors[index + u.width], u.colors[index + u.width + 1];
    var lo := Min4(Channel(c0, k), Channel(c1, k), Channel(c2, k), Channel(c3, k));
    var hi := Max4(Channel(c0, k), Channel(c1, k), Channel(c2, k), Channel(c3, k));
    assert ChannelWithin(c0, k, lo, hi) && ChannelWithin(c1, k, lo, hi);
    assert ChannelWithin(c2, k, lo, hi) && ChannelWithin(c3, k, lo, hi);
  }
}
