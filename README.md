# Mesh gradient editor: a Dafny model of its state and shaders

The editor keeps a grid of anchors. Each anchor has a position in the unit
square, a `#rrggbb` colour and four tangent handles (top, right, bottom, left),
stored as offsets from the anchor. A reducer edits that state. Two renderers
turn it into pixels:

- Two GLSL patch shaders:
  - The original shader builds one bicubic Bezier patch per grid cell.
  - The improved shader builds a single patch over the whole canvas.
- A WebGL component with two parts:
  - A fragment shader that blends the nine anchor colours with
    inverse-square-distance weights.
  - JavaScript that flattens the points and the colour strings into the
    uniform arrays.

The model is organised by concern:

| module | file | contents |
|---|---|---|
| `Numeric` | `numeric.dfy` | the scalar operations the code relies on: `clamp`, GLSL `mix`, `int()`, `fract`, the cubic Bernstein polynomial, and their bounds |
| `Vectors` | `vectors.dfy` | `vec2` and `vec3` colours |
| `HexColor` | `hex_color.dfy` | `toString(16)`, `padStart`, and `parseInt(s, 16)` on the strings the code produces or reads |
| `MeshReducer` | `mesh_reducer.dfy` | `createInitialState` and `meshReducer` as pure functions on an immutable state value, as the reducer is in the source |
| `Patch` | `patch.dfy` | the uniforms; `cubicBezier` and `bicubicBezier`, which both patch shaders declare with the same code; and `cubicColorInterpolation` and `bicubicColorInterpolation`, which only the improved shader declares |
| `OriginalShader` | `original_shader.dfy` | the per-cell shader's `main` |
| `ImprovedShader` | `improved_shader.dfy` | the single-patch shader's loop |
| `WebGLMeshGradient` | `webgl_mesh_gradient.dfy` | `interpolateColor`, `flatPoints` and `flatColors` |

Shader loops become methods with loop invariants. Each method is proved equal
to a specification function, and the properties are proved about those
functions:

- Every reducer action keeps the state invariant, given the corrected
  layout for a single column or row. There the code divides 0 by 0 (see
  Findings). Each action changes exactly what it names.
- Colour strings round-trip through `flatColors`.
- Both patches pass through their anchors.
- Every blended colour stays inside the range of the colours it blends.

Three defects in the source are recorded under Findings. Each one is modelled
twice: once as written, with a witness, and once corrected, with the intended
property proved.

## Model

| member | source | states |
|---|---|---|
| Numeric.Clamp | src/reducers/meshReducer.js:39-40 | the clamped value lies in [lo, hi], is x when x is in range, lo below it and hi above it |
| Numeric.MixWithin | src/shaders/originalShader.js:43-45 | GLSL `mix(a, b, t)` for t in [0,1] stays within any interval holding a and b |
| Numeric.CubicWithin | src/shaders/improvedShader.js:42-48 | the cubic Bernstein combination for t in [0,1] stays within any interval holding its four coefficients |
| Numeric.CubicWeights | src/shaders/originalShader.js:24-29 | the expanded `mt3*p0 + 3*mt2*t*p1 + 3*mt*t2*p2 + t3*p3` is the combination of the four control values with the cubic Bernstein weights |
| Numeric.Trunc | src/shaders/originalShader.js:54-55 | GLSL `int()` truncates toward zero: for x >= 0 the largest integer not above x, for x < 0 the smallest not below it |
| Numeric.Fract | src/shaders/originalShader.js:59-60 | `fract` lies in [0,1) and for x >= 0 is x minus its integer part |
| HexColor.ToHex | src/reducers/meshReducer.js:10 | `n.toString(16)` is non-empty, lower-case hex, has no leading zero, and reads back as n |
| HexColor.PadStart | src/reducers/meshReducer.js:10 | `padStart(width, '0')` keeps the string as its suffix, has length max(|s|, width), and prefixes only '0's |
| HexColor.ColorString | src/reducers/meshReducer.js:10 | the colour written for a draw below 16777215 is '#' plus six lower-case hex digits worth exactly that draw |
| HexColor.ParseTwoDigits | src/components/WebGLMeshGradient.jsx:88-90 | `parseInt` base 16 of two hex digits is their value 16*d0 + d1, at most 255 |
| HexColor.HexValue | src/components/WebGLMeshGradient.jsx:88-90 | the value of k hex digits, most significant first, is below 16^k |
| HexColor.TrimStart | src/components/WebGLMeshGradient.jsx:88-90 | parseInt's leading-whitespace skip drops exactly the leading whitespace: the result is a suffix, every dropped character is whitespace, and the result does not start with whitespace |
| HexColor.TrimWhitespacePrefix | src/components/WebGLMeshGradient.jsx:88-90 | any run of whitespace put in front of a string is trimmed away |
| HexColor.HexRun | src/components/WebGLMeshGradient.jsx:88-90 | parseInt reads the longest prefix of hex digits and stops at the first non-digit |
| HexColor.ParseIntHex | src/components/WebGLMeshGradient.jsx:88-90 | `parseInt(s, 16)` of a non-empty string of hex digits is their value; any result other than NaN needs a hex digit in the string |
| HexColor.ParseIntHexSkipsWhitespace | src/components/WebGLMeshGradient.jsx:88-90 | leading whitespace does not change what `parseInt` returns |
| HexColor.ParseIntHexNegative | src/components/WebGLMeshGradient.jsx:88-90 | a '-' followed by hex digits parses to minus their value |
| HexColor.ParseSigned | src/components/WebGLMeshGradient.jsx:88-90 | after trimming, a leading '-' negates the magnitude and a leading digit reads it unchanged |
| HexColor.ParseMagnitude | src/components/WebGLMeshGradient.jsx:88-90 | after an optional `0x`/`0X`, NaN exactly when no hex digit follows, and otherwise the value of the longest run of hex digits; never negative; the whole string's value when all of it is digits |
| HexColor.NegatedMagnitude | src/components/WebGLMeshGradient.jsx:88-90 | once whitespace is trimmed, '-' then hex digits reads as minus their value |
| MeshReducer.WithHandle | src/reducers/meshReducer.js:59-65 | `{...h, [d]: v}` sets handle d to v and leaves the other three directions as they were |
| MeshReducer.InitialAxisAsWritten | src/reducers/meshReducer.js:5-6 | `k / (n - 1)` is NaN exactly when n == 1, and otherwise lies in [0,1] |
| MeshReducer.InitialAxis | src/reducers/meshReducer.js:5-6 | the corrected coordinate lies in [0,1], is 0 at k = 0 and 1 at k = n-1, and equals the code's value whenever n >= 2 |
| MeshReducer.SingleColumnGivesNaN | src/reducers/meshReducer.js:5-6 | SET_DIMENSIONS (line 26) accepts width 1 and rebuilds the mesh; the x the code computes for the first anchor is then 0/0 = NaN |
| MeshReducer.SingleRowGivesNaN | src/reducers/meshReducer.js:5-6 | SET_DIMENSIONS (line 26) accepts height 1 and rebuilds the mesh; the y the code computes for the first anchor is then 0/0 = NaN |
| MeshReducer.CreateInitialState | src/reducers/meshReducer.js:3-21 | width*height anchors: anchor k at its grid position (a single column or row at 0), with the colour string of draw k and the default handles |
| MeshReducer.InitialStateValid | src/reducers/meshReducer.js:3-21 | a fresh mesh with the corrected single column or row meets the state invariant: positive dimensions, width*height anchors, every anchor in [0,1]^2, every handle in [-0.5,0.5]^2 |
| MeshReducer.InitialGrid | src/reducers/meshReducer.js:4-7 | on a grid of at least 2x2, anchor k starts at (col/(width-1), row/(height-1)) |
| MeshReducer.RowStartInside | src/reducers/meshReducer.js:4-7 | every row of a width-by-height grid ends inside the `width * height` anchors |
| MeshReducer.InitialCorners | src/reducers/meshReducer.js:4-7 | on a grid of at least 2x2 the four corner anchors start at the four corners of the unit square |
| MeshReducer.InitialColorsWellFormed | src/reducers/meshReducer.js:9-11 | every initial colour is '#' plus six lower-case hex digits whose value is the anchor's draw |
| MeshReducer.Reduce | src/reducers/meshReducer.js:23-71 | an unknown action type and a dimension below 1 return the state unchanged; an accepted SET_DIMENSIONS has the requested size; every other action keeps the dimensions and the lengths of all three arrays |
| MeshReducer.SetDimensionsEffect | src/reducers/meshReducer.js:25-30 | a dimension below 1 returns the state unchanged; otherwise a fresh mesh of the requested size replaces every edit: each anchor at its grid position, colour k the string of draw k, default handles; from 2x2 up each position is the code's own division |
| MeshReducer.MovePointEffect | src/reducers/meshReducer.js:32-42 | an index outside the points returns the state unchanged; otherwise only that anchor moves, to the clamped target, which stays in [0,1]^2 and is the target itself when that is in range |
| MeshReducer.MovePointIdempotent | src/reducers/meshReducer.js:32-42 | the same MOVE_POINT applied twice gives the same state as once |
| MeshReducer.SetColorEffect | src/reducers/meshReducer.js:44-51 | an index outside the colours returns the state unchanged; otherwise the colour is stored verbatim there and nowhere else |
| MeshReducer.UpdateControlPointEffect | src/reducers/meshReducer.js:53-66 | an index outside the handles returns the state unchanged; otherwise only the named handle of that anchor changes, to the offset clamped into [-0.5,0.5]^2 |
| MeshReducer.ReducePreservesValid | src/reducers/meshReducer.js:23-71 | every action, including an unknown type, keeps the state invariant (with the corrected single column or row) |
| Numeric.Mix | src/shaders/originalShader.js:43-45 | GLSL `mix(a, b, t)` is a at t = 0 and b at t = 1 |
| Numeric.Cubic | src/shaders/improvedShader.js:42-48 | the cubic Bernstein combination is its first coefficient at t = 0 and its last at t = 1 |
| Patch.CubicBezier | src/shaders/originalShader.js:23-30 | the cubic Bezier curve starts at p0 at t = 0 and ends at p3 at t = 1 |
| Patch.CubicColor | src/shaders/improvedShader.js:42-49 | the cubic colour curve starts at c0 and ends at c3 |
| Patch.CubicColorWithin | src/shaders/improvedShader.js:42-49 | for t in [0,1] each channel stays within any interval holding that channel of the four colours |
| Patch.BicubicSurface | src/shaders/originalShader.js:33-39 | the bicubic patch interpolates its four corner control points p[0], p[3], p[12], p[15] |
| Patch.SurfaceBorders | src/shaders/originalShader.js:33-39 | on the four borders of the parameter square the patch is the cubic of the lattice's outer column or row |
| Patch.BicubicBezier | src/shaders/originalShader.js:33-39 | the `temp[4]` loop computes the bicubic surface |
| Patch.BicubicColorSurface | src/shaders/improvedShader.js:52-58 | the bicubic colour patch takes the corner colours at the corners |
| Patch.BicubicColorWithin | src/shaders/improvedShader.js:52-58 | for t in [0,1]^2 each channel stays within any interval holding that channel of all sixteen lattice colours |
| Patch.BicubicColorInterpolation | src/shaders/improvedShader.js:52-58 | the `temp[4]` loop computes the bicubic colour surface |
| OriginalShader.VertexTexCoord | src/shaders/originalShader.js:1-8 | the full-screen quad in [-1,1]^2 maps onto texture coordinates in [0,1]^2, corner to corner |
| OriginalShader.ColorInterpolation | src/shaders/originalShader.js:42-46 | the bilinear blend takes each corner colour at its corner, and for t in [0,1]^2 stays within the range of the four corners channel by channel |
| OriginalShader.LocateCell | src/shaders/originalShader.js:51-61 | the local coordinate always lies in [0,1)^2 |
| OriginalShader.AxisCell | src/shaders/originalShader.js:54-61 | for t in [0,1), `int(t*n)` is a cell in [0, n-1], and adding `fract` recovers t*n |
| OriginalShader.LocateCellInGrid | src/shaders/originalShader.js:51-61 | for texCoord in [0,1)^2 the cell lies in [0,width-2] x [0,height-2], and cell plus local coordinate is the scaled texCoord |
| OriginalShader.RightBorderLeavesRow | src/shaders/originalShader.js:54-61 | nothing clamps the column: at texCoord.x = 1 the column is width-1, one past the last cell |
| OriginalShader.CellReadsInBounds | src/shaders/originalShader.js:66-87 | on a grid of at least 2x2 with at most nine anchors, every read of every locatable cell lies inside the declared uniform arrays |
| OriginalShader.Lattice | src/shaders/originalShader.js:64-93 | the sixteen-point lattice of a cell has the cell's four anchors at p[0], p[3], p[12], p[15] |
| OriginalShader.CellLattice | src/shaders/originalShader.js:84-87 | as written, p[11] is the bottom-right anchor plus its left handle and p[14] that anchor plus its top handle |
| OriginalShader.CellLatticeCorrected | src/shaders/originalShader.js:84-87 | corrected, p[11] is the bottom-right anchor plus its top handle and p[14] that anchor plus its left handle |
| OriginalShader.CellLatticeEntries | src/shaders/originalShader.js:68-93 | which anchor and which handle each of the sixteen lattice points is built from, and where the interior points sit |
| OriginalShader.RightColumn | src/shaders/originalShader.js:69-85 | the cell's right column is built from the top-right anchor and its bottom handle, then the bottom-right anchor and its left handle |
| OriginalShader.LeftColumn | src/shaders/originalShader.js:68-82 | the cell's left column is built from the top-left anchor and its bottom handle, then the bottom-left anchor and its top handle |
| OriginalShader.SurfaceThroughAnchors | src/shaders/originalShader.js:68-96 | each cell's patch passes through its four anchors at the corners of its local coordinates |
| OriginalShader.SharedVerticalEdgeGap | src/shaders/originalShader.js:85-87 | as written, horizontally adjacent cells disagree along their shared edge by the Bernstein weight 2 times (left handle minus top handle) |
| OriginalShader.SharedVerticalEdgeOpen | src/shaders/originalShader.js:85-87 | whenever the shared anchor's left and top handles differ, the two borders are apart strictly between the anchors |
| OriginalShader.DefaultHandlesGap | src/shaders/originalShader.js:84-87 | when the shared lower anchor keeps the left and top handles `createInitialState` gives it (meshReducer.js:14-17), the two cells' patches at the middle of their shared edge are (-0.0375, 0.0375) apart |
| OriginalShader.CorrectedSharedEdgesMatch | src/shaders/originalShader.js:79-87 | with p11 and p14 built the other way round, neighbouring patches coincide along every shared vertical and horizontal edge |
| OriginalShader.ColorsMatchAcrossSharedEdges | src/shaders/originalShader.js:73-76 | colours of neighbouring cells agree along shared edges, because the blend reads only the shared corner colours |
| OriginalShader.ShadeOriginal | src/shaders/originalShader.js:48-102 | `main` reads only in-bounds uniforms; its position is the cell's bicubic patch at the local coordinate, and its colour the bilinear blend of the cell's corners |
| OriginalShader.FillCell | src/shaders/originalShader.js:64-93 | the slot-by-slot writes of `p[16]` and `colors[4]` produce exactly the cell lattice and the four corner colours |
| OriginalShader.PlaceCorners | src/shaders/originalShader.js:68-76 | the four anchors land in p[0], p[3], p[12], p[15], and their colours in `colors` |
| OriginalShader.PlaceEdges | src/shaders/originalShader.js:79-87 | each edge point is its corner anchor plus the named handle; the corners are untouched |
| OriginalShader.PlaceInterior | src/shaders/originalShader.js:90-93 | the interior points sit at 0.33333 and 0.66667 along rows 1 and 2; every other slot is untouched |
| OriginalShader.ShadedColorWithinCorners | src/shaders/originalShader.js:99 | every channel of the fragment colour lies between the minimum and the maximum of that channel over the cell's corners |
| ImprovedShader.CornerIndex | src/shaders/improvedShader.js:69-77 | `(i/3)*u_width + (j/3)` is anchor 0, 1, u_width or u_width+1: rows and columns 0-2 use anchor row and column 0 |
| ImprovedShader.LatticePoint | src/shaders/improvedShader.js:69-93 | the corner entries (0,0), (0,3), (3,0), (3,3) are anchors 0, 1, u_width and u_width+1 |
| ImprovedShader.LatticeColor | src/shaders/improvedShader.js:69-101 | the corner entries take the colours of anchors 0, 1, u_width and u_width+1 |
| ImprovedShader.ImprovedLattice | src/shaders/improvedShader.js:66-104 | `p[16]` has anchors 0, 1, u_width and u_width+1 at p[0], p[3], p[12], p[15] |
| ImprovedShader.ImprovedColors | src/shaders/improvedShader.js:66-104 | `c[16]` has the colours of anchors 0, 1, u_width and u_width+1 at c[0], c[3], c[12], c[15] |
| ImprovedShader.LatticePointAt | src/shaders/improvedShader.js:68-93 | lattice entry i*4+j is the point built for row i, column j |
| ImprovedShader.LatticeColorAt | src/shaders/improvedShader.js:68-101 | lattice entry i*4+j is the colour built for row i, column j |
| ImprovedShader.ShadeImproved | src/shaders/improvedShader.js:60-111 | the nested loop fills the whole position and colour lattices, and `main` evaluates both bicubic surfaces at `v_texCoord` |
| ImprovedShader.ImprovedLatticeEntries | src/shaders/improvedShader.js:71-86 | the lattice uses only anchors 0, 1, w and w+1; p[2] and p[8] use anchor 0, p[7] and p[11] anchor 1, p[13] and p[14] anchor w |
| ImprovedShader.ImprovedInteriorPoints | src/shaders/improvedShader.js:88-93 | the four interior points coincide, at the mean of four handle tips |
| ImprovedShader.InteriorPoint | src/shaders/improvedShader.js:87-93 | each interior point (i, j in 1..2) has corner index 0 and so mixes the same four handle tips |
| ImprovedShader.InteriorPointsAgree | src/shaders/improvedShader.js:87-93 | the four interior lattice points are equal, and equal the mean of the four handle tips |
| ImprovedShader.ImprovedThroughAnchors | src/shaders/improvedShader.js:60-108 | the patch passes through anchors 0, 1, w and w+1 at the corners and takes their colours there |
| ImprovedShader.PointsThroughAnchors | src/shaders/improvedShader.js:60-107 | `bicubicBezier(p, pos)` is anchor 0, 1, w or w+1 at the four corners of `v_texCoord` |
| ImprovedShader.ColorsThroughAnchors | src/shaders/improvedShader.js:60-108 | `bicubicColorInterpolation(c, pos)` is the colour of anchor 0, 1, w or w+1 at the four corners of `v_texCoord` |
| ImprovedShader.EdgeColorsReadNextAnchors | src/shaders/improvedShader.js:97-101 | as written, c[13], c[14] blend anchor row 2 and c[7], c[11] blend anchor column 2, outside the patch's corners |
| ImprovedShader.ImprovedColorWithinPalette | src/shaders/improvedShader.js:97-108 | every fragment colour stays, channel by channel, within the range of the colours the loop reads |
| ImprovedShader.LatticeColorWithin | src/shaders/improvedShader.js:97-101 | each lattice colour stays within the range of the colours the loop reads |
| ImprovedShader.BlackCornersGiveGrey | src/shaders/improvedShader.js:97-108 | with four black patch corners and white anchors 6 and 7, the middle of the bottom edge is grey (0.75, 0.75, 0.75) |
| ImprovedShader.CorrectedColorAgrees | src/shaders/improvedShader.js:97-101 | the corrected lattice colour equals the shader's at the corners and on rows and columns 0-2 |
| ImprovedShader.CorrectedColors | src/shaders/improvedShader.js:97-101 | the corrected colour lattice places the corrected colour of (i, j) at entry i*4+j |
| ImprovedShader.CorrectedColorWithinCorners | src/shaders/improvedShader.js:97-108 | with the corrected lattice, every fragment colour lies within the range of the patch's four corner colours |
| ImprovedShader.CorrectedBlackCorners | src/shaders/improvedShader.js:97-108 | with the corrected lattice, four black corners give an all-black patch |
| WebGLMeshGradient.SquaredDistance | src/components/WebGLMeshGradient.jsx:23-24 | `d*d` is non-negative and zero for a pixel on the anchor |
| WebGLMeshGradient.Weight | src/components/WebGLMeshGradient.jsx:24 | each weight is positive and at most 1/0.00001, the weight of an anchor at the pixel |
| WebGLMeshGradient.CloserWeighsMore | src/components/WebGLMeshGradient.jsx:23-24 | a strictly closer anchor gets a strictly larger weight |
| WebGLMeshGradient.TotalWeightPositive | src/components/WebGLMeshGradient.jsx:25 | `totalWeight` is positive after any non-empty prefix of the loop, so the final division is defined |
| WebGLMeshGradient.Blend | src/components/WebGLMeshGradient.jsx:18-30 | the total weight is positive, and each channel of `color / totalWeight` is the weighted mean: the sum of weight times channel over the sum of the weights |
| WebGLMeshGradient.InterpolateColor | src/components/WebGLMeshGradient.jsx:18-30 | the accumulation loop returns the weighted sum of the nine colours divided by the total weight |
| WebGLMeshGradient.ChannelOfWeightedSum | src/components/WebGLMeshGradient.jsx:26 | the vector accumulator holds, per channel, the scalar weighted sum |
| WebGLMeshGradient.WeightedSumWithin | src/components/WebGLMeshGradient.jsx:25-26 | with positive weights and channels in [lo, hi], the weighted sum lies between lo and hi times the total weight |
| WebGLMeshGradient.BlendWithin | src/components/WebGLMeshGradient.jsx:29 | each channel of the blend lies in any interval holding that channel of all nine colours |
| WebGLMeshGradient.ChannelMin | src/components/WebGLMeshGradient.jsx:26 | the minimum of a channel over the colours, bounding every one and attained by one |
| WebGLMeshGradient.ChannelMax | src/components/WebGLMeshGradient.jsx:26 | the maximum of a channel over the colours, bounding every one and attained by one |
| WebGLMeshGradient.BlendBetweenExtremes | src/components/WebGLMeshGradient.jsx:18-30 | each channel of the pixel lies between that channel's minimum and maximum over the nine anchors |
| WebGLMeshGradient.BlendOfEqualColors | src/components/WebGLMeshGradient.jsx:18-30 | when all nine anchors share a colour, every pixel has that colour |
| WebGLMeshGradient.FlatPoints | src/components/WebGLMeshGradient.jsx:82 | `u_points` holds 2n numbers, x of point k at 2k and y at 2k+1 |
| WebGLMeshGradient.RemoveFirst | src/components/WebGLMeshGradient.jsx:86 | `replace('#', '')` cuts out the first '#' and only it: the string minus the position of its first '#', and the string itself when there is none |
| WebGLMeshGradient.FirstIndex | src/components/WebGLMeshGradient.jsx:86 | the position of the first occurrence: it holds the character and no earlier position does |
| WebGLMeshGradient.Substr | src/components/WebGLMeshGradient.jsx:88-90 | `substr(start, length)` has at most `length` characters: the slice when it lies inside the string, the tail when it runs past the end, empty when start is past the end |
| WebGLMeshGradient.Over255 | src/components/WebGLMeshGradient.jsx:88-90 | dividing by 255 keeps NaN as NaN, and maps a number to the number whose 255-fold it is |
| WebGLMeshGradient.ParseChannel | src/components/WebGLMeshGradient.jsx:88-90 | two hex digits at `start` give the byte they write divided by 255 |
| WebGLMeshGradient.PairOver255 | src/components/WebGLMeshGradient.jsx:88-90 | the two hex digits at `start`, parsed and divided by 255, give their byte over 255 |
| WebGLMeshGradient.PairValue | src/components/WebGLMeshGradient.jsx:88-90 | `parseInt` of the two hex digits at `start` is the byte they write |
| WebGLMeshGradient.ParseColor | src/components/WebGLMeshGradient.jsx:85-91 | each colour string yields three numbers |
| WebGLMeshGradient.FlatColors | src/components/WebGLMeshGradient.jsx:85-92 | `u_colors` holds three numbers per colour string |
| WebGLMeshGradient.FlatColorsAt | src/components/WebGLMeshGradient.jsx:85-92 | entry 3k+j of `u_colors` is channel j parsed from colour k |
| WebGLMeshGradient.ParseColorChannel | src/components/WebGLMeshGradient.jsx:86-90 | channel j of a well-formed `#rrggbb` is its j-th digit pair's byte divided by 255 |
| WebGLMeshGradient.DigitsAfterHash | src/components/WebGLMeshGradient.jsx:86-90 | with the '#' of a well-formed colour removed, the pair at 2j parses to the colour's pair at 2j+1 over 255 |
| WebGLMeshGradient.WellFormedColorInUnit | src/components/WebGLMeshGradient.jsx:86-90 | every channel parsed from a well-formed colour is a number in [0,1] |
| WebGLMeshGradient.ColorRoundTrip | src/components/WebGLMeshGradient.jsx:85-92 | parsing the colour string written for draw n gives back n's red, green and blue bytes, each divided by 255 |
| WebGLMeshGradient.ParseColorOfValue | src/components/WebGLMeshGradient.jsx:86-90 | a well-formed colour whose six digits are worth n parses to n's three bytes over 255 |
| WebGLMeshGradient.ColorByteIsPair | src/components/WebGLMeshGradient.jsx:86-90 | byte j of the six digits' value, red first, is the j-th digit pair's byte |
| WebGLMeshGradient.FlatWellFormedColors | src/components/WebGLMeshGradient.jsx:85-92 | flattening well-formed colour strings gives only numbers in [0,1], never NaN |

## Left out

- The React components, the WebGL context setup, buffer uploads, the canvas and
  the UI event handlers are left out: they are I/O around the modelled code.
  PointsOverlay.jsx, PointEditor.jsx, MeshGradient.jsx, GradientRenderer.jsx and
  Index.jsx are not part of this model.
- `Math.random()` in `createInitialState` is left out. The caller supplies one
  integer draw in [0, 16777214] per anchor instead.
- Floating point is left out. GLSL `mediump`/`highp` floats and JavaScript
  doubles are exact reals, so rounding, overflow and precision loss are not
  modelled.
- `distance` and `sqrt` are left out. The model uses `d * d` directly as the
  squared Euclidean distance, which is what the shader's weight depends on.
- `clamp` comes from `utils/mathUtils`, which is not part of this model. It is
  taken to be `min(max(x, lo), hi)`.
- Actions whose fields are not numbers, such as strings or `undefined` passed
  as coordinates, are left out. Every field is an integer, a real or a
  direction. `console.error` is left out; the state the reducer returns is
  modelled.
- The default arguments `width = 3, height = 3` of `createInitialState` are left
  out. The model always passes both dimensions.
- GLSL leaves out-of-range uniform array reads undefined, so the model leaves
  them out. `OriginalShader.ShadeOriginal` requires a grid of at least 2x2 with
  at most nine anchors. `ImprovedShader.ShadeImproved` requires 0 <= u_width <= 3.
- The interpolated positions `pos` (original) and `finalPos` (improved) are
  computed but never reach `fragColor`. The model computes and specifies them,
  but nothing is claimed about the rendered geometry.
- `u_height` is declared but never read by the improved shader, and the model
  ignores it there too.
- `WebGLMeshGradient.Substr`: only non-negative start and length are modelled.
  Those are the only arguments the code passes.
- `HexColor.ParseIntHex`: it models `parseInt(s, 16)` with leading whitespace,
  one sign, an optional `0x`/`0X` prefix, the longest run of hex digits, and NaN
  when that run is empty. A radix other than 16 is not modelled; the code always
  passes 16. The whitespace skipped is the ECMAScript WhiteSpace and
  LineTerminator code points.
- `WebGLMeshGradient.SquaredDistance`: it states non-negativity and zero on the
  anchor, but not the converse.
- `WebGLMeshGradient.FlatColors`: its own contract states only the length. The
  entries are stated by `WebGLMeshGradient.FlatColorsAt`.
- `ImprovedShader.ImprovedLattice` and `ImprovedShader.ImprovedColors`: their
  own contracts state the length and the four corners. The other entries are
  stated by `LatticePointAt` and `LatticeColorAt`.
- `ImprovedShader.LatticePoint` and `ImprovedShader.LatticeColor`: their own
  contracts state the four corners. The edge and interior entries are stated
  by `ImprovedLatticeEntries`, `InteriorPoint` and `EdgeColorsReadNextAnchors`.
- `OriginalShader.Lattice`: its own contract states the four corners. The
  edge and interior entries are stated by `CellLatticeEntries`.
- `WebGLMeshGradient.ParseColor`: its own contract states only the count of
  three. The values are stated by `ParseColorChannel` and `ColorRoundTrip`.
- `Numeric.Mix` and `Numeric.Cubic` state only their endpoint values. Their
  range bounds are the separate lemmas `Numeric.MixWithin` and
  `Numeric.CubicWithin`.
- `MeshReducer.CreateInitialState`: for width 1 or height 1 it places the single
  column or row at coordinate 0. The code computes 0/0 and stores NaN there
  (`MeshReducer.InitialAxisAsWritten`, Findings). From 2x2 up the two agree.
- `MeshReducer.InitialStateValid`: holds for the corrected layout. With the
  code's NaN coordinates a 1-wide or 1-high mesh would not be in [0,1]^2.
- `MeshReducer.SetDimensionsEffect`: for width 1 or height 1 it states the
  corrected layout, not the code's NaN. For 2x2 and larger it also ties every
  anchor to the code's own division (`InitialPointAsWritten`).
- `MeshReducer.ReducePreservesValid`: SET_DIMENSIONS keeps the invariant only
  with the corrected layout. The other actions keep it as written.
- `MeshReducer.Reduce`: SET_DIMENSIONS builds the corrected layout for width 1
  or height 1, as above.
- NaN coordinates in actions are not modelled. The page component passes
  `parseFloat(value)` as the x or y of MOVE_POINT and UPDATE_CONTROL_POINT
  (src/pages/Index.jsx:51-52, 61-62). That is NaN for text that is not a
  number, and `clamp` would keep it. The model's coordinates are reals, so
  `MeshReducer.MovePointEffect` and `MeshReducer.UpdateControlPointEffect`
  bound numeric input only. Index.jsx is not part of this model.
- `Patch.CubicColor` states only the endpoint values. Its range bound is the
  separate lemma `Patch.CubicColorWithin`.
- Only the inverse-square blend of `interpolateColor` exists in the code, so
  no other blend kernel is modelled.
- Four behaviours of the code that a reader might not expect:
  - The cell column is not clamped into [0, width-2]
    (`OriginalShader.RightBorderLeavesRow`).
  - A 1-wide or 1-high grid gets NaN coordinates
    (`MeshReducer.SingleColumnGivesNaN`, `MeshReducer.SingleRowGivesNaN`).
    The rest of the reducer model uses the corrected layout, as listed above.
  - Adjacent cells of the original shader do not meet (Findings).
  - Reducer errors return the old state after logging, rather than reporting
    an error value. The model returns the old state too.

## Findings

| source | as written | input that shows it | evidently intended | confidence | as-written member | corrected member |
|---|---|---|---|---|---|---|
| src/reducers/meshReducer.js:5-6 | `(index % width) / (width - 1)` divides by zero when SET_DIMENSIONS (line 26) accepts width or height 1 | `SET_DIMENSIONS` with width 1, height 3: anchor 0 gets x = 0/0 = NaN | a single column (row) sits at coordinate 0, so every anchor stays in [0,1]^2 | not executed | MeshReducer.SingleColumnGivesNaN | MeshReducer.InitialStateValid |
| src/shaders/originalShader.js:85-87 | p11 takes the bottom-right anchor's left handle and p14 its top handle, swapped against p2 and p8 | default handles, shared edge at s = 0.5: the left cell's border and the right cell's border are (-0.0375, 0.0375) apart | p11 from the top handle and p14 from the left handle, so neighbouring patches share their edges | not executed | OriginalShader.SharedVerticalEdgeGap | OriginalShader.CorrectedSharedEdgesMatch |
| src/shaders/improvedShader.js:97-101 | edge colours on row 3 and column 3 blend from corner index u_width or 1, reading the next anchor row or column | 3x3 mesh, anchors 0, 1, 3, 4 black, anchors 6, 7 white: pixel (0.5, 1) is grey (0.75, 0.75, 0.75) | every lattice colour blends the patch's own four corner colours, so black corners give a black patch | not executed | ImprovedShader.BlackCornersGiveGrey | ImprovedShader.CorrectedBlackCorners |
