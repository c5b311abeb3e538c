/** The mesh state and its reducer: `createInitialState` lays out a row-major grid
    of anchors with colours and four tangent handles each, and `meshReducer`
    applies the four editing actions, returning the old state for bad input. */
module MeshReducer {
  import opened Numeric
  import opened Vectors
  import opened HexColor

  /** The four tangent handles of an anchor, offsets relative to the anchor. */
  datatype Handles = Handles(top: Vec2, right: Vec2, bottom: Vec2, left: Vec2)

  /** The handle an `UPDATE_CONTROL_POINT` action names. */
  datatype Direction = Top | Right | Bottom | Left

  /** `{ width, height, points, colors, controlPoints }`; colours are the strings
      the colour pickers produce, stored as given. */
  datatype MeshState = MeshState(
    width: int,
    height: int,
    points: seq<Vec2>,
    colors: seq<string>,
    controlPoints: seq<Handles>)

  /** The dispatched actions; `Other` stands for any other `type`. */
  datatype Action =
    | SetDimensions(width: int, height: int)
    | MovePoint(index: int, x: real, y: real)
    | SetColor(index: int, color: string)
    | UpdateControlPoint(pointIndex: int, direction: Direction, x: real, y: real)
    | Other

  /** The handles every anchor starts with. */
  const DEFAULT_HANDLES: Handles :=
    Handles(Vec2(0.0, -0.1), Vec2(0.1, 0.0), Vec2(0.0, 0.1), Vec2(-0.1, 0.0))

  function Handle(h: Handles, d: Direction): Vec2 {
    match d
    case Top => h.top
    case Right => h.right
    case Bottom => h.bottom
    case Left => h.left
  }

  /** `{ ...h, [d]: v }`. */
  function WithHandle(h: Handles, d: Direction, v: Vec2): (r: Handles)
    ensures Handle(r, d) == v
    ensures forall e: Direction | e != d :: Handle(r, e) == Handle(h, e)
  {
    match d
    case Top => h.(top := v)
    case Right => h.(right := v)
    case Bottom => h.(bottom := v)
    case Left => h.(left := v)
  }

  predicate HandlesWithin(h: Handles) {
    forall d: Direction :: InSquare(Handle(h, d), -0.5, 0.5)
  }

  /** The invariant every reachable state keeps: positive dimensions, three
      parallel sequences of width*height entries, anchors in the unit square and
      handles in [-0.5, 0.5]^2. */
  predicate Valid(s: MeshState) {
    && 1 <= s.width && 1 <= s.height
    && |s.points| == s.width * s.height
    && |s.colors| == s.width * s.height
    && |s.controlPoints| == s.width * s.height
    && (forall k | 0 <= k < |s.points| :: InSquare(s.points[k], 0.0, 1.0))
    && (forall k | 0 <= k < |s.controlPoints| :: HandlesWithin(s.controlPoints[k]))
  }

  /** The integers `Math.floor(Math.random() * 16777215)` produced, one per anchor;
      the random source itself is not modelled. */
  predicate ValidDraws(draws: seq<nat>, count: int) {
    |draws| == count && forall k | 0 <= k < |draws| :: draws[k] < COLOR_RANGE
  }

  /** One coordinate of an initial anchor as the code computes it, `k / (n - 1)`
      for the anchor's column (row) k among n columns (rows). With n == 1 this is
      `0 / 0`, which is NaN in JavaScript. */
  function InitialAxisAsWritten(k: int, n: int): (r: Number)
    requires 0 <= k < n
    ensures n == 1 <==> r == NaN
    ensures r.Num? ==> 0.0 <= r.value <= 1.0
  {
    if n == 1 then NaN else Num(k as real / (n - 1) as real)
  }

  /** One coordinate of an initial anchor, with a single column (row) placed at 0
      instead of at `0 / 0`. Wherever the code's value is a number it agrees. */
  function InitialAxis(k: int, n: int): (r: real)
    requires 0 <= k < n
    ensures 0.0 <= r <= 1.0
    ensures k == 0 ==> r == 0.0
    ensures 2 <= n && k == n - 1 ==> r == 1.0
    ensures 2 <= n ==> InitialAxisAsWritten(k, n) == Num(r)
  {
    if n == 1 then 0.0 else k as real / (n - 1) as real
  }

  /** The initial position of anchor `index`: column `index % width`, row
      `floor(index / width)`. */
  function InitialPoint(index: int, width: int, height: int): Vec2
    requires 0 <= index < width * height && 1 <= width
  {
    GridCell(index, width, height);
    Vec2(InitialAxis(index % width, width), InitialAxis(index / width, height))
  }

  /** Column and row of an anchor index stay inside the grid. */
  lemma GridCell(index: int, width: int, height: int)
    requires 0 <= index < width * height && 1 <= width
    ensures 0 <= index % width < width && 0 <= index / width < height
  {
  }

  /** The initial position as the code computes it, component by component. */
  function InitialPointAsWritten(index: int, width: int, height: int): (Number, Number)
    requires 0 <= index < width * height && 1 <= width
  {
    GridCell(index, width, height);
    (InitialAxisAsWritten(index % width, width), InitialAxisAsWritten(index / width, height))
  }

  /** `SET_DIMENSIONS` only rejects dimensions below 1, so a one-column (or one-row)
      mesh gets through and its anchors get a NaN coordinate, outside the unit
      square. */
  lemma SingleColumnGivesNaN(s: MeshState, height: int, draws: seq<nat>)
    requires 1 <= height && ValidDraws(draws, height)
    ensures Reduce(s, SetDimensions(1, height), draws) == CreateInitialState(1, height, draws)
    ensures InitialPointAsWritten(0, 1, height).0 == NaN
  {
  }

  lemma SingleRowGivesNaN(s: MeshState, width: int, draws: seq<nat>)
    requires 1 <= width && ValidDraws(draws, width)
    ensures Reduce(s, SetDimensions(width, 1), draws) == CreateInitialState(width, 1, draws)
    ensures InitialPointAsWritten(0, width, 1).1 == NaN
  {
  }

  /** `createInitialState(width, height)`: anchors on the uniform grid, colour k
      written from draw k, default handles everywhere. The grid is the corrected
      one: a single column or row sits at coordinate 0, where the code computes
      0/0 (see `InitialAxisAsWritten`); from 2x2 up the two agree. */
  function CreateInitialState(width: int, height: int, draws: seq<nat>): (s: MeshState)
    requires 1 <= width && 1 <= height && ValidDraws(draws, width * height)
    ensures s.width == width && s.height == height
    ensures |s.points| == |s.colors| == |s.controlPoints| == width * height
    ensures forall k | 0 <= k < width * height ::
      s.points[k] == InitialPoint(k, width, height)
      && s.colors[k] == ColorString(draws[k])
      && s.controlPoints[k] == DEFAULT_HANDLES
  {
    var n := width * height;
    MeshState(
      width,
      height,
      seq(n, k requires 0 <= k < n => InitialPoint(k, width, height)),
      seq(n, k requires 0 <= k < n => ColorString(draws[k])),
      seq(n, _ => DEFAULT_HANDLES))
  }

  /** A fresh mesh satisfies the state invariant: every anchor in the unit square
      and every handle in [-0.5, 0.5]^2. */
  lemma InitialStateValid(width: int, height: int, draws: seq<nat>)
    requires 1 <= width && 1 <= height && ValidDraws(draws, width * height)
    ensures Valid(CreateInitialState(width, height, draws))
  {
    var s := CreateInitialState(width, height, draws);
    forall k | 0 <= k < |s.points| ensures InSquare(s.points[k], 0.0, 1.0) {
      assert s.points[k] == InitialPoint(k, width, height);
    }
    assert HandlesWithin(DEFAULT_HANDLES);
  }

  /** On a grid of at least 2x2, anchor k sits at `(col / (width-1), row / (height-1))`
      with `col = k % width` and `row = floor(k / width)`. */
  lemma InitialGrid(width: int, height: int, draws: seq<nat>, k: int)
    requires 2 <= width && 2 <= height && ValidDraws(draws, width * height)
    requires 0 <= k < width * height
    ensures CreateInitialState(width, height, draws).points[k]
         == Vec2((k % width) as real / (width - 1) as real, (k / width) as real / (height - 1) as real)
  {
    GridCell(k, width, height);
    var col, row := k % width, k / width;
    assert CreateInitialState(width, height, draws).points[k] == InitialPoint(k, width, height);
    assert InitialAxis(col, width) == col as real / (width - 1) as real;
    assert InitialAxis(row, height) == row as real / (height - 1) as real;
  }

  /** On a grid of at least 2x2 the four corner anchors start at the four corners
      of the unit square. */
  lemma InitialCorners(width: int, height: int, draws: seq<nat>)
    requires 2 <= width && 2 <= height && ValidDraws(draws, width * height)
    ensures var s := CreateInitialState(width, height, draws);
      && s.points[0] == Vec2(0.0, 0.0)
      && s.points[width - 1] == Vec2(1.0, 0.0)
      && s.points[(height - 1) * width] == Vec2(0.0, 1.0)
      && s.points[width * height - 1] == Vec2(1.0, 1.0)
  {
    var n := width * height;
    var bl := (height - 1) * width;
    assert bl + width == n;
    CornerPoint(width, height, 0, 0, 0);
    CornerPoint(width, height, width - 1, 0, width - 1);
    CornerPoint(width, height, bl, height - 1, 0);
    CornerPoint(width, height, n - 1, height - 1, width - 1);
  }

  /** The anchor in column `col` and row `row` starts at `InitialPoint` of its
      index, which is the grid position of that column and row. */
  lemma CornerPoint(width: int, height: int, index: int, row: int, col: int)
    requires 2 <= width && 2 <= height
    requires 0 <= row < height && 0 <= col < width && index == row * width + col
    ensures 0 <= index < width * height
    ensures InitialPoint(index, width, height) == Vec2(InitialAxis(col, width), InitialAxis(row, height))
  {
    RowStartInside(width, height, row);
    DivModOf(index, width, row, col);
  }

  /** Row `row` of a width-by-height grid ends within the grid. */
  lemma RowStartInside(width: int, height: int, row: int)
    requires 1 <= width && 0 <= row < height
    ensures row * width + width <= width * height
  {
    assert (row + 1) * width <= height * width;
  }

  /** Every initial colour is '#' followed by six lower-case hex digits whose value
      is the anchor's draw. */
  lemma InitialColorsWellFormed(width: int, height: int, draws: seq<nat>, k: int)
    requires 1 <= width && 1 <= height && ValidDraws(draws, width * height)
    requires 0 <= k < width * height
    ensures var c := CreateInitialState(width, height, draws).colors[k];
      && |c| == 7 && c[0] == '#'
      && (forall i | 1 <= i < 7 :: IsLowerHexDigit(c[i]))
      && HexValue(c[1..]) == draws[k]
  {
  }

  /** `meshReducer(state, action)`; `draws` supplies the random colours of a
      `SET_DIMENSIONS` that is accepted. */
  function Reduce(s: MeshState, a: Action, draws: seq<nat>): (r: MeshState)
    requires a.SetDimensions? && 1 <= a.width && 1 <= a.height ==> ValidDraws(draws, a.width * a.height)
    ensures a.Other? ==> r == s
    ensures a.SetDimensions? && (a.width < 1 || a.height < 1) ==> r == s
    ensures a.SetDimensions? && 1 <= a.width && 1 <= a.height ==>
      r.width == a.width && r.height == a.height && |r.points| == a.width * a.height
    ensures !a.SetDimensions? ==>
      && r.width == s.width && r.height == s.height
      && |r.points| == |s.points| && |r.colors| == |s.colors| && |r.controlPoints| == |s.controlPoints|
  {
    match a
    case SetDimensions(width, height) =>
      if width < 1 || height < 1 then s else CreateInitialState(width, height, draws)
    case MovePoint(index, x, y) =>
      if index < 0 || index >= |s.points| then s
      else s.(points := s.points[index := Vec2(Clamp(x, 0.0, 1.0), Clamp(y, 0.0, 1.0))])
    case SetColor(index, color) =>
      if index < 0 || index >= |s.colors| then s
      else s.(colors := s.colors[index := color])
    case UpdateControlPoint(index, direction, x, y) =>
      if index < 0 || index >= |s.controlPoints| then s
      else
        var v := Vec2(Clamp(x, -0.5, 0.5), Clamp(y, -0.5, 0.5));
        s.(controlPoints := s.controlPoints[index := WithHandle(s.controlPoints[index], direction, v)])
    case Other => s
  }

  /** `SET_DIMENSIONS` keeps the state when a dimension is below 1 and otherwise
      starts over: the new mesh has the requested size, a fresh layout, fresh
      colours from the draws and default handles, whatever edits the old state
      held. On a grid of at least 2x2 every anchor is where the code puts it. */
  lemma SetDimensionsEffect(s: MeshState, width: int, height: int, draws: seq<nat>)
    requires 1 <= width && 1 <= height ==> ValidDraws(draws, width * height)
    ensures var r := Reduce(s, SetDimensions(width, height), draws);
      && (width < 1 || height < 1 ==> r == s)
      && (1 <= width && 1 <= height ==>
            && r.width == width && r.height == height
            && |r.points| == |r.colors| == |r.controlPoints| == width * height
            && (forall k | 0 <= k < width * height ::
                  r.points[k] == InitialPoint(k, width, height)
                  && r.colors[k] == ColorString(draws[k])
                  && r.controlPoints[k] == DEFAULT_HANDLES))
      && (2 <= width && 2 <= height ==>
            forall k | 0 <= k < width * height ::
              InitialPointAsWritten(k, width, height) == (Num(r.points[k].x), Num(r.points[k].y)))
  {
  }

  /** `MOVE_POINT` with an index outside the points leaves the state alone;
      otherwise exactly that anchor moves, to the clamped target. */
  lemma MovePointEffect(s: MeshState, index: int, x: real, y: real, draws: seq<nat>)
    ensures var r := Reduce(s, MovePoint(index, x, y), draws);
      && (index < 0 || index >= |s.points| ==> r == s)
      && (0 <= index < |s.points| ==>
            && r.width == s.width && r.height == s.height
            && r.colors == s.colors && r.controlPoints == s.controlPoints
            && |r.points| == |s.points|
            && r.points[index] == Vec2(Clamp(x, 0.0, 1.0), Clamp(y, 0.0, 1.0))
            && InSquare(r.points[index], 0.0, 1.0)
            && (0.0 <= x <= 1.0 && 0.0 <= y <= 1.0 ==> r.points[index] == Vec2(x, y))
            && (forall k | 0 <= k < |s.points| && k != index :: r.points[k] == s.points[k]))
  {
  }

  /** Moving the same anchor to the same target twice is the same as once. */
  lemma MovePointIdempotent(s: MeshState, index: int, x: real, y: real, draws: seq<nat>)
    ensures var a := MovePoint(index, x, y);
      Reduce(Reduce(s, a, draws), a, draws) == Reduce(s, a, draws)
  {
  }

  /** `SET_COLOR` stores the colour verbatim at the index and nowhere else; an
      index outside the colours leaves the state alone. */
  lemma SetColorEffect(s: MeshState, index: int, color: string, draws: seq<nat>)
    ensures var r := Reduce(s, SetColor(index, color), draws);
      && (index < 0 || index >= |s.colors| ==> r == s)
      && (0 <= index < |s.colors| ==>
            && r.width == s.width && r.height == s.height
            && r.points == s.points && r.controlPoints == s.controlPoints
            && |r.colors| == |s.colors| && r.colors[index] == color
            && (forall k | 0 <= k < |s.colors| && k != index :: r.colors[k] == s.colors[k]))
  {
  }

  /** `UPDATE_CONTROL_POINT` replaces one handle of one anchor with the clamped
      offset; the anchor's other three handles and every other anchor's handles
      stay as they were. */
  lemma UpdateControlPointEffect(s: MeshState, index: int, d: Direction, x: real, y: real, draws: seq<nat>)
    ensures var r := Reduce(s, UpdateControlPoint(index, d, x, y), draws);
      && (index < 0 || index >= |s.controlPoints| ==> r == s)
      && (0 <= index < |s.controlPoints| ==>
            && r.width == s.width && r.height == s.height
            && r.points == s.points && r.colors == s.colors
            && |r.controlPoints| == |s.controlPoints|
            && Handle(r.controlPoints[index], d) == Vec2(Clamp(x, -0.5, 0.5), Clamp(y, -0.5, 0.5))
            && InSquare(Handle(r.controlPoints[index], d), -0.5, 0.5)
            && (forall e: Direction | e != d ::
                  Handle(r.controlPoints[index], e) == Handle(s.controlPoints[index], e))
            && (forall k | 0 <= k < |s.controlPoints| && k != index ::
                  r.controlPoints[k] == s.controlPoints[k]))
  {
  }

  /** Every action, the default branch included, keeps the state invariant. */
  lemma ReducePreservesValid(s: MeshState, a: Action, draws: seq<nat>)
    requires Valid(s)
    requires a.SetDimensions? && 1 <= a.width && 1 <= a.height ==> ValidDraws(draws, a.width * a.height)
    ensures Valid(Reduce(s, a, draws))
  {
    var r := Reduce(s, a, draws);
    match a
    case UpdateControlPoint(index, d, x, y) =>
      if 0 <= index < |s.controlPoints| {
        var h := r.controlPoints[index];
        forall e: Direction ensures InSquare(Handle(h, e), -0.5, 0.5) {
          if e != d {
            assert Handle(h, e) == Handle(s.controlPoints[index], e);
            assert HandlesWithin(s.controlPoints[index]);
          }
        }
        assert HandlesWithin(h);
      }
    case SetDimensions(width, height) =>
      if 1 <= width && 1 <= height {
        InitialStateValid(width, height, draws);
      }
    case _ =>
  }
}
