/** The WebGL renderer's own parts: the fragment shader's inverse-square colour
    blend over the nine anchors, and the JavaScript that flattens the anchor points
    and `#rrggbb` colour strings into the float arrays handed to `u_points` and
    `u_colors`. */
module WebGLMeshGradient {
  import opened Numeric
  import opened Vectors
  import opened HexColor

  /** The number of anchors the fragment shader declares and blends. */
  const ANCHORS: nat := 9

  /** The constant added to the squared distance so that no weight is infinite. */
  const EPSILON: real := 0.00001

  /** `d * d` for `d = distance(p, q)`: over the reals the square of the Euclidean
      distance is the sum of the squared coordinate differences. It is zero when the
      pixel sits on the anchor. */
  function SquaredDistance(p: Vec2, q: Vec2): (d2: real)
    ensures 0.0 <= d2
    ensures p == q ==> d2 == 0.0
  {
    var dx, dy := p.x - q.x, p.y - q.y;
    SquareNonneg(dx);
    SquareNonneg(dy);
    dx * dx + dy * dy
  }

  /** A square is never negative. */
  lemma SquareNonneg(a: real)
    ensures 0.0 <= a * a
  {
    if a < 0.0 {
      MulPos(-a, -a);
    }
  }

  /** `1.0 / (d * d + 0.00001)`: the weight of anchor q for pixel p. It is strictly
      positive and never exceeds the weight of an anchor at p itself. */
  function Weight(p: Vec2, q: Vec2): (w: real)
    ensures 0.0 < w <= 1.0 / EPSILON
  {
    var den := SquaredDistance(p, q) + EPSILON;
    ReciprocalDifference(EPSILON, den);
    MulNonneg((1.0 / EPSILON) * (1.0 / den), den - EPSILON);
    1.0 / den
  }

  /** The reciprocals of two positive numbers are positive, and their difference
      is their product times the difference of the numbers, the other way round. */
  lemma ReciprocalDifference(x: real, y: real)
    requires 0.0 < x && 0.0 < y
    ensures 0.0 < 1.0 / x && 0.0 < 1.0 / y
    ensures 1.0 / x - 1.0 / y == (1.0 / x) * (1.0 / y) * (y - x)
    ensures 0.0 < (1.0 / x) * (1.0 / y)
  {
    var a, b := 1.0 / x, 1.0 / y;
    assert a * x == 1.0 && b * y == 1.0;
    calc {
      a * b * (y - x);
      a * (b * y) - b * (a * x);
      a - b;
    }
    MulPos(a, b);
  }

  /** An anchor strictly closer to the pixel weighs strictly more. */
  lemma CloserWeighsMore(p: Vec2, a: Vec2, b: Vec2)
    requires SquaredDistance(p, a) < SquaredDistance(p, b)
    ensures Weight(p, a) > Weight(p, b)
  {
    var x, y := SquaredDistance(p, a) + EPSILON, SquaredDistance(p, b) + EPSILON;
    ReciprocalDifference(x, y);
    MulPos((1.0 / x) * (1.0 / y), y - x);
  }

  /** The weight of each anchor for pixel p. */
  function Weights(p: Vec2, points: seq<Vec2>): (ws: seq<real>)
    ensures |ws| == |points|
    ensures forall i | 0 <= i < |ws| :: 0.0 < ws[i]
  {
    seq(|points|, i requires 0 <= i < |points| => Weight(p, points[i]))
  }

  /** `totalWeight` after the first n iterations: the sum of the first n weights. */
  function TotalWeight(ws: seq<real>, n: nat): (t: real)
    requires n <= |ws|
  {
    if n == 0 then 0.0 else TotalWeight(ws, n - 1) + ws[n - 1]
  }

  /** `color` after the first n iterations: the sum of the first n colours, each
      scaled by its weight. */
  function WeightedSum(ws: seq<real>, colors: seq<Rgb>, n: nat): Rgb
    requires n <= |ws| && n <= |colors|
  {
    if n == 0 then Rgb(0.0, 0.0, 0.0)
    else AddRgb(WeightedSum(ws, colors, n - 1), ScaleRgb(colors[n - 1], ws[n - 1]))
  }

  /** A non-empty sum of positive weights is positive. */
  lemma {:induction false} TotalWeightPositive(ws: seq<real>, n: nat)
    requires 0 < n <= |ws|
    requires forall i | 0 <= i < |ws| :: 0.0 < ws[i]
    ensures 0.0 < TotalWeight(ws, n)
  {
    if n > 1 {
      TotalWeightPositive(ws, n - 1);
    }
  }

  /** The colour `interpolateColor(p)` returns: the weighted sum of the nine
      colours divided by the total weight. Channel by channel it is the weighted
      mean: the sum of weight times channel over the sum of the weights. */
  function Blend(p: Vec2, points: seq<Vec2>, colors: seq<Rgb>): (c: Rgb)
    requires |points| == ANCHORS && |colors| == ANCHORS
    ensures 0.0 < TotalWeight(Weights(p, points), ANCHORS)
    ensures c.r == ChannelSum(Weights(p, points), colors, ANCHORS, 0) / TotalWeight(Weights(p, points), ANCHORS)
    ensures c.g == ChannelSum(Weights(p, points), colors, ANCHORS, 1) / TotalWeight(Weights(p, points), ANCHORS)
    ensures c.b == ChannelSum(Weights(p, points), colors, ANCHORS, 2) / TotalWeight(Weights(p, points), ANCHORS)
  {
    var ws := Weights(p, points);
    TotalWeightPositive(ws, |ws|);
    ChannelOfWeightedSum(ws, colors, |ws|, 0);
    ChannelOfWeightedSum(ws, colors, |ws|, 1);
    ChannelOfWeightedSum(ws, colors, |ws|, 2);
    DivRgb(WeightedSum(ws, colors, |ws|), TotalWeight(ws, |ws|))
  }

  /** `interpolateColor(p)`, accumulating `totalWeight` and `color` over the nine
      anchors. */
  method InterpolateColor(p: Vec2, points: seq<Vec2>, colors: seq<Rgb>) returns (result: Rgb)
    requires |points| == ANCHORS && |colors| == ANCHORS
    ensures result == Blend(p, points, colors)
  {
    ghost var ws := Weights(p, points);
    var totalWeight := 0.0;
    var color := Rgb(0.0, 0.0, 0.0);
    for i := 0 to ANCHORS
      invariant totalWeight == TotalWeight(ws, i)
      invariant color == WeightedSum(ws, colors, i)
    {
      var weight := 1.0 / (SquaredDistance(p, points[i]) + EPSILON);
      assert weight == ws[i];
      totalWeight := totalWeight + weight;
      color := AddRgb(color, ScaleRgb(colors[i], weight));
    }
    TotalWeightPositive(ws, |ws|);
    result := DivRgb(color, totalWeight);
  }

  /** Channel k of the weighted sum after step n is the one after step n - 1 plus
      the n-th weight times channel k of the n-th colour. */
  lemma WeightedSumStep(ws: seq<real>, colors: seq<Rgb>, n: nat, k: nat)
    requires 0 < n <= |ws| && n <= |colors| && k < 3
    ensures Channel(WeightedSum(ws, colors, n), k)
         == Channel(WeightedSum(ws, colors, n - 1), k) + ws[n - 1] * Channel(colors[n - 1], k)
  {
    var a, b := WeightedSum(ws, colors, n - 1), ScaleRgb(colors[n - 1], ws[n - 1]);
    assert WeightedSum(ws, colors, n) == AddRgb(a, b);
    assert Channel(AddRgb(a, b), k) == Channel(a, k) + Channel(b, k);
  }

  /** Channel k of the weighted sum of the first n colours, as a plain sum. */
  function ChannelSum(ws: seq<real>, colors: seq<Rgb>, n: nat, k: nat): real
    requires n <= |ws| && n <= |colors| && k < 3
  {
    if n == 0 then 0.0
    else ChannelSum(ws, colors, n - 1, k) + ws[n - 1] * Channel(colors[n - 1], k)
  }

  /** The colour accumulator holds, channel by channel, the plain weighted sums. */
  lemma {:induction false} ChannelOfWeightedSum(ws: seq<real>, colors: seq<Rgb>, n: nat, k: nat)
    requires n <= |ws| && n <= |colors| && k < 3
    ensures Channel(WeightedSum(ws, colors, n), k) == ChannelSum(ws, colors, n, k)
  {
    if n > 0 {
      ChannelOfWeightedSum(ws, colors, n - 1, k);
      WeightedSumStep(ws, colors, n, k);
    }
  }

  /** s lies between lo times t and hi times t. */
  predicate Between(s: real, t: real, lo: real, hi: real) {
    lo * t <= s <= hi * t
  }

  /** Channel k of the weighted sum of the first n colours lies between lo and hi
      times their total weight, when channel k of each of them lies in [lo, hi]
      and the weights are positive. */
  lemma {:induction false} WeightedSumWithin(ws: seq<real>, colors: seq<Rgb>,
                                             n: nat, k: nat, lo: real, hi: real)
    requires n <= |ws| && n <= |colors| && k < 3
    requires forall i | 0 <= i < n :: 0.0 < ws[i] && ChannelWithin(colors[i], k, lo, hi)
    ensures Between(ChannelSum(ws, colors, n, k), TotalWeight(ws, n), lo, hi)
  {
    if n > 0 {
      WeightedSumWithin(ws, colors, n - 1, k, lo, hi);
      assert ChannelWithin(colors[n - 1], k, lo, hi);
      StepWithin(ChannelSum(ws, colors, n - 1, k), TotalWeight(ws, n - 1), ws[n - 1],
                 Channel(colors[n - 1], k), lo, hi, ChannelSum(ws, colors, n, k), TotalWeight(ws, n));
    }
  }

  /** One more term of weight w and value c in [lo, hi] keeps a weighted sum s
      between lo and hi times its total weight t. */
  lemma StepWithin(s: real, t: real, w: real, c: real, lo: real, hi: real, s': real, t': real)
    requires Between(s, t, lo, hi) && 0.0 < w && lo <= c <= hi
    requires s' == s + w * c && t' == t + w
    ensures Between(s', t', lo, hi)
  {
    MulNonneg(w, c - lo);
    MulNonneg(w, hi - c);
  }

  /** Dividing a sum that lies in [lo*w, hi*w] by the positive w lands in [lo, hi]. */
  lemma QuotientWithin(s: real, w: real, lo: real, hi: real)
    requires 0.0 < w && Between(s, w, lo, hi)
    ensures lo <= s / w <= hi
  {
    var q := s / w;
    assert q * w == s;
    if q < lo {
      MulPos(lo - q, w);
    }
    if hi < q {
      MulPos(q - hi, w);
    }
  }

  /** The blend is a convex combination: channel k of the result lies in any
      interval that holds channel k of all nine colours. */
  lemma BlendWithin(p: Vec2, points: seq<Vec2>, colors: seq<Rgb>, k: nat, lo: real, hi: real)
    requires |points| == ANCHORS && |colors| == ANCHORS && k < 3
    requires forall i | 0 <= i < ANCHORS :: ChannelWithin(colors[i], k, lo, hi)
    ensures ChannelWithin(Blend(p, points, colors), k, lo, hi)
  {
    var ws := Weights(p, points);
    WeightedSumWithin(ws, colors, |ws|, k, lo, hi);
    ChannelOfWeightedSum(ws, colors, |ws|, k);
    TotalWeightPositive(ws, |ws|);
    QuotientWithin(Channel(WeightedSum(ws, colors, |ws|), k), TotalWeight(ws, |ws|), lo, hi);
  }

  /** The smallest channel k among the first n colours. */
  function ChannelMin(colors: seq<Rgb>, k: nat, n: nat): (m: real)
    requires 0 < n <= |colors| && k < 3
    ensures forall i | 0 <= i < n :: m <= Channel(colors[i], k)
    ensures exists i | 0 <= i < n :: m == Channel(colors[i], k)
  {
    if n == 1 then Channel(colors[0], k)
    else
      var m := ChannelMin(colors, k, n - 1);
      var c := Channel(colors[n - 1], k);
      if c < m then c else m
  }

  /** The largest channel k among the first n colours. */
  function ChannelMax(colors: seq<Rgb>, k: nat, n: nat): (m: real)
    requires 0 < n <= |colors| && k < 3
    ensures forall i | 0 <= i < n :: Channel(colors[i], k) <= m
    ensures exists i | 0 <= i < n :: m == Channel(colors[i], k)
  {
    if n == 1 then Channel(colors[0], k)
    else
      var m := ChannelMax(colors, k, n - 1);
      var c := Channel(colors[n - 1], k);
      if c > m then c else m
  }

  /** Each channel of the blend lies between the smallest and the largest value of
      that channel over the nine anchor colours. */
  lemma BlendBetweenExtremes(p: Vec2, points: seq<Vec2>, colors: seq<Rgb>, k: nat)
    requires |points| == ANCHORS && |colors| == ANCHORS && k < 3
    ensures ChannelMin(colors, k, ANCHORS) <= Channel(Blend(p, points, colors), k)
         <= ChannelMax(colors, k, ANCHORS)
  {
    BlendWithin(p, points, colors, k, ChannelMin(colors, k, ANCHORS), ChannelMax(colors, k, ANCHORS));
  }

  /** When all nine anchors carry the same colour, every pixel gets that colour. */
  lemma BlendOfEqualColors(p: Vec2, points: seq<Vec2>, colors: seq<Rgb>, c: Rgb)
    requires |points| == ANCHORS && |colors| == ANCHORS
    requires forall i | 0 <= i < ANCHORS :: colors[i] == c
    ensures Blend(p, points, colors) == c
  {
    var b := Blend(p, points, colors);
    forall k: nat | k < 3 ensures Channel(b, k) == Channel(c, k) {
      BlendWithin(p, points, colors, k, Channel(c, k), Channel(c, k));
    }
    assert b.r == Channel(b, 0) && b.g == Channel(b, 1) && b.b == Channel(b, 2);
  }

  /** `points.flatMap(p => [p.x, p.y])`: the `u_points` array. */
  function FlatPoints(points: seq<Vec2>): (r: seq<real>)
    ensures |r| == 2 * |points|
    ensures forall k | 0 <= k < |points| :: r[2 * k] == points[k].x && r[2 * k + 1] == points[k].y
  {
    if points == [] then []
    else
      var rest := FlatPoints(points[1..]);
      var r := [points[0].x, points[0].y] + rest;
      assert forall k | 1 <= k < |points| :: points[k] == points[1..][k - 1];
      r
  }

  /** `s.replace('#', '')`: a string pattern replaces its first occurrence only.
      The result is s without the first `ch`, or s itself when there is none. */
  function RemoveFirst(s: string, ch: char): (r: string)
    ensures ch !in s ==> r == s
    ensures ch in s ==> exists i | 0 <= i < |s| :: s[i] == ch && ch !in s[..i] && r == s[..i] + s[i + 1..]
    ensures ch in s ==> |r| == |s| - 1
    ensures s != [] && s[0] == ch ==> r == s[1..]
  {
    if ch in s then
      var i := FirstIndex(s, ch);
      assert i == 0 ==> s[..i] + s[i + 1..] == s[1..];
      s[..i] + s[i + 1..]
    else s
  }

  /** The position of the first `ch` in s. */
  function FirstIndex(s: string, ch: char): (i: nat)
    requires ch in s
    ensures i < |s| && s[i] == ch && ch !in s[..i]
  {
    if s[0] == ch then 0
    else
      var i := 1 + FirstIndex(s[1..], ch);
      assert s[..i] == [s[0]] + s[1..][..i - 1];
      i
  }

  /** `s.substr(start, length)` for non-negative arguments: at most `length`
      characters from `start`, none when `start` is past the end. */
  function Substr(s: string, start: nat, length: nat): (r: string)
    ensures |r| <= length
    ensures start + length <= |s| ==> r == s[start..start + length]
    ensures start >= |s| ==> r == []
    ensures start < |s| < start + length ==> r == s[start..]
  {
    if start >= |s| then []
    else if start + length <= |s| then s[start..start + length]
    else s[start..]
  }

  /** `x / 255` on a JavaScript number; NaN stays NaN. */
  function Over255(x: Number): (r: Number)
    ensures r.NaN? <==> x.NaN?
    ensures x.Num? ==> r.value * 255.0 == x.value
  {
    match x
    case NaN => NaN
    case Num(v) => Num(v / 255.0)
  }

  /** `parseInt(hex.substr(start, 2), 16) / 255`. */
  function ParseChannel(hex: string, start: nat): (r: Number)
    ensures start + 2 <= |hex| && IsHexDigit(hex[start]) && IsHexDigit(hex[start + 1]) ==>
              r == Num(PairByte(hex, start) as real / 255.0)
  {
    PairOver255(hex, start);
    Over255(ParseIntHex(Substr(hex, start, 2)))
  }

  /** Two hex digits at `start`, parsed and divided by 255, give the byte they
      write over 255. */
  lemma PairOver255(hex: string, start: nat)
    ensures start + 2 <= |hex| && IsHexDigit(hex[start]) && IsHexDigit(hex[start + 1]) ==>
              Over255(ParseIntHex(Substr(hex, start, 2))) == Num(PairByte(hex, start) as real / 255.0)
  {
    PairValue(hex, start);
  }

  /** Two hex digits at `start` parse to the byte they write. */
  lemma PairValue(hex: string, start: nat)
    ensures start + 2 <= |hex| && IsHexDigit(hex[start]) && IsHexDigit(hex[start + 1]) ==>
              ParseIntHex(Substr(hex, start, 2)) == Num(PairByte(hex, start) as real)
  {
    if start + 2 <= |hex| && IsHexDigit(hex[start]) && IsHexDigit(hex[start + 1]) {
      var pair := Substr(hex, start, 2);
      assert |pair| == 2 && pair[0] == hex[start] && pair[1] == hex[start + 1];
      assert AllHex(pair);
      ParseTwoDigits(pair);
      assert HexValue(pair) == PairByte(hex, start);
    }
  }

  /** The three numbers `flatColors` holds for one colour string: the digit pairs
      at offsets 0, 2 and 4 once the '#' is removed. */
  function ParseColor(c: string): (r: seq<Number>)
    ensures |r| == 3
  {
    var hex := RemoveFirst(c, '#');
    seq(3, j requires 0 <= j < 3 => ParseChannel(hex, 2 * j))
  }

  /** The concatenation of a sequence of sequences, what `flatMap` does with the
      arrays its callback returns. */
  function Concat<T>(parts: seq<seq<T>>): seq<T> {
    if parts == [] then [] else parts[0] + Concat(parts[1..])
  }

  /** Concatenating parts of three entries each gives three entries per part, and
      entry 3k + j is entry j of part k. */
  lemma {:induction false} ConcatTriples<T>(parts: seq<seq<T>>, k: nat, j: nat)
    requires forall i | 0 <= i < |parts| :: |parts[i]| == 3
    requires k < |parts| && j < 3
    ensures |Concat(parts)| == 3 * |parts|
    ensures Concat(parts)[3 * k + j] == parts[k][j]
  {
    ConcatTriplesLength(parts);
    if k > 0 {
      ConcatTriples(parts[1..], k - 1, j);
    }
  }

  lemma {:induction false} ConcatTriplesLength<T>(parts: seq<seq<T>>)
    requires forall i | 0 <= i < |parts| :: |parts[i]| == 3
    ensures |Concat(parts)| == 3 * |parts|
  {
    if parts != [] {
      ConcatTriplesLength(parts[1..]);
    }
  }

  /** The three numbers of each colour, in order. */
  function ParsedColors(colors: seq<string>): (parts: seq<seq<Number>>)
    ensures |parts| == |colors|
    ensures forall k | 0 <= k < |colors| :: |parts[k]| == 3
  {
    seq(|colors|, k requires 0 <= k < |colors| => ParseColor(colors[k]))
  }

  /** `colors.flatMap(...)`: the `u_colors` array, three numbers per colour. */
  function FlatColors(colors: seq<string>): (r: seq<Number>)
    ensures |r| == 3 * |colors|
  {
    ConcatTriplesLength(ParsedColors(colors));
    Concat(ParsedColors(colors))
  }

  /** Entry 3k + j of `u_colors` is channel j parsed from colour k. */
  lemma FlatColorsAt(colors: seq<string>, k: nat, j: nat)
    requires k < |colors| && j < 3
    ensures FlatColors(colors)[3 * k + j] == ParseColor(colors[k])[j]
  {
    ConcatTriples(ParsedColors(colors), k, j);
  }

  /** A '#' followed by six hex digits. */
  predicate WellFormedColor(c: string) {
    |c| == 7 && c[0] == '#' && AllHex(c[1..])
  }

  /** The byte written by the two hex digits at `i` and `i + 1`. */
  function PairByte(c: string, i: nat): (b: nat)
    requires i + 1 < |c| && IsHexDigit(c[i]) && IsHexDigit(c[i + 1])
    ensures b <= 255
  {
    DigitValue(c[i]) * 16 + DigitValue(c[i + 1])
  }

  /** Channel j parsed from a well-formed colour string is the byte written by its
      j-th digit pair, red first, divided by 255. */
  lemma ParseColorChannel(c: string, j: nat)
    requires WellFormedColor(c) && j < 3
    ensures IsHexDigit(c[2 * j + 1]) && IsHexDigit(c[2 * j + 2])
    ensures ParseColor(c)[j] == Num(PairByte(c, 2 * j + 1) as real / 255.0)
  {
    var hex := RemoveFirst(c, '#');
    assert ParseColor(c)[j] == ParseChannel(hex, 2 * j);
    DigitsAfterHash(c, j);
  }

  /** Removing the '#' of a well-formed colour string leaves its six digits, the
      pair at 2j being the colour's pair at 2j + 1. */
  lemma DigitsAfterHash(c: string, j: nat)
    requires WellFormedColor(c) && j < 3
    ensures IsHexDigit(c[2 * j + 1]) && IsHexDigit(c[2 * j + 2])
    ensures ParseChannel(RemoveFirst(c, '#'), 2 * j) == Num(PairByte(c, 2 * j + 1) as real / 255.0)
  {
    var hex := RemoveFirst(c, '#');
    assert hex == c[1..];
    assert hex[2 * j] == c[2 * j + 1] && hex[2 * j + 1] == c[2 * j + 2];
    assert PairByte(hex, 2 * j) == PairByte(c, 2 * j + 1);
  }

  /** Each of the three numbers parsed from a well-formed colour string is a
      number in [0, 1]. */
  lemma WellFormedColorInUnit(c: string, j: nat)
    requires WellFormedColor(c) && j < 3
    ensures ParseColor(c)[j].Num? && 0.0 <= ParseColor(c)[j].value <= 1.0
  {
    ParseColorChannel(c, j);
  }

  /** The six digits of a well-formed colour string, read as one numeral, are its
      three pair bytes as base-256 digits. */
  lemma ColorPairs(c: string)
    requires WellFormedColor(c)
    ensures IsHexDigit(c[1]) && IsHexDigit(c[3]) && IsHexDigit(c[5])
    ensures IsHexDigit(c[2]) && IsHexDigit(c[4]) && IsHexDigit(c[6])
    ensures HexValue(c[1..]) == PairByte(c, 1) * 65536 + PairByte(c, 3) * 256 + PairByte(c, 5)
  {
    var s := c[1..];
    assert s == c[1..3] + s[2..];
    assert s[2..] == c[3..5] + c[5..7];
    HexValueAppend(c[3..5], c[5..7]);
    HexValueAppend(c[1..3], s[2..]);
    TwoDigitValue(c[1..3]);
    TwoDigitValue(c[3..5]);
    TwoDigitValue(c[5..7]);
    assert Pow16(2) == 256;
    assert Pow16(4) == 65536;
  }

  /** Splits a value below 2^24 given as three bytes back into those bytes. */
  lemma ByteDigits(n: int, a: int, b: int, d: int)
    requires 0 <= a < 256 && 0 <= b < 256 && 0 <= d < 256
    requires n == a * 65536 + b * 256 + d
    ensures n / 65536 == a && (n / 256) % 256 == b && n % 256 == d
  {
    DivModOf(n, 65536, a, b * 256 + d);
    DivModOf(n, 256, a * 256 + b, d);
    DivModOf(a * 256 + b, 256, a, b);
  }

  /** Byte j of a 24-bit colour value, red first: `n / 65536`, `(n / 256) % 256`
      and `n % 256`. */
  function ColorByte(n: nat, j: nat): nat
    requires j < 3
  {
    if j == 0 then n / 65536 else if j == 1 then (n / 256) % 256 else n % 256
  }

  /** Parsing the colour string createInitialState writes for the draw n gives
      back n's three bytes, red first, each divided by 255. */
  lemma ColorRoundTrip(n: nat, j: nat)
    requires n < COLOR_RANGE && j < 3
    ensures |ParseColor(ColorString(n))| == 3
    ensures ParseColor(ColorString(n))[j] == Num(ColorByte(n, j) as real / 255.0)
  {
    ParseColorOfValue(ColorString(n), n, j);
  }

  /** A well-formed colour string whose six digits are worth n parses to n's
      three bytes, each divided by 255. */
  lemma ParseColorOfValue(c: string, n: nat, j: nat)
    requires WellFormedColor(c) && HexValue(c[1..]) == n && j < 3
    ensures ParseColor(c)[j] == Num(ColorByte(n, j) as real / 255.0)
  {
    ColorByteIsPair(c, n, j);
    ParseColorChannel(c, j);
  }

  /** Byte j of the value of a well-formed colour string is its j-th pair byte. */
  lemma ColorByteIsPair(c: string, n: nat, j: nat)
    requires WellFormedColor(c) && HexValue(c[1..]) == n && j < 3
    ensures IsHexDigit(c[2 * j + 1]) && IsHexDigit(c[2 * j + 2])
    ensures ColorByte(n, j) == PairByte(c, 2 * j + 1)
  {
    ColorBytes(c, n);
    if j == 2 {
      assert 2 * j + 1 == 5;
    }
  }

  /** The bytes of the value of a well-formed colour string are its pair bytes. */
  lemma ColorBytes(c: string, n: nat)
    requires WellFormedColor(c) && HexValue(c[1..]) == n
    ensures IsHexDigit(c[1]) && IsHexDigit(c[3]) && IsHexDigit(c[5])
    ensures IsHexDigit(c[2]) && IsHexDigit(c[4]) && IsHexDigit(c[6])
    ensures ColorByte(n, 0) == PairByte(c, 1) && ColorByte(n, 1) == PairByte(c, 3)
    ensures ColorByte(n, 2) == PairByte(c, 5)
  {
    ColorPairs(c);
    ByteDigits(n, PairByte(c, 1), PairByte(c, 3), PairByte(c, 5));
  }

  /** Flattening well-formed colour strings gives three numbers in [0, 1] per
      colour. */
  lemma FlatWellFormedColors(colors: seq<string>)
    requires forall k | 0 <= k < |colors| :: WellFormedColor(colors[k])
    ensures forall j | 0 <= j < |FlatColors(colors)| ::
              FlatColors(colors)[j].Num? && 0.0 <= FlatColors(colors)[j].value <= 1.0
  {
    var r := FlatColors(colors);
    forall i | 0 <= i < |r| ensures r[i].Num? && 0.0 <= r[i].value <= 1.0 {
      var k, j := i / 3, i % 3;
      assert i == 3 * k + j;
      FlatEntryInUnit(colors, k, j);
    }
  }

  lemma FlatEntryInUnit(colors: seq<string>, k: nat, j: nat)
    requires k < |colors| && j < 3 && WellFormedColor(colors[k])
    ensures FlatColors(colors)[3 * k + j].Num? && 0.0 <= FlatColors(colors)[3 * k + j].value <= 1.0
  {
    FlatColorsAt(colors, k, j);
    WellFormedColorInUnit(colors[k], j);
  }
}
