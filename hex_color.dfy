/** The `#rrggbb` colour strings of the mesh: how the reducer writes them
    (`n.toString(16).padStart(6, '0')`) and how `parseInt(_, 16)` reads hex digits
    back. */
module HexColor {

  /** A JavaScript number as far as this model needs one: a finite real or NaN. */
  datatype Number = Num(value: real) | NaN

  /** One past the largest value `Math.floor(Math.random() * 16777215)` can take. */
  const COLOR_RANGE: nat := 16777215

  predicate IsHexDigit(c: char) {
    '0' <= c <= '9' || 'a' <= c <= 'f' || 'A' <= c <= 'F'
  }

  /** The digits `toString(16)` produces: it writes lower-case letters. */
  predicate IsLowerHexDigit(c: char) {
    '0' <= c <= '9' || 'a' <= c <= 'f'
  }

  predicate AllHex(s: string) {
    forall i | 0 <= i < |s| :: IsHexDigit(s[i])
  }

  function DigitValue(c: char): (v: nat)
    requires IsHexDigit(c)
    ensures v < 16
  {
    if '0' <= c <= '9' then (c as int) - ('0' as int)
    else if 'a' <= c <= 'f' then (c as int) - ('a' as int) + 10
    else (c as int) - ('A' as int) + 10
  }

  /** The lower-case digit `toString(16)` writes for d. */
  function HexDigit(d: nat): (c: char)
    requires d < 16
    ensures IsLowerHexDigit(c) && DigitValue(c) == d
  {
    if d < 10 then ('0' as int + d) as char else ('a' as int + d - 10) as char
  }

  function Pow16(k: nat): (p: nat)
    ensures p >= 1
  {
    if k == 0 then 1 else 16 * Pow16(k - 1)
  }

  /** The value of a string of hex digits, most significant first. */
  function HexValue(s: string): (n: nat)
    requires AllHex(s)
    ensures n < Pow16(|s|)
  {
    if s == [] then 0 else HexValue(s[..|s| - 1]) * 16 + DigitValue(s[|s| - 1])
  }

  /** Appending digits shifts the value of the prefix. */
  lemma {:induction false} HexValueAppend(a: string, b: string)
    requires AllHex(a) && AllHex(b)
    ensures AllHex(a + b)
    ensures HexValue(a + b) == HexValue(a) * Pow16(|b|) + HexValue(b)
  {
    if b == [] {
      assert a + b == a;
    } else {
      var b' := b[..|b| - 1];
      var d := DigitValue(b[|b| - 1]);
      HexValueAppend(a, b');
      assert (a + b)[..|a + b| - 1] == a + b';
      assert (a + b)[|a + b| - 1] == b[|b| - 1];
      assert b[..|b| - 1] == b';
      assert AllHex(a + b');
      ShiftDigit(HexValue(a), HexValue(b'), Pow16(|b'|), d);
    }
  }

  lemma ShiftDigit(x: int, y: int, p: int, d: int)
    ensures (x * p + y) * 16 + d == x * (16 * p) + (y * 16 + d)
  {
  }

  /** `n.toString(16)` for a non-negative integer: the shortest lower-case hex
      numeral of n. */
  function ToHex(n: nat): (s: string)
    ensures 1 <= |s|
    ensures forall i | 0 <= i < |s| :: IsLowerHexDigit(s[i])
    ensures AllHex(s) && HexValue(s) == n
    ensures |s| > 1 ==> s[0] != '0'
  {
    if n < 16 then
      [HexDigit(n)]
    else
      var prefix := ToHex(n / 16);
      var s := prefix + [HexDigit(n % 16)];
      assert s[..|s| - 1] == prefix;
      s
  }

  /** A numeral of n has no more digits than any power of 16 above n allows. */
  lemma {:induction false} ToHexLength(n: nat, k: nat)
    requires 1 <= k && n < Pow16(k)
    ensures |ToHex(n)| <= k
  {
    if n >= 16 {
      assert k >= 2;
      ToHexLength(n / 16, k - 1);
    }
  }

  /** `s.padStart(width, '0')`. */
  function PadStart(s: string, width: nat): (r: string)
    ensures |r| == if |s| >= width then |s| else width
    ensures r[|r| - |s|..] == s
    ensures forall i | 0 <= i < |r| - |s| :: r[i] == '0'
  {
    if |s| >= width then s else seq(width - |s|, _ => '0') + s
  }

  /** Leading zeros do not change the value of a numeral. */
  lemma ZerosPrefixValue(z: string, s: string)
    requires forall i | 0 <= i < |z| :: z[i] == '0'
    requires AllHex(s)
    ensures AllHex(z + s) && HexValue(z + s) == HexValue(s)
  {
    assert AllHex(z);
    HexValueAppend(z, s);
    ZerosValue(z);
  }

  lemma {:induction false} ZerosValue(z: string)
    requires forall i | 0 <= i < |z| :: z[i] == '0'
    ensures AllHex(z) && HexValue(z) == 0
  {
    if z != [] {
      ZerosValue(z[..|z| - 1]);
    }
  }

  /** The colour string createInitialState writes for the draw n:
      `#${n.toString(16).padStart(6, '0')}`. For every draw it is '#' followed by
      exactly six lower-case hex digits whose value is n. */
  function ColorString(n: nat): (c: string)
    requires n < COLOR_RANGE
    ensures |c| == 7 && c[0] == '#'
    ensures forall i | 1 <= i < 7 :: IsLowerHexDigit(c[i])
    ensures AllHex(c[1..]) && HexValue(c[1..]) == n
  {
    var digits := ToHex(n);
    ToHexLength(n, 6);
    var padded := PadStart(digits, 6);
    ZerosPrefixValue(padded[..|padded| - |digits|], digits);
    assert padded == padded[..|padded| - |digits|] + digits;
    var c := "#" + padded;
    assert c[1..] == padded;
    c
  }

  /** The leading whitespace `parseInt` skips (ECMAScript WhiteSpace and
      LineTerminator code points). */
  predicate IsJsWhitespace(c: char) {
    var n := c as int;
    n == 0x09 || n == 0x0A || n == 0x0B || n == 0x0C || n == 0x0D || n == 0x20
    || n == 0xA0 || n == 0x1680 || (0x2000 <= n <= 0x200A) || n == 0x2028
    || n == 0x2029 || n == 0x202F || n == 0x205F || n == 0x3000 || n == 0xFEFF
  }

  /** `parseInt`'s first step: drop the leading whitespace, all of it and
      nothing else. */
  function TrimStart(s: string): (r: string)
    ensures |r| <= |s| && r == s[|s| - |r|..]
    ensures forall i | 0 <= i < |s| - |r| :: IsJsWhitespace(s[i])
    ensures r != [] ==> !IsJsWhitespace(r[0])
  {
    if s != [] && IsJsWhitespace(s[0]) then
      var r := TrimStart(s[1..]);
      assert forall i | 1 <= i < |s| - |r| :: s[i] == s[1..][i - 1];
      r
    else s
  }

  /** The length of the longest prefix of s made of hex digits. */
  function HexRun(s: string): (n: nat)
    ensures n <= |s| && AllHex(s[..n])
    ensures n < |s| ==> !IsHexDigit(s[n])
  {
    if s != [] && IsHexDigit(s[0]) then
      var n := 1 + HexRun(s[1..]);
      assert s[..n] == [s[0]] + s[1..][..n - 1];
      n
    else 0
  }

  /** `parseInt(s, 16)`: skip leading whitespace, take an optional sign, then
      read the magnitude; NaN when there are no digits. A string of hex digits
      reads as its value. */
  function ParseIntHex(s: string): (r: Number)
    ensures r.Num? ==> exists i | 0 <= i < |s| :: IsHexDigit(s[i])
    ensures s != [] && AllHex(s) ==> r == Num(HexValue(s) as real)
  {
    var t := TrimStart(s);
    assert forall i | 0 <= i < |t| :: t[i] == s[|s| - |t| + i];
    assert s != [] && IsHexDigit(s[0]) ==> t == s;
    ParseSigned(t)
  }

  /** Leading whitespace, however much, does not change what `parseInt` reads. */
  lemma {:induction false} ParseIntHexSkipsWhitespace(w: string, s: string)
    requires forall i | 0 <= i < |w| :: IsJsWhitespace(w[i])
    ensures ParseIntHex(w + s) == ParseIntHex(s)
  {
    TrimWhitespacePrefix(w, s);
  }

  lemma {:induction false} TrimWhitespacePrefix(w: string, s: string)
    requires forall i | 0 <= i < |w| :: IsJsWhitespace(w[i])
    ensures TrimStart(w + s) == TrimStart(s)
  {
    if w != [] {
      var ws := w + s;
      assert ws[0] == w[0] && IsJsWhitespace(w[0]);
      assert ws[1..] == w[1..] + s;
      assert TrimStart(ws) == TrimStart(ws[1..]);
      TrimWhitespacePrefix(w[1..], s);
    } else {
      assert w + s == s;
    }
  }

  /** A '-' before a string of hex digits reads as minus their value. */
  lemma ParseIntHexNegative(s: string)
    requires s != [] && AllHex(s)
    ensures ParseIntHex("-" + s) == Num(-(HexValue(s) as real))
  {
    var t := "-" + s;
    assert TrimStart(t) == t;
    NegatedMagnitude(s);
  }

  /** After trimming, '-' then hex digits reads as minus their value. */
  lemma NegatedMagnitude(s: string)
    requires s != [] && AllHex(s)
    ensures ParseSigned("-" + s) == Num(-(HexValue(s) as real))
  {
    var t := "-" + s;
    assert t[1..] == s;
    assert ParseSigned(t) == Negate(ParseMagnitude(s));
  }

  /** The number after leading whitespace: a '-' negates the magnitude that
      follows it, a '+' is dropped. */
  function ParseSigned(t: string): (r: Number)
    ensures r.Num? ==> exists i | 0 <= i < |t| :: IsHexDigit(t[i])
    ensures t != [] && t[0] == '-' ==> r == Negate(ParseMagnitude(t[1..]))
    ensures t != [] && IsHexDigit(t[0]) ==> r == ParseMagnitude(t)
  {
    if t != [] && (t[0] == '-' || t[0] == '+') then
      assert forall i | 0 <= i < |t| - 1 :: t[1..][i] == t[i + 1];
      var m := ParseMagnitude(t[1..]);
      if t[0] == '-' then Negate(m) else m
    else ParseMagnitude(t)
  }

  /** `-x` on a JavaScript number; NaN stays NaN. */
  function Negate(x: Number): (r: Number)
    ensures r.NaN? <==> x.NaN?
    ensures x.Num? ==> r.value == -x.value
  {
    if x.NaN? then NaN else Num(-x.value)
  }

  /** The digits after the sign: an optional `0x`/`0X` prefix is dropped, then the
      longest run of hex digits is read; NaN when that run is empty. The result is
      never negative, and a string of hex digits reads as its value. */
  function ParseMagnitude(u: string): (r: Number)
    ensures r.Num? ==> 0.0 <= r.value && exists i | 0 <= i < |u| :: IsHexDigit(u[i])
    ensures u != [] && AllHex(u) ==> r == Num(HexValue(u) as real)
    ensures var v := if |u| >= 2 && u[0] == '0' && (u[1] == 'x' || u[1] == 'X') then u[2..] else u;
      && (r.NaN? <==> HexRun(v) == 0)
      && (HexRun(v) > 0 ==> r == Num(HexValue(v[..HexRun(v)]) as real))
  {
    HexRunAll(u);
    var v := if |u| >= 2 && u[0] == '0' && (u[1] == 'x' || u[1] == 'X') then u[2..] else u;
    var n := HexRun(v);
    if n == 0 then NaN
    else
      assert v[0] == u[|u| - |v|];
      assert AllHex(u) ==> v == u && v[..n] == u;
      Num(HexValue(v[..n]) as real)
  }

  /** A string of hex digits is one run of digits, all of it. */
  lemma {:induction false} HexRunAll(s: string)
    ensures AllHex(s) ==> HexRun(s) == |s|
  {
    if s != [] && AllHex(s) {
      HexRunAll(s[1..]);
    }
  }

  /** Two hex digits are worth the first times 16 plus the second, at most 255. */
  lemma TwoDigitValue(s: string)
    requires |s| == 2 && AllHex(s)
    ensures HexValue(s) == DigitValue(s[0]) * 16 + DigitValue(s[1]) <= 255
  {
    assert s[..1] == [s[0]];
    assert s[..1][..0] == [];
    assert HexValue(s[..1]) == DigitValue(s[0]);
  }

  /** `parseInt` reads two hex digits back as their value. */
  lemma ParseTwoDigits(s: string)
    requires |s| == 2 && AllHex(s)
    ensures HexValue(s) == DigitValue(s[0]) * 16 + DigitValue(s[1]) <= 255
    ensures ParseIntHex(s) == Num(HexValue(s) as real)
  {
    TwoDigitValue(s);
  }
}
