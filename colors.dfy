/**
 * The colour helpers of `_init_bars`: `hex_to_rgb`, `rgb_to_hex`, and the
 * per-bar gradient step between the configured start and end colours.
 */
module Colors {
  import opened Wrappers
  import opened PyStr

  datatype Rgb = Rgb(r: int, g: int, b: int)

  predicate InByteRange(c: Rgb) {
    0 <= c.r < 256 && 0 <= c.g < 256 && 0 <= c.b < 256
  }

  /** The value of one hexadecimal digit, either case. */
  function HexDigitValue(c: char): (v: Option<int>)
    ensures v.Some? ==> 0 <= v.value < 16
  {
    if '0' <= c <= '9' then Some(c as int - '0' as int)
    else if 'a' <= c <= 'f' then Some(c as int - 'a' as int + 10)
    else if 'A' <= c <= 'F' then Some(c as int - 'A' as int + 10)
    else None
  }

  /** The upper-case digit for `d`, as the `X` format writes it. */
  function HexChar(d: nat): (c: char)
    requires d < 16
    ensures HexDigitValue(c) == Some(d)
  {
    if d < 10 then ('0' as int + d) as char else ('A' as int + d - 10) as char
  }

  /** ASCII upper-casing of one character. */
  function UpperChar(c: char): char {
    if 'a' <= c <= 'z' then (c as int - 32) as char else c
  }

  /**
   * The whitespace `int()` skips around the digits: ASCII space and `\t`..`\r`,
   * and any non-ASCII character `str.isspace` accepts. The ASCII separators
   * U+001C..U+001F count for `str.isspace` but not for `int()`.
   */
  predicate IntSpace(c: char) {
    c == ' ' || ('\t' <= c <= '\r') || ('\U{7F}' <= c && IsSpace(c))
  }

  /**
   * Python's `int(t, 16)` for the slices of at most two characters that
   * `hex_to_rgb` takes: one or two digits, a digit with `int()` whitespace on
   * either side, or a signed digit; anything else raises `ValueError` (`None`).
   */
  function ParseHexSlice(t: string): (v: Option<int>)
    requires |t| <= 2
    ensures v.Some? ==> -16 < v.value < 256
  {
    if |t| == 1 then HexDigitValue(t[0])
    else if |t| == 2 then
      match (HexDigitValue(t[0]), HexDigitValue(t[1]))
      case (Some(hi), Some(lo)) => Some(16 * hi + lo)
      case (None, Some(lo)) =>
        if IntSpace(t[0]) || t[0] == '+' then Some(lo)
        else if t[0] == '-' then Some(-lo)
        else None
      case (Some(hi), None) => if IntSpace(t[1]) then Some(hi) else None
      case (None, None) => None
    else None
  }

  /**
   * `int()` skips a space or a no-break space next to the digit, but raises on
   * the ASCII separator U+001C that `str.isspace` accepts.
   */
  lemma IntSpaceCases()
    ensures ParseHexSlice(" 5") == Some(5) && ParseHexSlice("5\U{A0}") == Some(5)
    ensures ParseHexSlice("\U{1C}5") == None && ParseHexSlice("5\U{1F}") == None
    ensures HexToRgb("#\U{1C}5\U{1C}5\U{1C}5") == None
  {
    assert PySlice("\U{1C}5\U{1C}5\U{1C}5", 0, 2) == "\U{1C}5";
  }

  /** `h.lstrip("#")`. */
  function LStripHash(h: string): (r: string)
    ensures |r| <= |h|
    ensures r == h[|h| - |r|..]
    ensures r == [] || r[0] != '#'
    ensures forall k :: 0 <= k < |h| - |r| ==> h[k] == '#'
  {
    if h != [] && h[0] == '#' then LStripHash(h[1..]) else h
  }

  /** Python's `s[i:j]` for `0 <= i <= j`: the bounds are cut back to the length. */
  function PySlice(s: string, i: nat, j: nat): (r: string)
    requires i <= j
    ensures |r| <= j - i
  {
    if j <= |s| then s[i..j] else if i <= |s| then s[i..] else []
  }

  /**
   * `hex_to_rgb(h)`; `None` when one of the three `int(.., 16)` calls raises,
   * which it does in particular when fewer than five characters follow the `#`s.
   */
  function HexToRgb(h: string): (c: Option<Rgb>)
    ensures c.Some? ==> |LStripHash(h)| >= 5
    ensures c.Some? ==> -16 < c.value.r < 256 && -16 < c.value.g < 256 && -16 < c.value.b < 256
  {
    var d := LStripHash(h);
    match (ParseHexSlice(PySlice(d, 0, 2)), ParseHexSlice(PySlice(d, 2, 4)), ParseHexSlice(PySlice(d, 4, 6)))
    case (Some(r), Some(g), Some(b)) => Some(Rgb(r, g, b))
    case _ => None
  }

  /** The upper-case hexadecimal digits of `n`, without leading zeros. */
  function HexDigits(n: nat): (s: string)
    ensures |s| >= 1
    ensures forall k :: 0 <= k < |s| ==> HexDigitValue(s[k]).Some?
    ensures n < 16 ==> |s| == 1
    ensures 16 <= n < 256 ==> |s| == 2
    decreases n
  {
    if n < 16 then [HexChar(n)] else HexDigits(n / 16) + [HexChar(n % 16)]
  }

  /** Python's `f"{n:02X}"`: zero-padded to two characters, a minus sign counting towards the width. */
  function HexByte(n: int): (s: string)
    ensures |s| >= 2
    ensures n < 0 ==> s[0] == '-'
    ensures 0 <= n < 256 ==> IsHexPair(s)
  {
    if n < 0 then "-" + HexDigits(-n)
    else if n < 16 then "0" + HexDigits(n)
    else HexDigits(n)
  }

  /** `rgb_to_hex(r, g, b)`: a `#RRGGBB` colour whenever the components are bytes. */
  function RgbToHex(c: Rgb): (s: string)
    ensures |s| >= 7 && s[0] == '#'
    ensures InByteRange(c) ==> IsHexColor(s)
  {
    var x, y, z := HexByte(c.r), HexByte(c.g), HexByte(c.b);
    if InByteRange(c) then HexColorOfPairs(x, y, z); "#" + x + y + z
    else "#" + x + y + z
  }

  /** `#` followed by three digit pairs is a `#RRGGBB` colour. */
  lemma HexColorOfPairs(x: string, y: string, z: string)
    requires IsHexPair(x) && IsHexPair(y) && IsHexPair(z)
    ensures IsHexColor("#" + x + y + z)
  {
    var h := "#" + x + y + z;
    assert h[1] == x[0] && h[2] == x[1] && h[3] == y[0] && h[4] == y[1] && h[5] == z[0] && h[6] == z[1];
  }

  /** A colour written `#RRGGBB` with hexadecimal digits of either case. */
  predicate IsHexColor(h: string) {
    |h| == 7 && h[0] == '#' && forall k :: 1 <= k < 7 ==> HexDigitValue(h[k]).Some?
  }

  /** A byte is written as exactly its two upper-case digits. */
  lemma HexByteDigits(n: int)
    requires 0 <= n < 256
    ensures HexByte(n) == [HexChar(n / 16), HexChar(n % 16)]
  {
    if n >= 16 {
      assert HexDigits(n / 16) == [HexChar(n / 16)];
    }
  }

  /** Parsing the two digits of a byte gives the byte back. */
  lemma ParseHexByte(n: int)
    requires 0 <= n < 256
    ensures |HexByte(n)| == 2
    ensures ParseHexSlice(HexByte(n)) == Some(n)
  {
    HexByteDigits(n);
  }

  /**
   * `hex_to_rgb` of `#` followed by three two-character fields parses each
   * field on its own.
   */
  lemma HexToRgbFields(x: string, y: string, z: string, p: int, q: int, r: int)
    requires |x| == 2 && |y| == 2 && |z| == 2 && x[0] != '#'
    requires ParseHexSlice(x) == Some(p) && ParseHexSlice(y) == Some(q) && ParseHexSlice(z) == Some(r)
    ensures HexToRgb("#" + x + y + z) == Some(Rgb(p, q, r))
  {
    var w := x + y + z;
    assert "#" + x + y + z == "#" + w;
    LStripOneHash(w);
    FieldSlices(x, y, z);
  }

  /** The three two-character fields of `x + y + z`, sliced as `hex_to_rgb` slices them. */
  lemma FieldSlices(x: string, y: string, z: string)
    requires |x| == 2 && |y| == 2 && |z| == 2
    ensures PySlice(x + y + z, 0, 2) == x && PySlice(x + y + z, 2, 4) == y && PySlice(x + y + z, 4, 6) == z
  {
    var w := x + y + z;
    assert w[0..2] == x;
    assert w[2..4] == y;
    assert w[4..6] == z;
  }

  lemma LStripOneHash(w: string)
    requires w != [] && w[0] != '#'
    ensures LStripHash("#" + w) == w
  {
    assert ("#" + w)[1..] == w;
  }

  /** `hex_to_rgb(rgb_to_hex(r, g, b)) == (r, g, b)` for every colour with components in 0..255. */
  lemma RgbRoundTrip(c: Rgb)
    requires InByteRange(c)
    ensures HexToRgb(RgbToHex(c)) == Some(c)
  {
    HexByteDigits(c.r);
    ParseHexByte(c.r);
    ParseHexByte(c.g);
    ParseHexByte(c.b);
    HexToRgbFields(HexByte(c.r), HexByte(c.g), HexByte(c.b), c.r, c.g, c.b);
  }

  /** The byte with digits `hi` and `lo` is written as those two digits. */
  lemma DigitPair(hi: int, lo: int)
    requires 0 <= hi < 16 && 0 <= lo < 16
    ensures HexByte(16 * hi + lo) == [HexChar(hi), HexChar(lo)]
  {
    var v := 16 * hi + lo;
    assert v / 16 == hi && v % 16 == lo;
    HexByteDigits(v);
  }

  /** Writing back the value of a digit gives the digit in upper case. */
  lemma HexDigitUpper(c: char)
    requires HexDigitValue(c).Some?
    ensures HexChar(HexDigitValue(c).value) == UpperChar(c)
  {
  }

  /** Two hexadecimal digits of either case. */
  predicate IsHexPair(x: string) {
    |x| == 2 && HexDigitValue(x[0]).Some? && HexDigitValue(x[1]).Some?
  }

  function UpperPair(x: string): string
    requires |x| == 2
  {
    [UpperChar(x[0]), UpperChar(x[1])]
  }

  /** A digit pair parses to a byte that `f"{n:02X}"` writes back as the pair in upper case. */
  lemma HexPairRoundTrip(x: string) returns (v: int)
    requires IsHexPair(x)
    ensures 0 <= v < 256 && ParseHexSlice(x) == Some(v)
    ensures HexByte(v) == UpperPair(x)
  {
    v := 16 * HexDigitValue(x[0]).value + HexDigitValue(x[1]).value;
    DigitPair(HexDigitValue(x[0]).value, HexDigitValue(x[1]).value);
    HexDigitUpper(x[0]);
    HexDigitUpper(x[1]);
  }

  /** The round trip of `#` followed by three digit pairs. */
  lemma HexFieldsRoundTrip(x: string, y: string, z: string)
    requires IsHexPair(x) && IsHexPair(y) && IsHexPair(z)
    ensures HexToRgb("#" + x + y + z).Some? && InByteRange(HexToRgb("#" + x + y + z).value)
    ensures RgbToHex(HexToRgb("#" + x + y + z).value) == "#" + UpperPair(x) + UpperPair(y) + UpperPair(z)
  {
    var p := HexPairRoundTrip(x);
    var q := HexPairRoundTrip(y);
    var r := HexPairRoundTrip(z);
    HexToRgbFields(x, y, z, p, q, r);
  }

  /**
   * `#RRGGBB` parses to components in 0..255, and `rgb_to_hex` writes it back
   * as the same colour in upper case.
   */
  lemma HexColorRoundTrip(h: string)
    requires IsHexColor(h)
    ensures HexToRgb(h).Some? && InByteRange(HexToRgb(h).value)
    ensures RgbToHex(HexToRgb(h).value) == UpperHexColor(h)
  {
    var x, y, z := h[1..3], h[3..5], h[5..7];
    HexColorFields(h);
    HexFieldsRoundTrip(x, y, z);
  }

  /** `#RRGGBB` cut into its three digit pairs. */
  lemma HexColorFields(h: string)
    requires IsHexColor(h)
    ensures IsHexPair(h[1..3]) && IsHexPair(h[3..5]) && IsHexPair(h[5..7])
    ensures h == "#" + h[1..3] + h[3..5] + h[5..7]
    ensures UpperHexColor(h) == "#" + UpperPair(h[1..3]) + UpperPair(h[3..5]) + UpperPair(h[5..7])
  {
    assert HexDigitValue(h[1]).Some? && HexDigitValue(h[2]).Some?;
    assert HexDigitValue(h[3]).Some? && HexDigitValue(h[4]).Some?;
    assert HexDigitValue(h[5]).Some? && HexDigitValue(h[6]).Some?;
  }

  /** A `#RRGGBB` colour with its digits in upper case. */
  function UpperHexColor(h: string): string
    requires |h| == 7
  {
    ['#', UpperChar(h[1]), UpperChar(h[2]), UpperChar(h[3]), UpperChar(h[4]), UpperChar(h[5]), UpperChar(h[6])]
  }

  /** Python's `int(x)` on a float: truncation towards zero. */
  function TruncateToInt(x: real): (n: int)
    ensures x >= 0.0 ==> n as real <= x < n as real + 1.0
    ensures x < 0.0 ==> n as real - 1.0 < x <= n as real
  {
    if x >= 0.0 then x.Floor else -((-x).Floor)
  }

  /** `start + (end - start) * t` with `t = i / max(1, n - 1)`, before truncation. */
  function GradientStep(start: int, end: int, i: nat, n: nat): (x: real)
    ensures i < n ==> Between(x, start, end)
  {
    var d := if n - 1 > 1 then (n - 1) as real else 1.0;
    var t := (i as real) / d;
    if i < n then
      UnitFraction(i as real, d);
      LerpBetween(start, end, t);
      start as real + (end - start) as real * t
    else
      start as real + (end - start) as real * t
  }

  /** `x` lies between the integers `a` and `b`, in either order. */
  ghost predicate Between(x: real, a: int, b: int) {
    (a as real <= x <= b as real) || (b as real <= x <= a as real)
  }

  lemma UnitFraction(i: real, d: real)
    requires 0.0 <= i <= d && d > 0.0
    ensures 0.0 <= i / d <= 1.0
  {
  }

  lemma LerpBetween(s: int, e: int, t: real)
    requires 0.0 <= t <= 1.0
    ensures Between(s as real + (e - s) as real * t, s, e)
  {
    var w := (e - s) as real;
    if w >= 0.0 {
      assert 0.0 <= w * t <= w;
    } else {
      assert w <= w * t <= 0.0;
    }
  }

  /** Truncating a value between two integers stays between them. */
  lemma TruncateBetween(x: real, a: int, b: int)
    requires Between(x, a, b)
    ensures a <= TruncateToInt(x) <= b || b <= TruncateToInt(x) <= a
  {
  }

  /**
   * One channel of bar `i` of `n`: `int(start + (end - start) * t)`. For every
   * bar it lies between the channel's start and end values.
   */
  function GradientChannel(start: int, end: int, i: nat, n: nat): (c: int)
    ensures i < n ==> (start <= c <= end || end <= c <= start)
  {
    var x := GradientStep(start, end, i, n);
    if i < n then TruncateBetween(x, start, end); TruncateToInt(x)
    else TruncateToInt(x)
  }

  /** The fill of bar `i`: between byte-range endpoints, always a `#RRGGBB` colour. */
  function GradientColor(start: Rgb, end: Rgb, i: nat, n: nat): (h: string)
    ensures InByteRange(start) && InByteRange(end) && i < n ==> IsHexColor(h)
  {
    RgbToHex(Rgb(GradientChannel(start.r, end.r, i, n),
                 GradientChannel(start.g, end.g, i, n),
                 GradientChannel(start.b, end.b, i, n)))
  }

  /**
   * The fill colours `_init_bars` gives its `n` bars, or `None` where it raises.
   * The bar width `width / (n * 1.5)` is computed first, so zero bars raise
   * `ZeroDivisionError`. Then both gradient colours are parsed (a malformed one
   * raises, even with the gradient off). Then each bar gets its gradient step,
   * or `barColor`.
   */
  function BarFills(gradient: bool, barColor: string, gradientStart: string, gradientEnd: string, n: nat): (fills: Option<seq<string>>)
    ensures fills.Some? <==> n > 0 && HexToRgb(gradientStart).Some? && HexToRgb(gradientEnd).Some?
    ensures fills.Some? ==> |fills.value| == n
    ensures fills.Some? && !gradient ==> forall k :: 0 <= k < n ==> fills.value[k] == barColor
  {
    if n == 0 then None
    else match (HexToRgb(gradientStart), HexToRgb(gradientEnd))
    case (Some(s), Some(e)) =>
      if gradient then Some(seq(n, i requires 0 <= i < n => GradientColor(s, e, i, n)))
      else Some(seq(n, _ => barColor))
    case _ => None
  }

  /** With byte-range gradient colours, every bar is filled with a `#RRGGBB` colour. */
  lemma GradientFillsAreColors(barColor: string, gradientStart: string, gradientEnd: string, n: nat)
    requires HexToRgb(gradientStart).Some? && InByteRange(HexToRgb(gradientStart).value)
    requires HexToRgb(gradientEnd).Some? && InByteRange(HexToRgb(gradientEnd).value)
    ensures BarFills(true, barColor, gradientStart, gradientEnd, n).Some? <==> n > 0
    ensures forall k :: 0 <= k < n ==> IsHexColor(BarFills(true, barColor, gradientStart, gradientEnd, n).value[k])
  {
    var s, e := HexToRgb(gradientStart).value, HexToRgb(gradientEnd).value;
    if n > 0 {
      var fills := BarFills(true, barColor, gradientStart, gradientEnd, n).value;
      forall k | 0 <= k < n
        ensures IsHexColor(fills[k])
      {
        assert fills[k] == GradientColor(s, e, k, n);
      }
    }
  }

  /**
   * `hex_to_rgb` accepts a signed field such as `-5`, giving a component in
   * -15..-1.
   */
  lemma NegativeComponentParses()
    ensures HexToRgb("#-5-5-5") == Some(Rgb(-5, -5, -5))
  {
    var d := "-5-5-5";
    assert LStripHash("#-5-5-5") == d by {
      assert "#-5-5-5"[1..] == d;
    }
    assert PySlice(d, 0, 2) == "-5" && PySlice(d, 2, 4) == "-5" && PySlice(d, 4, 6) == "-5";
    assert ParseHexSlice("-5") == Some(-5) by {
      assert HexDigitValue('-') == None;
    }
  }

  /**
   * `rgb_to_hex` writes a negative component back with its sign, which is not
   * a `#RRGGBB` colour.
   */
  lemma NegativeComponentWritten()
    ensures RgbToHex(Rgb(-5, -5, -5)) == "#-5-5-5" && !IsHexColor("#-5-5-5")
  {
    assert HexByte(-5) == "-5" by {
      assert HexDigits(5) == "5";
    }
    assert HexDigitValue("#-5-5-5"[1]) == None;
  }

  /** The gradient meets its configured colours exactly: bar 0 has the start colour, the last bar the end colour. */
  lemma GradientEndpoints(start: Rgb, end: Rgb, n: nat)
    requires n > 0
    ensures GradientColor(start, end, 0, n) == RgbToHex(start)
    ensures n >= 2 ==> GradientColor(start, end, n - 1, n) == RgbToHex(end)
  {
    ChannelEndpoints(start.r, end.r, n);
    ChannelEndpoints(start.g, end.g, n);
    ChannelEndpoints(start.b, end.b, n);
  }

  lemma ChannelEndpoints(s: int, e: int, n: nat)
    requires n > 0
    ensures GradientChannel(s, e, 0, n) == s
    ensures n >= 2 ==> GradientChannel(s, e, n - 1, n) == e
  {
    ChannelAt(s, e, 0, n, 0.0);
    TruncateWhole(s);
    if n >= 2 {
      ChannelAt(s, e, n - 1, n, 1.0);
      TruncateWhole(e);
    }
  }

  /** Bar `i`'s channel is the truncation of the linear step at `t`, for `t = i / max(1, n - 1)`. */
  lemma ChannelAt(s: int, e: int, i: nat, n: nat, t: real)
    requires t == 0.0 ==> i == 0
    requires t == 1.0 ==> i == n - 1 >= 1
    requires t == 0.0 || t == 1.0
    ensures GradientChannel(s, e, i, n) == TruncateToInt(s as real + (e - s) as real * t)
  {
    var d := if n - 1 > 1 then (n - 1) as real else 1.0;
    if t == 1.0 {
      assert i as real == d;
      DivSelf(d);
    }
  }

  lemma DivSelf(d: real)
    requires d > 0.0
    ensures d / d == 1.0
  {
  }

  lemma TruncateWhole(k: int)
    ensures TruncateToInt(k as real) == k
  {
    if k < 0 {
      assert -(k as real) == (-k) as real;
    }
  }

  /**
   * With the gradient on and well-formed `#RRGGBB` endpoints, the first and
   * last bars are painted with the configured colours, written in upper case.
   */
  lemma BarFillsEndpoints(barColor: string, gradientStart: string, gradientEnd: string, n: nat)
    requires IsHexColor(gradientStart) && IsHexColor(gradientEnd) && n > 0
    ensures BarFills(true, barColor, gradientStart, gradientEnd, n).Some?
    ensures BarFills(true, barColor, gradientStart, gradientEnd, n).value[0] == UpperHexColor(gradientStart)
    ensures n >= 2 ==>
              BarFills(true, barColor, gradientStart, gradientEnd, n).value[n - 1] == UpperHexColor(gradientEnd)
  {
    HexColorRoundTrip(gradientStart);
    HexColorRoundTrip(gradientEnd);
    GradientEndpoints(HexToRgb(gradientStart).value, HexToRgb(gradientEnd).value, n);
  }
}
