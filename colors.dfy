/**
 * The colour helpers of the map front end: the fixed palettes for power
 * sources and infrastructure, conversion between `#rrggbb` text and RGB
 * channels, and linear interpolation between two colours.
 */
module Colors {
  import opened Wrappers
  import opened Text

  /** An RGB colour with integer channels, as the palettes and the converters produce. */
  datatype Rgb = Rgb(r: int, g: int, b: int)

  predicate InRange(c: Rgb) {
    0 <= c.r <= 255 && 0 <= c.g <= 255 && 0 <= c.b <= 255
  }

  const PowerSourceColors: map<string, Rgb> := map[
    "nuclear" := Rgb(255, 100, 100),
    "hydro" := Rgb(100, 150, 255),
    "gas" := Rgb(255, 200, 100),
    "coal" := Rgb(100, 100, 100),
    "wind" := Rgb(150, 255, 150),
    "solar" := Rgb(255, 255, 100),
    "other" := Rgb(200, 150, 255)]

  const InfrastructureColors: map<string, Rgb> := map[
    "submarine" := Rgb(0, 150, 255),
    "terrestrial" := Rgb(255, 0, 255),
    "landingPoint" := Rgb(255, 100, 0)]

  const DefaultInfrastructureColor := Rgb(200, 200, 200)

  /**
   * getSourceColor: the palette colour of a known source, the colour of
   * "other" for a missing, empty or unknown one; always a palette colour.
   */
  function GetSourceColor(source: Option<string>): (c: Rgb)
    ensures c in PowerSourceColors.Values
    ensures source.Some? && source.value in PowerSourceColors ==> c == PowerSourceColors[source.value]
    ensures source.None? || source.value !in PowerSourceColors ==> c == PowerSourceColors["other"]
  {
    if source.Some? && source.value != "" && source.value in PowerSourceColors then PowerSourceColors[source.value]
    else PowerSourceColors["other"]
  }

  /**
   * getInfrastructureColor: the palette colour of a known type, light grey
   * otherwise. No palette colour is that grey, so the grey marks exactly the
   * unknown types.
   */
  function GetInfrastructureColor(kind: Option<string>): (c: Rgb)
    ensures c == DefaultInfrastructureColor <==> kind.None? || kind.value !in InfrastructureColors
    ensures kind.Some? && kind.value in InfrastructureColors ==> c == InfrastructureColors[kind.value]
  {
    if kind.Some? && kind.value != "" && kind.value in InfrastructureColors then InfrastructureColors[kind.value]
    else DefaultInfrastructureColor
  }

  predicate AllHex(s: string) { forall i :: 0 <= i < |s| ==> IsHexDigit(s[i]) }

  /** The text after an optional leading `#`, as `^#?` consumes it. */
  function HexDigitsOf(hex: string): string
  {
    if |hex| == 7 && hex[0] == '#' then hex[1..] else hex
  }

  /** Whether `hex` matches `/^#?([a-f\d]{2})([a-f\d]{2})([a-f\d]{2})$/i`. */
  predicate IsHexColor(hex: string) {
    var d := HexDigitsOf(hex);
    |d| == 6 && AllHex(d)
  }

  /** `parseInt(pair, 16)` for two hexadecimal digits. */
  function PairValue(d: string, i: nat): (v: nat)
    requires i + 2 <= |d| && AllHex(d)
    ensures v == 16 * HexDigitVal(d[i]) + HexDigitVal(d[i + 1]) && v <= 255
  {
    var pair := d[i..i + 2];
    assert pair[..1] == [d[i]] && pair[1] == d[i + 1];
    assert HexValue([d[i]]) == HexDigitVal(d[i]) by {
      assert [d[i]][..0] == [];
    }
    HexValue(pair)
  }

  /** hexToRgb: the three channels of a matching text, black for any other text. */
  function HexToRgb(hex: string): (c: Rgb)
    ensures InRange(c)
    ensures !IsHexColor(hex) ==> c == Rgb(0, 0, 0)
  {
    if IsHexColor(hex) then
      var d := HexDigitsOf(hex);
      Rgb(PairValue(d, 0), PairValue(d, 2), PairValue(d, 4))
    else Rgb(0, 0, 0)
  }

  /** A lower-case hexadecimal digit. */
  function HexChar(d: nat): (c: char)
    requires d < 16
    ensures IsHexDigit(c) && HexDigitVal(c) == d && !('A' <= c <= 'F')
  {
    if d < 10 then ('0' as int + d) as char else ('a' as int + d - 10) as char
  }

  /** `n.toString(16)`: lower-case hexadecimal without leading zeros. */
  function ToHexString(n: nat): (r: string)
    ensures |r| >= 1 && AllHex(r)
  {
    if n < 16 then [HexChar(n)] else ToHexString(n / 16) + [HexChar(n % 16)]
  }

  /**
   * rgbToHex for channels in 0..255: the hexadecimal text of `2^24 + rgb`
   * without its leading `1`, which is `#` and two lower-case digits per
   * channel, red, green, blue.
   */
  function RgbToHex(c: Rgb): (r: string)
    requires InRange(c)
    ensures r == "#" + ByteHex(c.r) + ByteHex(c.g) + ByteHex(c.b)
  {
    var text := ToHexString(0x100_0000 + c.r * 0x1_0000 + c.g * 0x100 + c.b);
    ColorNumberText(c);
    assert text[1..] == ByteHex(c.r) + ByteHex(c.g) + ByteHex(c.b);
    "#" + if |text| > 0 then text[1..] else ""
  }

  /** The two digits of one channel. */
  function ByteHex(x: nat): string
    requires x <= 255
  {
    [HexChar(x / 16), HexChar(x % 16)]
  }

  lemma HexSnoc(q: nat, d: nat)
    requires q >= 1 && d < 16
    ensures ToHexString(16 * q + d) == ToHexString(q) + [HexChar(d)]
  {
  }

  /**
   * The hexadecimal text of `2^24 + rgb` is `1` followed by the two digits of
   * each channel: the leading `1` keeps every channel at two digits, so
   * rgbToHex prints `#` and six digits.
   */
  lemma ColorNumberText(c: Rgb)
    requires InRange(c)
    ensures ToHexString(0x100_0000 + c.r * 0x1_0000 + c.g * 0x100 + c.b) == "1" + ByteHex(c.r) + ByteHex(c.g) + ByteHex(c.b)
  {
    var q := 0x100 + c.r;
    var n := 0x100 * (0x100 * q + c.g) + c.b;
    ColorNumber(c);
    PrefixByte(1, c.r);
    PrefixByte(q, c.g);
    PrefixByte(0x100 * q + c.g, c.b);
  }

  lemma ColorNumber(c: Rgb)
    ensures 0x100 * (0x100 * (0x100 + c.r) + c.g) + c.b == 0x100_0000 + c.r * 0x1_0000 + c.g * 0x100 + c.b
  {
  }

  /** Appending a channel to a number appends its two digits to the number's text. */
  lemma PrefixByte(q: nat, x: nat)
    requires q >= 1 && x <= 255
    ensures ToHexString(0x100 * q + x) == ToHexString(q) + ByteHex(x)
  {
    var hi, lo := x / 16, x % 16;
    assert 0x100 * q + x == 16 * (16 * q + hi) + lo;
    HexSnoc(q, hi);
    HexSnoc(16 * q + hi, lo);
  }

  /** A channel survives printing and reading back. */
  lemma ByteRoundTrip(x: nat)
    requires x <= 255
    ensures 16 * HexDigitVal(ByteHex(x)[0]) + HexDigitVal(ByteHex(x)[1]) == x
  {
  }

  /** hexToRgb undoes rgbToHex for every colour with channels in 0..255. */
  lemma HexRoundTrip(c: Rgb)
    requires InRange(c)
    ensures HexToRgb(RgbToHex(c)) == c
  {
    var hex := RgbToHex(c);
    var d := ByteHex(c.r) + ByteHex(c.g) + ByteHex(c.b);
    assert hex == "#" + d;
    assert HexDigitsOf(hex) == d;
    assert IsHexColor(hex);
    ByteRoundTrip(c.r);
    ByteRoundTrip(c.g);
    ByteRoundTrip(c.b);
  }

  /** A hexadecimal digit printed back from its value is the digit lower-cased. */
  lemma HexCharOfDigit(ch: char)
    requires IsHexDigit(ch)
    ensures HexChar(HexDigitVal(ch)) == LowerChar(ch)
  {
  }

  /**
   * In the other direction rgbToHex undoes hexToRgb up to case: a matching
   * text comes back with a `#` and its digits lower-cased.
   */
  lemma RgbRoundTrip(hex: string)
    requires IsHexColor(hex)
    ensures RgbToHex(HexToRgb(hex)) == "#" + ToLower(HexDigitsOf(hex))
  {
    var d := HexDigitsOf(hex);
    assert HexToRgb(hex) == Rgb(PairValue(d, 0), PairValue(d, 2), PairValue(d, 4));
    DigitsRoundTrip(d);
  }

  /** Six digits read as three channels and printed back come back lower-cased. */
  lemma DigitsRoundTrip(d: string)
    requires |d| == 6 && AllHex(d)
    ensures RgbToHex(Rgb(PairValue(d, 0), PairValue(d, 2), PairValue(d, 4))) == "#" + ToLower(d)
  {
    ChannelDigits(d);
  }

  /** The digits printed for the three channels are the six digits lower-cased. */
  lemma ChannelDigits(d: string)
    requires |d| == 6 && AllHex(d)
    ensures ByteHex(PairValue(d, 0)) + ByteHex(PairValue(d, 2)) + ByteHex(PairValue(d, 4)) == ToLower(d)
  {
    PairDigits(d, 0);
    PairDigits(d, 2);
    PairDigits(d, 4);
    LowerDigits(d);
  }

  /** Six hexadecimal digits, each printed back from its value, are the digits lower-cased. */
  lemma LowerDigits(d: string)
    requires |d| == 6 && AllHex(d)
    ensures ToLower(d) == [HexChar(HexDigitVal(d[0])), HexChar(HexDigitVal(d[1]))]
      + [HexChar(HexDigitVal(d[2])), HexChar(HexDigitVal(d[3]))]
      + [HexChar(HexDigitVal(d[4])), HexChar(HexDigitVal(d[5]))]
  {
    forall i | 0 <= i < 6
      ensures HexChar(HexDigitVal(d[i])) == ToLower(d)[i]
    {
      HexCharOfDigit(d[i]);
    }
  }

  /** The two digits printed for a pair's value are the pair's digits in lower case. */
  lemma PairDigits(d: string, i: nat)
    requires i + 2 <= |d| && AllHex(d)
    ensures ByteHex(PairValue(d, i)) == [HexChar(HexDigitVal(d[i])), HexChar(HexDigitVal(d[i + 1]))]
  {
    var hi, lo := HexDigitVal(d[i]), HexDigitVal(d[i + 1]);
    assert (16 * hi + lo) / 16 == hi && (16 * hi + lo) % 16 == lo;
  }

  /** A colour as the interpolation reads it: three numbers. */
  datatype Color = Color(r: real, g: real, b: real)

  /** `Math.round`: the nearest integer, halves rounded up. */
  function Round(x: real): int
  {
    (x + 0.5).Floor
  }

  function Channel(a: real, b: real, factor: real): int
  {
    Round(a + factor * (b - a))
  }

  /** interpolateColor: each channel moved by `factor` of the way from `color1` to `color2`, then rounded. */
  function InterpolateColor(color1: Color, color2: Color, factor: real): (r: Rgb)
    ensures factor == 0.0 ==> r == Rgb(Round(color1.r), Round(color1.g), Round(color1.b))
    ensures factor == 1.0 ==> r == Rgb(Round(color2.r), Round(color2.g), Round(color2.b))
  {
    Rgb(Channel(color1.r, color2.r, factor), Channel(color1.g, color2.g, factor), Channel(color1.b, color2.b, factor))
  }

  predicate IsWhole(x: real) { x.Floor as real == x }

  /** Rounding an integer gives it back. */
  lemma RoundWhole(x: real)
    requires IsWhole(x)
    ensures Round(x) == x.Floor
  {
  }

  /** Rounding stays between two integers that enclose the value. */
  lemma RoundBetween(x: real, lo: int, hi: int)
    requires lo as real <= x <= hi as real
    ensures lo <= Round(x) <= hi
  {
  }

  /** For whole-number colours, factor 0 gives the first colour and factor 1 the second. */
  lemma InterpolateEnds(color1: Color, color2: Color)
    requires IsWhole(color1.r) && IsWhole(color1.g) && IsWhole(color1.b)
    requires IsWhole(color2.r) && IsWhole(color2.g) && IsWhole(color2.b)
    ensures InterpolateColor(color1, color2, 0.0) == Rgb(color1.r.Floor, color1.g.Floor, color1.b.Floor)
    ensures InterpolateColor(color1, color2, 1.0) == Rgb(color2.r.Floor, color2.g.Floor, color2.b.Floor)
  {
    RoundWhole(color1.r);
    RoundWhole(color1.g);
    RoundWhole(color1.b);
    RoundWhole(color2.r);
    RoundWhole(color2.g);
    RoundWhole(color2.b);
  }

  /** A factor in 0..1 keeps a channel of whole numbers between its two ends. */
  lemma ChannelBetween(a: int, b: int, factor: real)
    requires 0.0 <= factor <= 1.0
    ensures var c := Channel(a as real, b as real, factor);
      (a <= b ==> a <= c <= b) && (b <= a ==> b <= c <= a)
  {
    if a <= b {
      ChannelUp(a, b, factor);
    } else {
      ChannelDown(a, b, factor);
    }
  }

  lemma ChannelUp(a: int, b: int, factor: real)
    requires 0.0 <= factor <= 1.0 && a <= b
    ensures a <= Channel(a as real, b as real, factor) <= b
  {
    var d := b as real - a as real;
    ScaleAtMost(factor, d);
    RoundAfterStep(a, b, factor * d);
  }

  /** Going down from `a` to `b` is going up from `b` by the remaining share. */
  lemma ChannelDown(a: int, b: int, factor: real)
    requires 0.0 <= factor <= 1.0 && b < a
    ensures b <= Channel(a as real, b as real, factor) <= a
  {
    var d := a as real - b as real;
    var rest := 1.0 - factor;
    ScaleAtMost(rest, d);
    Mirror(a as real, b as real, factor);
    RoundAfterStep(b, a, rest * d);
  }

  lemma Mirror(a: real, b: real, f: real)
    ensures a + f * (b - a) == b + (1.0 - f) * (a - b)
  {
  }

  /** Rounding `lo + step` for a step within `0 .. hi - lo` stays within `lo .. hi`. */
  lemma RoundAfterStep(lo: int, hi: int, step: real)
    requires 0.0 <= step <= hi as real - lo as real
    ensures lo <= Round(lo as real + step) <= hi
  {
    RoundBetween(lo as real + step, lo, hi);
  }

  lemma ScaleAtMost(f: real, d: real)
    requires 0.0 <= f <= 1.0 && d >= 0.0
    ensures 0.0 <= f * d <= d
  {
    assert d - f * d == (1.0 - f) * d;
  }

  /** The interpolated colour of two in-range colours is in range. */
  lemma InterpolateInRange(color1: Rgb, color2: Rgb, factor: real)
    requires InRange(color1) && InRange(color2) && 0.0 <= factor <= 1.0
    ensures InRange(InterpolateColor(
      Color(color1.r as real, color1.g as real, color1.b as real),
      Color(color2.r as real, color2.g as real, color2.b as real), factor))
  {
    ChannelBetween(color1.r, color2.r, factor);
    ChannelBetween(color1.g, color2.g, factor);
    ChannelBetween(color1.b, color2.b, factor);
  }
}
