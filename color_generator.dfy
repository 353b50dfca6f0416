/** The viewer's colour generator: hexadecimal colour strings and back,
    the HSV to RGB conversion, and the golden-ratio colour of a sensor
    number. JavaScript numbers are reals; the channels are integers. */
module ColorGenerator {
  import opened Wrappers
  import opened RealMath

  /** An RGB colour, one integer per channel. */
  datatype RGB = RGB(r: int, g: int, b: int)

  // ---------------------------------------------------------------------
  // Hexadecimal digits

  /** A digit `/[a-f\d]/i` accepts. */
  predicate IsHexDigit(c: char) {
    '0' <= c <= '9' || 'a' <= c <= 'f' || 'A' <= c <= 'F'
  }

  /** A digit `toString(16)` writes. */
  predicate IsLowerHexDigit(c: char) {
    '0' <= c <= '9' || 'a' <= c <= 'f'
  }

  predicate AllHex(s: string) {
    forall i :: 0 <= i < |s| ==> IsHexDigit(s[i])
  }

  function HexValue(c: char): (d: nat)
    requires IsHexDigit(c)
    ensures d < 16
  {
    if c <= '9' then c as int - '0' as int
    else if c <= 'F' then c as int - 'A' as int + 10
    else c as int - 'a' as int + 10
  }

  function HexChar(d: nat): (c: char)
    requires d < 16
    ensures IsLowerHexDigit(c) && IsHexDigit(c) && HexValue(c) == d
  {
    if d < 10 then (d + '0' as int) as char else (d - 10 + 'a' as int) as char
  }

  /** `n.toString(16)` for a whole number: lowercase digits, no leading
      zeros. */
  function NatToHex(n: nat): (s: string)
    ensures |s| >= 1 && forall i :: 0 <= i < |s| ==> IsLowerHexDigit(s[i])
    ensures n < 16 <==> |s| == 1
    ensures n >= 256 ==> |s| >= 3
    decreases n
  {
    if n < 16 then [HexChar(n)] else NatToHex(n / 16) + [HexChar(n % 16)]
  }

  /** `n.toString(16)` for an integer: a minus sign before the digits of a
      negative one. */
  function ToHex(n: int): (s: string)
    ensures |s| >= 1
    ensures n >= 0 ==> s == NatToHex(n)
  {
    if n < 0 then "-" + NatToHex(-n) else NatToHex(n)
  }

  // ---------------------------------------------------------------------
  // RGBToHex / HextoRGB

  /** One channel of `RGBToHex`: its hexadecimal text, a `0` added before a
      single character. */
  function ChannelHex(n: int): (s: string)
    ensures |s| >= 2
  {
    var h := ToHex(n);
    if |h| == 1 then "0" + h else h
  }

  /** A channel in `0..255` is two lowercase digits, high then low. */
  lemma ChannelDigits(n: int)
    requires 0 <= n <= 255
    ensures ChannelHex(n) == [HexChar(n / 16), HexChar(n % 16)]
  {
    if n < 16 {
      assert HexChar(0) == '0';
    } else {
      assert NatToHex(n / 16) == [HexChar(n / 16)];
    }
  }

  /** `RGBToHex`. */
  function RGBToHex(r: int, g: int, b: int): (s: string)
    ensures |s| >= 7 && s[0] == '#'
  {
    "#" + ChannelHex(r) + ChannelHex(g) + ChannelHex(b)
  }

  /** Two lowercase digits. */
  predicate LowerPair(x: string) {
    |x| == 2 && IsLowerHexDigit(x[0]) && IsLowerHexDigit(x[1])
  }

  /** A channel in `0..255` is two lowercase digits that read back to
      it. */
  lemma ChannelPair(n: int)
    requires 0 <= n <= 255
    ensures LowerPair(ChannelHex(n)) && PairValue(ChannelHex(n)[0], ChannelHex(n)[1]) == n
  {
    ChannelDigits(n);
  }

  /** Two lowercase digits are the channel text of their value. */
  lemma PairChannel(x: string)
    requires LowerPair(x)
    ensures ChannelHex(PairValue(x[0], x[1])) == x
  {
    var v := PairValue(x[0], x[1]);
    ChannelDigits(v);
    assert v / 16 == HexValue(x[0]) && v % 16 == HexValue(x[1]);
    LowerHexChar(x[0]);
    LowerHexChar(x[1]);
  }

  /** `#` and three lowercase pairs: seven characters, the pairs read one
      after the other. */
  lemma ReadPairs(a: string, b: string, c: string)
    requires LowerPair(a) && LowerPair(b) && LowerPair(c)
    ensures var s := "#" + a + b + c;
      |s| == 7 && s[0] == '#' && (forall i :: 1 <= i < 7 ==> IsLowerHexDigit(s[i])) &&
      HextoRGB(s) == Some(RGB(PairValue(a[0], a[1]), PairValue(b[0], b[1]), PairValue(c[0], c[1])))
  {
    var s := "#" + a + b + c;
    assert s[1..] == a + b + c;
    assert AllHex(s[1..]);
  }

  /** Channels in `0..255` give `#` and six lowercase hexadecimal
      digits. */
  lemma RGBToHexFormat(r: int, g: int, b: int)
    requires 0 <= r <= 255 && 0 <= g <= 255 && 0 <= b <= 255
    ensures var s := RGBToHex(r, g, b);
      |s| == 7 && s[0] == '#' && forall i :: 1 <= i < 7 ==> IsLowerHexDigit(s[i])
  {
    ChannelPair(r);
    ChannelPair(g);
    ChannelPair(b);
    ReadPairs(ChannelHex(r), ChannelHex(g), ChannelHex(b));
  }

  /** The value of two hexadecimal digits (`parseInt(pair, 16)`). */
  function PairValue(hi: char, lo: char): (v: nat)
    requires IsHexDigit(hi) && IsHexDigit(lo)
    ensures v <= 255
  {
    HexValue(hi) * 16 + HexValue(lo)
  }

  /** `HextoRGB`: `/^#?([a-f\d]{2})([a-f\d]{2})([a-f\d]{2})$/i`, each pair
      read as a number; anything else gives nothing (`undefined`). */
  function HextoRGB(hex: string): (r: Option<RGB>)
    ensures r.Some? <==> (|hex| == 6 && AllHex(hex)) || (|hex| == 7 && hex[0] == '#' && AllHex(hex[1..]))
    ensures r.Some? ==> 0 <= r.value.r <= 255 && 0 <= r.value.g <= 255 && 0 <= r.value.b <= 255
  {
    var body := if |hex| > 0 && hex[0] == '#' then hex[1..] else hex;
    if |body| == 6 && AllHex(body) then
      Some(RGB(PairValue(body[0], body[1]), PairValue(body[2], body[3]), PairValue(body[4], body[5])))
    else None
  }

  /** Reading back a colour written by `RGBToHex` gives its channels. */
  lemma HexRoundTrip(r: int, g: int, b: int)
    requires 0 <= r <= 255 && 0 <= g <= 255 && 0 <= b <= 255
    ensures HextoRGB(RGBToHex(r, g, b)) == Some(RGB(r, g, b))
  {
    ChannelPair(r);
    ChannelPair(g);
    ChannelPair(b);
    ReadPairs(ChannelHex(r), ChannelHex(g), ChannelHex(b));
  }

  /** A channel above 255 has three digits or more, so its colour string
      is too long to read back. */
  lemma WideChannelRejected(r: int, g: int, b: int)
    requires 0 <= r && 0 <= g && 0 <= b
    requires r > 255 || g > 255 || b > 255
    ensures HextoRGB(RGBToHex(r, g, b)) == None
  {
  }

  /** Writing the channels a lowercase colour string holds gives the
      string back. */
  lemma RGBToHexOfRead(a: string, b: string, c: string)
    requires LowerPair(a) && LowerPair(b) && LowerPair(c)
    ensures HextoRGB("#" + a + b + c).Some?
    ensures var rgb := HextoRGB("#" + a + b + c).value; RGBToHex(rgb.r, rgb.g, rgb.b) == "#" + a + b + c
  {
    ReadPairs(a, b, c);
    PairChannel(a);
    PairChannel(b);
    PairChannel(c);
  }

  /** A lowercase digit is the character of its value. */
  lemma LowerHexChar(c: char)
    requires IsLowerHexDigit(c)
    ensures HexChar(HexValue(c)) == c
  {
  }

  // ---------------------------------------------------------------------
  // HSVtoRGB

  /** JavaScript `i % 6` on an integer: the remainder takes the sign of
      `i`. */
  function JsRem6(i: int): (r: int)
    ensures -6 < r < 6
    ensures i >= 0 ==> r == i % 6
    ensures i < 0 ==> r <= 0
  {
    if i >= 0 then i % 6 else -((-i) % 6)
  }

  /** The sector of `HSVtoRGB`: `Math.floor(h * 6) % 6`. */
  function Sector(h: real): int {
    JsRem6(Floor(h * 6.0))
  }

  /** The three shades of `HSVtoRGB` for the fraction `f` of the hue in
      its sector: `p`, `q` and `t`. */
  function Shades(f: real, s: real, v: real): (pqt: (real, real, real)) {
    (v * (1.0 - s), v * (1.0 - f * s), v * (1.0 - (1.0 - f) * s))
  }

  /** The unrounded channels for the hue, saturation and value; the first
      sector is also what a negative remainder gets. */
  function Channels(h: real, s: real, v: real): (c: (real, real, real)) {
    var i := Floor(h * 6.0);
    var pqt := Shades(h * 6.0 - i as real, s, v);
    var sector := Sector(h);
    var p, q, t := pqt.0, pqt.1, pqt.2;
    if sector == 1 then (q, v, p)
    else if sector == 2 then (p, v, t)
    else if sector == 3 then (p, q, v)
    else if sector == 4 then (t, p, v)
    else if sector == 5 then (v, p, q)
    else (v, t, p)
  }

  /** `HSVtoRGB`: each channel rounded on the 0 to 255 scale. */
  function HSVtoRGB(h: real, s: real, v: real): RGB {
    var c := Channels(h, s, v);
    RGB(Round(c.0 * 255.0), Round(c.1 * 255.0), Round(c.2 * 255.0))
  }

  /** The product of two non-negative numbers is non-negative. */
  lemma NonNegProduct(a: real, b: real)
    requires 0.0 <= a && 0.0 <= b
    ensures 0.0 <= a * b
  {
    if a > 0.0 && b > 0.0 {
      MulPos(a, b);
    }
  }

  /** A number times a fraction lies between 0 and the number. */
  lemma ScaledUnit(v: real, x: real)
    requires 0.0 <= v && 0.0 <= x <= 1.0
    ensures 0.0 <= v * x <= v
  {
    NonNegProduct(v, x);
    NonNegProduct(v, 1.0 - x);
    assert v * (1.0 - x) == v - v * x;
  }

  /** For a fraction `f`, a saturation and a value between 0 and 1, every
      shade lies between 0 and the value. */
  lemma ShadesBounded(f: real, s: real, v: real)
    requires 0.0 <= f <= 1.0 && 0.0 <= s <= 1.0 && 0.0 <= v <= 1.0
    ensures var pqt := Shades(f, s, v);
      0.0 <= pqt.0 <= v && 0.0 <= pqt.1 <= v && 0.0 <= pqt.2 <= v
  {
    ScaledUnit(s, f);
    ScaledUnit(s, 1.0 - f);
    assert f * s == s * f && (1.0 - f) * s == s * (1.0 - f);
    ScaledUnit(v, 1.0 - s);
    ScaledUnit(v, 1.0 - f * s);
    ScaledUnit(v, 1.0 - (1.0 - f) * s);
  }

  /** For a saturation and a value between 0 and 1, every unrounded
      channel lies between 0 and the value, and one of them is the value
      itself, whatever the hue. */
  lemma ChannelsBounded(h: real, s: real, v: real)
    requires 0.0 <= s <= 1.0 && 0.0 <= v <= 1.0
    ensures var c := Channels(h, s, v);
      0.0 <= c.0 <= v && 0.0 <= c.1 <= v && 0.0 <= c.2 <= v && (c.0 == v || c.1 == v || c.2 == v)
  {
    var i := Floor(h * 6.0);
    ShadesBounded(h * 6.0 - i as real, s, v);
  }

  /** A fraction on the 0 to 255 scale rounds into `0..255`. */
  lemma RoundUnit(x: real)
    requires 0.0 <= x <= 1.0
    ensures 0 <= Round(x * 255.0) <= 255
  {
  }

  /** `HSVtoRGB` with a saturation and a value between 0 and 1 gives
      channels in `0..255`, one of them the rounded value, so its colour
      string is well formed and reads back. */
  lemma HSVtoRGBInRange(h: real, s: real, v: real)
    requires 0.0 <= s <= 1.0 && 0.0 <= v <= 1.0
    ensures var c := HSVtoRGB(h, s, v);
      0 <= c.r <= 255 && 0 <= c.g <= 255 && 0 <= c.b <= 255 &&
      (c.r == Round(v * 255.0) || c.g == Round(v * 255.0) || c.b == Round(v * 255.0)) &&
      HextoRGB(RGBToHex(c.r, c.g, c.b)) == Some(c)
  {
    ChannelsBounded(h, s, v);
    var c := Channels(h, s, v);
    RoundUnit(c.0);
    RoundUnit(c.1);
    RoundUnit(c.2);
    var rgb := HSVtoRGB(h, s, v);
    HexRoundTrip(rgb.r, rgb.g, rgb.b);
  }

  /** For a non-negative hue the sector is `floor(h * 6) mod 6`, and the
      colour repeats with period 1 in the hue. */
  lemma HuePeriodic(h: real, s: real, v: real)
    requires h >= 0.0
    ensures 0 <= Sector(h) < 6 && Sector(h) == Floor(h * 6.0) % 6
    ensures Sector(h + 1.0) == Sector(h)
    ensures HSVtoRGB(h + 1.0, s, v) == HSVtoRGB(h, s, v)
  {
    var i := Floor(h * 6.0);
    assert (h + 1.0) * 6.0 == h * 6.0 + 6.0;
    assert Floor((h + 1.0) * 6.0) == i + 6;
    assert (i + 6) % 6 == i % 6;
  }

  // ---------------------------------------------------------------------
  // generateColor

  const GoldenRatioConjugate: real := 0.618033988749895

  /** The colour string `generateColor` hands to Cesium for sensor `n`. */
  function GenerateColorHex(n: real): string {
    var c := HSVtoRGB(JsMod(n * GoldenRatioConjugate, 1.0), 0.5, 0.95);
    RGBToHex(c.r, c.g, c.b)
  }

  /** Every generated colour string is `#` and six lowercase hexadecimal
      digits, and reads back to the HSV colour it came from. */
  lemma GeneratedColorWellFormed(n: real)
    ensures var s := GenerateColorHex(n);
      |s| == 7 && s[0] == '#' && (forall i :: 1 <= i < 7 ==> IsLowerHexDigit(s[i])) &&
      HextoRGB(s) == Some(HSVtoRGB(JsMod(n * GoldenRatioConjugate, 1.0), 0.5, 0.95))
  {
    var c := HSVtoRGB(JsMod(n * GoldenRatioConjugate, 1.0), 0.5, 0.95);
    HSVtoRGBInRange(JsMod(n * GoldenRatioConjugate, 1.0), 0.5, 0.95);
    RGBToHexFormat(c.r, c.g, c.b);
  }
}
