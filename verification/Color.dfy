/** Hex text and hue, saturation and value, in exact real arithmetic. */
module Color {
  import opened Calendar
  import opened Digits
  import opened Prelude

  /** `h` in degrees; `s` and `v` from 0 to 1. */
  datatype Hsv = Hsv(h: real, s: real, v: real)

  datatype Rgb = Rgb(r: real, g: real, b: real)

  const DEFAULT_HEX := "#34c77b"

  function Min(a: real, b: real): real {
    if a < b then a else b
  }

  function Max(a: real, b: real): real {
    if a > b then a else b
  }

  function Clamp(value: real, low: real, high: real): real {
    Min(high, Max(low, value))
  }

  function Abs(x: real): real {
    if x < 0.0 then -x else x
  }

  /** `%` of ECMA-262 5.1, section 11.5.3: the quotient is truncated, the sign is the dividend's. */
  function Rem(x: real, m: real): real
    requires m > 0.0
  {
    var q := x / m;
    x - m * (if q >= 0.0 then q.Floor else -((-q).Floor)) as real
  }

  // ---- Channels and hue ----

  function Part(whole: real, share: real): real {
    whole * share
  }

  function Over(a: real, b: real): real
    requires b != 0.0
  {
    a / b
  }

  /** The sector coordinate of a colour that is not grey: 0 red, 2 green, 4 blue. */
  function Sector(c: Rgb, max: real, span: real): real
    requires span != 0.0
  {
    if max == c.r then Rem(Over(c.g - c.b, span), 6.0)
    else if max == c.g then Over(c.b - c.r, span) + 2.0
    else Over(c.r - c.g, span) + 4.0
  }

  /** `hexToHsv`, from the three channels on. */
  function ToHsv(c: Rgb): Hsv {
    var max := Max(Max(c.r, c.g), c.b);
    var span := max - Min(Min(c.r, c.g), c.b);
    var h := if span != 0.0 then Rem(Sector(c, max, span) * 60.0 + 360.0, 360.0) else 0.0;
    Hsv(h, if max == 0.0 then 0.0 else Over(span, max), max)
  }

  /** The row of the table for a sector, before the base is added. */
  function TableRow(sector: int, chroma: real, second: real): Rgb
    requires 0 <= sector < 6
  {
    match sector
    case 0 => Rgb(chroma, second, 0.0)
    case 1 => Rgb(second, chroma, 0.0)
    case 2 => Rgb(0.0, chroma, second)
    case 3 => Rgb(0.0, second, chroma)
    case 4 => Rgb(second, 0.0, chroma)
    case _ => Rgb(chroma, 0.0, second)
  }

  function SectorOf(h: real): (sector: int)
    ensures 0 <= sector < 6
  {
    Rem360Range(h);
    Rem360Range(Rem(h, 360.0) + 360.0);
    (Rem(Rem(h, 360.0) + 360.0, 360.0) / 60.0).Floor
  }

  /** `hsvToHex`, up to the three channels. */
  function ToRgb(c: Hsv): Rgb {
    var chroma := Part(c.v, Clamp(c.s, 0.0, 1.0));
    var second := Part(chroma, 1.0 - Abs(Rem(c.h / 60.0, 2.0) - 1.0));
    var base := c.v - chroma;
    var row := TableRow(SectorOf(c.h), chroma, second);
    Rgb(row.r + base, row.g + base, row.b + base)
  }

  lemma Rem360Range(x: real)
    ensures -360.0 < Rem(x, 360.0) < 360.0
    ensures x >= 0.0 ==> Rem(x, 360.0) >= 0.0
  {
  }

  lemma Rem360Of(x: real)
    ensures 0.0 <= x < 360.0 ==> Rem(x, 360.0) == x
    ensures 360.0 <= x < 720.0 ==> Rem(x, 360.0) == x - 360.0
  {
    if 0.0 <= x < 360.0 {
      assert (x / 360.0).Floor == 0;
    } else if 360.0 <= x < 720.0 {
      assert (x / 360.0).Floor == 1;
    }
  }

  lemma Rem2Of(x: real)
    ensures 0.0 <= x < 2.0 ==> Rem(x, 2.0) == x
    ensures 2.0 <= x < 4.0 ==> Rem(x, 2.0) == x - 2.0
    ensures 4.0 <= x < 6.0 ==> Rem(x, 2.0) == x - 4.0
  {
    if 0.0 <= x < 2.0 {
      assert (x / 2.0).Floor == 0;
    } else if 2.0 <= x < 4.0 {
      assert (x / 2.0).Floor == 1;
    } else if 4.0 <= x < 6.0 {
      assert (x / 2.0).Floor == 2;
    }
  }

  lemma Rem6Small(x: real)
    requires -6.0 < x < 6.0
    ensures Rem(x, 6.0) == x
  {
  }

  ghost predicate InUnit(c: Rgb) {
    0.0 <= c.r <= 1.0 && 0.0 <= c.g <= 1.0 && 0.0 <= c.b <= 1.0
  }

  /** The height of the second channel, by sector coordinate: up in the even sectors, down in the odd ones. */
  function Rise(x: real): real {
    if x < 1.0 then x
    else if x < 2.0 then 2.0 - x
    else if x < 3.0 then x - 2.0
    else if x < 4.0 then 4.0 - x
    else if x < 5.0 then x - 4.0
    else 6.0 - x
  }

  /** `hsvToHex`'s sector and second channel, from the sector coordinate. */
  lemma ToRgbBySector(h: real, x: real)
    requires 0.0 <= x < 6.0 && h == 60.0 * x
    ensures SectorOf(h) == x.Floor
    ensures 1.0 - Abs(Rem(h / 60.0, 2.0) - 1.0) == Rise(x)
  {
    hide Rem;
    Rem360Of(h);
    Rem360Of(Rem(h, 360.0) + 360.0);
    assert h / 60.0 == x;
    Rem2Of(x);
  }

  lemma HueFromSector(x: real)
    requires -1.0 <= x < 6.0
    ensures Rem(x * 60.0 + 360.0, 360.0) == (if x < 0.0 then 60.0 * (x + 6.0) else 60.0 * x)
  {
    hide Rem;
    Rem360Of(x * 60.0 + 360.0);
  }

  /** The three channels by sector coordinate. */
  function Channels(x: real, v: real, chroma: real): Rgb
    requires 0.0 <= x < 6.0
  {
    var row := TableRow(x.Floor, chroma, Part(chroma, Rise(x)));
    Rgb(row.r + (v - chroma), row.g + (v - chroma), row.b + (v - chroma))
  }

  lemma ToRgbIs(h: real, s: real, v: real, x: real, chroma: real)
    requires 0.0 <= x < 6.0 && h == 60.0 * x && 0.0 <= s <= 1.0 && chroma == Part(v, s)
    ensures ToRgb(Hsv(h, s, v)) == Channels(x, v, chroma)
  {
    hide Rem, SectorOf, TableRow, Rise, Part;
    ToRgbBySector(h, x);
    assert Clamp(s, 0.0, 1.0) == s;
  }

  lemma PartOfRatio(d: real, span: real)
    requires span > 0.0
    ensures Part(span, Over(d, span)) == d
  {
  }

  lemma RatioOfPart(span: real, q: real)
    requires span > 0.0
    ensures Over(Part(span, q), span) == q
  {
  }

  lemma Negated(span: real, q: real)
    ensures Part(span, -q) == -Part(span, q)
  {
  }

  lemma AtMostOne(span: real, q: real)
    requires span > 0.0 && Part(span, q) <= span
    ensures q <= 1.0
  {
  }

  lemma Signs(span: real, q: real)
    requires span > 0.0
    ensures (q < 0.0 <==> Part(span, q) < 0.0) && (q == 1.0 ==> Part(span, q) == span)
  {
  }

  /** A difference of two channels, in units of the span. */
  lemma Share(d: real, span: real, q: real)
    requires span > 0.0 && -span <= d <= span && q == Over(d, span)
    ensures Part(span, q) == d && Part(span, -q) == -d && -1.0 <= q <= 1.0
    ensures (q < 0.0 <==> d < 0.0) && (q == 1.0 <==> d == span) && (q == -1.0 <==> d == -span)
  {
    hide Part, Over;
    PartOfRatio(d, span);
    Negated(span, q);
    AtMostOne(span, q);
    AtMostOne(span, -q);
    Signs(span, q);
    Signs(span, -q);
    RatioOfPart(span, 1.0);
    RatioOfPart(span, -1.0);
    Whole(span);
  }

  lemma Whole(span: real)
    ensures Part(span, 1.0) == span && Part(span, -1.0) == -span && Part(span, 0.0) == 0.0
  {
  }

  /** Red at least as high as the others. */
  lemma RedHighest(c: Rgb, span: real, q: real, x: real)
    requires c.r >= c.g && c.r >= c.b && span == c.r - Min(c.g, c.b) && span > 0.0
    requires q == Over(c.g - c.b, span) && x == (if q < 0.0 then q + 6.0 else q)
    ensures 0.0 <= x < 6.0 && Channels(x, c.r, span) == c
  {
    Share(c.g - c.b, span, q);
    if q < 0.0 {
      assert Rise(x) == -q;
    } else {
      assert q < 1.0 ==> Rise(x) == q;
    }
  }

  /** Green highest, and higher than red. */
  lemma GreenHighest(c: Rgb, span: real, q: real, x: real)
    requires c.g > c.r && c.g >= c.b && span == c.g - Min(c.r, c.b) && span > 0.0
    requires q == Over(c.b - c.r, span) && x == q + 2.0
    ensures 0.0 <= x < 6.0 && Channels(x, c.g, span) == c
  {
    Share(c.b - c.r, span, q);
    if q < 0.0 {
      assert Rise(x) == -q;
    } else {
      assert q < 1.0 ==> Rise(x) == q;
    }
  }

  /** Blue higher than both. */
  lemma BlueHighest(c: Rgb, span: real, q: real, x: real)
    requires c.b > c.r && c.b > c.g && span == c.b - Min(c.r, c.g) && span > 0.0
    requires q == Over(c.r - c.g, span) && x == q + 4.0
    ensures 0.0 <= x < 6.0 && Channels(x, c.b, span) == c
  {
    Share(c.r - c.g, span, q);
    if q < 0.0 {
      assert Rise(x) == -q;
    } else {
      assert q < 1.0 ==> Rise(x) == q;
    }
  }

  /** A colour with some saturation is the channels of its own sector coordinate. */
  lemma ColourfulChannels(c: Rgb, max: real, span: real)
    requires InUnit(c)
    requires max == Max(Max(c.r, c.g), c.b) && span == max - Min(Min(c.r, c.g), c.b) && span > 0.0
    ensures
      var h := Rem(Sector(c, max, span) * 60.0 + 360.0, 360.0);
      0.0 <= h < 360.0 && Channels(h / 60.0, max, span) == c
  {
    hide Rem, Channels;
    if max == c.r {
      var q := Over(c.g - c.b, span);
      var x := if q < 0.0 then q + 6.0 else q;
      RedHighest(c, span, q, x);
      Share(c.g - c.b, span, q);
      Rem6Small(q);
      HueFromSector(q);
    } else if max == c.g {
      var q := Over(c.b - c.r, span);
      GreenHighest(c, span, q, q + 2.0);
      Share(c.b - c.r, span, q);
      HueFromSector(q + 2.0);
    } else {
      var q := Over(c.r - c.g, span);
      BlueHighest(c, span, q, q + 4.0);
      Share(c.r - c.g, span, q);
      HueFromSector(q + 4.0);
    }
  }

  lemma GreyChannels(v: real)
    ensures Channels(0.0, v, 0.0) == Rgb(v, v, v)
  {
  }

  lemma SaturationTimesValue(max: real, span: real)
    requires 0.0 <= span <= max
    ensures
      var s := if max == 0.0 then 0.0 else Over(span, max);
      0.0 <= s <= 1.0 && Part(max, s) == span
  {
    if max > 0.0 {
      PartOfRatio(span, max);
      AtMostOne(max, Over(span, max));
    }
  }

  /** To hue, saturation and value and back is the identity on every colour, all six sectors and the greys. */
  lemma ChannelsRoundTrip(c: Rgb)
    requires InUnit(c)
    ensures ToRgb(ToHsv(c)) == c
  {
    hide Rem, Sector, Channels, ToRgb;
    var max := Max(Max(c.r, c.g), c.b);
    var span := max - Min(Min(c.r, c.g), c.b);
    var t := ToHsv(c);
    SaturationTimesValue(max, span);
    if span == 0.0 {
      ToRgbIs(0.0, t.s, max, 0.0, 0.0);
      GreyChannels(max);
    } else {
      ColourfulChannels(c, max, span);
      ToRgbIs(t.h, t.s, max, t.h / 60.0, span);
    }
  }

  /** Where the wheel starts and which way it turns: red at 0, yellow at 60, green, cyan, blue, and purple at 300. */
  lemma WheelColours(low: real, high: real)
    requires 0.0 <= low < high <= 1.0
    ensures
      var s := Over(high - low, high);
      && ToHsv(Rgb(high, low, low)) == Hsv(0.0, s, high)
      && ToHsv(Rgb(high, high, low)) == Hsv(60.0, s, high)
      && ToHsv(Rgb(low, high, low)) == Hsv(120.0, s, high)
      && ToHsv(Rgb(low, high, high)) == Hsv(180.0, s, high)
      && ToHsv(Rgb(low, low, high)) == Hsv(240.0, s, high)
      && ToHsv(Rgb(high, low, high)) == Hsv(300.0, s, high)
  {
    hide Rem, Over;
    var span := high - low;
    NoShare(span);
    Rem6Small(0.0);
    Rem6Small(1.0);
    Rem6Small(-1.0);
    HueFromSector(0.0);
    HueFromSector(1.0);
    HueFromSector(2.0);
    HueFromSector(3.0);
    HueFromSector(4.0);
    HueFromSector(-1.0);
  }

  lemma NoShare(span: real)
    requires span > 0.0
    ensures Over(0.0, span) == 0.0 && Over(span, span) == 1.0 && Over(-span, span) == -1.0
  {
    assert -span / span == -(span / span);
  }

  /** The sector of any hue at all, turned round the wheel as often as need be. */
  lemma SectorInTerms(h: real)
    ensures SectorOf(h) == (h / 60.0).Floor % 6
  {
    hide Rem;
    var turns := if h / 360.0 >= 0.0 then (h / 360.0).Floor else -(-(h / 360.0)).Floor;
    var within := Rem(h, 360.0);
    RemTurns(h, turns);
    Rem360Range(h);
    Rem360Of(within + 360.0);
    WholeTurns(h, within, turns);
    if within >= 0.0 {
      assert SectorOf(h) == (within / 60.0).Floor;
    } else {
      WholeTurns(within + 360.0, within, 1);
      assert SectorOf(h) == ((within + 360.0) / 60.0).Floor;
    }
  }

  lemma RemTurns(h: real, turns: int)
    requires turns == if h / 360.0 >= 0.0 then (h / 360.0).Floor else -(-(h / 360.0)).Floor
    ensures h == Rem(h, 360.0) + 360.0 * turns as real
  {
  }

  /** A whole turn is six sectors. */
  lemma WholeTurns(h: real, within: real, turns: int)
    requires h == within + 360.0 * turns as real
    ensures (h / 60.0).Floor == (within / 60.0).Floor + 6 * turns
    ensures (h / 60.0).Floor % 6 == (within / 60.0).Floor % 6
  {
    assert h / 60.0 == within / 60.0 + (6 * turns) as real;
    SixMore((h / 60.0).Floor, (within / 60.0).Floor, turns);
  }

  lemma SixMore(a: int, b: int, turns: int)
    requires a == b + 6 * turns
    ensures a % 6 == b % 6
  {
    assert a == 6 * (a / 6) + a % 6 && b == 6 * (b / 6) + b % 6;
  }

  /** Saturation is held between 0 and 1, and so is every channel that is printed. */
  lemma OutOfRangeIsClamped(c: Hsv, channel: real)
    ensures c.s > 1.0 ==> ToRgb(c) == ToRgb(c.(s := 1.0))
    ensures c.s < 0.0 ==> ToRgb(c) == ToRgb(c.(s := 0.0))
    ensures channel >= 1.0 ==> ChannelText(channel) == ['f', 'f']
    ensures channel <= 0.0 ==> ChannelText(channel) == ['0', '0']
  {
    hide Rem, SectorOf, TableRow, Part;
    PairRoundTrip('f', 'f');
    PairRoundTrip('0', '0');
    assert Clamp(1.0, 0.0, 1.0) == 1.0 && Clamp(0.0, 0.0, 1.0) == 0.0;
  }

  /** Grey has no hue and no saturation. */
  lemma GreyHasNoHue(v: real)
    ensures ToHsv(Rgb(v, v, v)) == Hsv(0.0, 0.0, v)
  {
  }

  // ---- The other way round ----

  ghost predicate OnWheel(c: Hsv) {
    0.0 <= c.h < 360.0 && 0.0 <= c.s <= 1.0 && 0.0 <= c.v <= 1.0
  }

  lemma Scale(chroma: real, k: real)
    requires chroma > 0.0 && 0.0 <= k <= 1.0
    ensures 0.0 <= Part(chroma, k) <= chroma
    ensures Part(chroma, k) == chroma ==> k == 1.0
    ensures Over(Part(chroma, k), chroma) == k && Over(-Part(chroma, k), chroma) == -k
  {
    RatioOfPart(chroma, k);
    Negated(chroma, k);
    RatioOfPart(chroma, -k);
  }

  /** The sector coordinate can be read off the channels. */
  lemma SectorReads(x: real, v: real, chroma: real, second: real)
    requires 0.0 <= x < 6.0 && 0.0 < chroma <= v && second == Part(chroma, Rise(x))
    ensures
      var c := Channels(x, v, chroma);
      && Max(Max(c.r, c.g), c.b) == v && v - Min(Min(c.r, c.g), c.b) == chroma
      && Sector(c, v, chroma) == if x < 5.0 then x else x - 6.0
  {
    hide Rem, Part, Over;
    Scale(chroma, Rise(x));
    var c := Channels(x, v, chroma);
    var base := v - chroma;
    Rem6Small(Rise(x));
    Rem6Small(-Rise(x));
    if x < 1.0 {
      assert c == Rgb(v, second + base, base);
    } else if x < 2.0 {
      assert c == Rgb(second + base, v, base);
    } else if x < 3.0 {
      assert c == Rgb(base, v, second + base);
    } else if x < 4.0 {
      assert c == Rgb(base, second + base, v);
    } else if x < 5.0 {
      assert c == Rgb(second + base, base, v);
    } else {
      assert c == Rgb(v, base, second + base);
    }
  }

  /** With no chroma every sector is the same grey. */
  lemma NoChroma(x: real, v: real)
    requires 0.0 <= x < 6.0
    ensures Channels(x, v, 0.0) == Rgb(v, v, v)
  {
  }

  lemma SaturationReads(s: real, v: real)
    requires 0.0 <= s <= 1.0 && 0.0 <= v
    ensures s > 0.0 && v > 0.0 ==> 0.0 < Part(v, s) <= v && Over(Part(v, s), v) == s
    ensures s == 0.0 || v == 0.0 ==> Part(v, s) == 0.0
  {
    if s > 0.0 && v > 0.0 {
      Scale(v, s);
    }
  }

  /**
   * Picked hue, saturation and value survive the trip through the channels
   * exactly if there is some saturation and some value, or none to lose.
   */
  lemma HueSurvives(c: Hsv)
    requires OnWheel(c)
    ensures ToHsv(ToRgb(c)) == c <==> (c.s > 0.0 && c.v > 0.0) || (c.h == 0.0 && c.s == 0.0)
  {
    hide Rem, Sector, Channels, ToRgb, Part, Over;
    var x, chroma := c.h / 60.0, Part(c.v, c.s);
    ToRgbIs(c.h, c.s, c.v, x, chroma);
    SaturationReads(c.s, c.v);
    if c.s > 0.0 && c.v > 0.0 {
      SectorReads(x, c.v, chroma, Part(chroma, Rise(x)));
      HueFromSector(if x < 5.0 then x else x - 6.0);
    } else {
      NoChroma(x, c.v);
      assert c.v > 0.0 ==> Over(0.0, c.v) == 0.0 by {
        if c.v > 0.0 {
          Whole(c.v);
          RatioOfPart(c.v, 0.0);
        }
      }
    }
  }

  // ---- Hex text ----

  predicate IsHex(c: char) {
    '0' <= c <= '9' || 'a' <= c <= 'f' || 'A' <= c <= 'F'
  }

  function Lower(c: char): char {
    if 'A' <= c <= 'Z' then c - 'A' + 'a' else c
  }

  function Lowered(s: string): string {
    seq(|s|, i requires 0 <= i < |s| => Lower(s[i]))
  }

  /** `/^[0-9a-f]{6}$/i` */
  predicate IsSixHex(s: string) {
    |s| == 6 && forall i :: 0 <= i < |s| ==> IsHex(s[i])
  }

  /** What is left after trimming and one leading `#`. */
  function Raw(value: string): string {
    var text := Trim(value);
    if text != "" && text[0] == '#' then text[1..] else text
  }

  function NormalizeHex(value: string): Option<string> {
    var raw := Raw(value);
    var full := if |raw| == 3 then [raw[0], raw[0], raw[1], raw[1], raw[2], raw[2]] else raw;
    if IsSixHex(full) then Some("#" + Lowered(full)) else None
  }

  function HexDigit(n: nat): char
    requires n < 16
  {
    if n < 10 then '0' + n as char else 'a' + (n - 10) as char
  }

  function HexValue(c: char): (n: nat)
    requires IsHex(c)
    ensures n < 16
  {
    if '0' <= c <= '9' then (c - '0') as nat else (Lower(c) - 'a') as nat + 10
  }

  /** `toString(16)` */
  function HexText(n: nat): string {
    if n < 16 then [HexDigit(n)] else HexText(n / 16) + [HexDigit(n % 16)]
  }

  /** `parseInt(pair, 16)` */
  function PairValue(high: char, low: char): (n: nat)
    requires IsHex(high) && IsHex(low)
    ensures n < 256
  {
    16 * HexValue(high) + HexValue(low)
  }

  /** Six hex digits, as channels from 0 to 1. */
  function ChannelsOf(digits: string): Rgb
    requires IsSixHex(digits)
  {
    Rgb(PairValue(digits[0], digits[1]) as real / 255.0,
        PairValue(digits[2], digits[3]) as real / 255.0,
        PairValue(digits[4], digits[5]) as real / 255.0)
  }

  function HexToHsv(hex: string): Hsv {
    var normalized := NormalizeHex(hex);
    DefaultIsHex();
    if normalized.Some? then NormalizedIsHex(hex); ToHsv(ChannelsOf(normalized.value[1..]))
    else ToHsv(ChannelsOf(DEFAULT_HEX[1..]))
  }

  function ChannelText(channel: real): string {
    Padded(HexText(Round(Clamp(channel, 0.0, 1.0) * 255.0)), 2)
  }

  function HsvToHex(c: Hsv): string {
    var rgb := ToRgb(c);
    "#" + ChannelText(rgb.r) + ChannelText(rgb.g) + ChannelText(rgb.b)
  }

  ghost predicate IsNormal(hex: string) {
    |hex| == 7 && hex[0] == '#' && IsSixHex(hex[1..]) && Lowered(hex) == hex
  }

  lemma DefaultIsHex()
    ensures IsNormal(DEFAULT_HEX)
  {
  }

  lemma NormalizedIsHex(value: string)
    ensures NormalizeHex(value).Some? ==> IsNormal(NormalizeHex(value).value)
  {
  }

  /** A channel prints as the two digits it was read from. */
  lemma PairRoundTrip(high: char, low: char)
    requires IsHex(high) && IsHex(low)
    ensures ChannelText(PairValue(high, low) as real / 255.0) == [Lower(high), Lower(low)]
    ensures 0.0 <= PairValue(high, low) as real / 255.0 <= 1.0
  {
    var n := PairValue(high, low);
    var channel := n as real / 255.0;
    assert Clamp(channel, 0.0, 1.0) == channel;
    assert channel * 255.0 == n as real;
    assert Round(channel * 255.0) == n;
    DigitReads(high);
    DigitReads(low);
    assert n / 16 == HexValue(high) && n % 16 == HexValue(low);
    if n < 16 {
      assert HexText(n) == [Lower(low)];
    } else {
      assert HexText(n) == [Lower(high)] + [Lower(low)];
    }
  }

  lemma DigitReads(c: char)
    requires IsHex(c)
    ensures HexDigit(HexValue(c)) == Lower(c)
  {
  }

  lemma NormalRoundTrip(hex: string)
    requires IsNormal(hex)
    ensures HsvToHex(ToHsv(ChannelsOf(hex[1..]))) == hex
  {
    hide ToHsv, ToRgb, ChannelText, PairValue;
    var digits := hex[1..];
    var c := ChannelsOf(digits);
    PairRoundTrip(digits[0], digits[1]);
    PairRoundTrip(digits[2], digits[3]);
    PairRoundTrip(digits[4], digits[5]);
    ChannelsRoundTrip(c);
    assert forall i :: 0 <= i < 7 ==> Lower(hex[i]) == Lowered(hex)[i] == hex[i];
    assert HsvToHex(ToHsv(c)) == "#" + digits;
  }

  /** Any text at all: to hue, saturation and value and back is the normal form, or the default colour. */
  lemma HexRoundTrip(value: string)
    ensures HsvToHex(HexToHsv(value)) == if NormalizeHex(value).Some? then NormalizeHex(value).value else "#34c77b"
  {
    hide ToHsv, HsvToHex, ChannelsOf, NormalizeHex, IsNormal;
    DefaultIsHex();
    NormalRoundTrip(DEFAULT_HEX);
    if NormalizeHex(value).Some? {
      NormalizedIsHex(value);
      NormalRoundTrip(NormalizeHex(value).value);
    }
  }

  /** A digit and its value: 0 to 9, and `a` to `f` for 10 to 15 in either case. */
  lemma HexDigits(k: nat)
    ensures k < 10 ==> IsHex('0' + k as char) && HexValue('0' + k as char) == k
    ensures k < 6 ==> IsHex('a' + k as char) && HexValue('a' + k as char) == 10 + k
    ensures k < 6 ==> IsHex('A' + k as char) && HexValue('A' + k as char) == 10 + k
    ensures forall c :: IsHex(c) <==> '0' <= c <= '9' || 'a' <= c <= 'f' || 'A' <= c <= 'F'
    ensures k < 6 ==> Lower('A' + k as char) == 'a' + k as char && Lower('a' + k as char) == 'a' + k as char
    ensures k < 10 ==> Lower('0' + k as char) == '0' + k as char
  {
  }

  /**
   * What is read, with or without a leading `#`, whatever space is around it: each of
   * three digits is doubled, six stay as they are, and capitals become small.
   */
  lemma NormalizeReads(before: string, hash: bool, raw: string, after: string)
    requires AllSpace(before) && AllSpace(after)
    requires (|raw| == 3 || |raw| == 6) && forall i :: 0 <= i < |raw| ==> IsHex(raw[i])
    ensures
      NormalizeHex(before + (if hash then "#" else "") + raw + after) ==
      if |raw| == 6 then Some("#" + Lowered(raw))
      else
        var r, g, b := Lower(raw[0]), Lower(raw[1]), Lower(raw[2]);
        Some(['#', r, r, g, g, b, b])
  {
    hide Raw;
    RawReads(before, hash, raw, after);
    if |raw| == 3 {
      var full := [raw[0], raw[0], raw[1], raw[1], raw[2], raw[2]];
      assert IsSixHex(full);
      assert "#" + Lowered(full)
          == ['#', Lower(raw[0]), Lower(raw[0]), Lower(raw[1]), Lower(raw[1]), Lower(raw[2]), Lower(raw[2])];
    } else {
      assert IsSixHex(raw);
    }
  }

  lemma RawReads(before: string, hash: bool, raw: string, after: string)
    requires AllSpace(before) && AllSpace(after)
    requires raw != "" && IsHex(raw[0]) && IsHex(raw[|raw| - 1])
    ensures Raw(before + (if hash then "#" else "") + raw + after) == raw
  {
    var text := (if hash then "#" else "") + raw;
    assert before + (if hash then "#" else "") + raw + after == before + text + after;
    TrimPadded(before, text, after);
    assert hash ==> text[1..] == raw;
    assert !hash ==> text == raw;
  }

  /** Two digits a channel, red first, from 0 for `00` to 1 for `ff`. */
  lemma ChannelsInTerms(digits: string)
    requires IsSixHex(digits)
    ensures
      var c := ChannelsOf(digits);
      && c.r * 255.0 == (16 * HexValue(digits[0]) + HexValue(digits[1])) as real
      && c.g * 255.0 == (16 * HexValue(digits[2]) + HexValue(digits[3])) as real
      && c.b * 255.0 == (16 * HexValue(digits[4]) + HexValue(digits[5])) as real
      && InUnit(c)
  {
    PairRoundTrip(digits[0], digits[1]);
    PairRoundTrip(digits[2], digits[3]);
    PairRoundTrip(digits[4], digits[5]);
  }

  /** The normal form is its own normal form, and the text is accepted exactly if three or six hex digits are left. */
  lemma NormalizeSettles(value: string)
    ensures NormalizeHex(value).Some? <==>
            (|Raw(value)| == 3 || |Raw(value)| == 6) && forall i :: 0 <= i < |Raw(value)| ==> IsHex(Raw(value)[i])
    ensures NormalizeHex(value).Some? ==> NormalizeHex(NormalizeHex(value).value) == NormalizeHex(value)
  {
    var raw := Raw(value);
    if NormalizeHex(value).Some? {
      var hex := NormalizeHex(value).value;
      NormalizedIsHex(value);
      assert !IsSpace(hex[0]) && IsHex(hex[6]);
      Unspaced(hex);
      assert Raw(hex) == hex[1..];
      assert Lowered(hex[1..]) == hex[1..] by {
        assert forall i :: 0 <= i < 6 ==> Lower(hex[1..][i]) == Lowered(hex)[i + 1] == hex[1..][i];
      }
      if |raw| == 3 {
        ThreeHex(raw);
      }
    }
  }

  lemma ThreeHex(raw: string)
    requires |raw| == 3 && IsSixHex([raw[0], raw[0], raw[1], raw[1], raw[2], raw[2]])
    ensures IsHex(raw[0]) && IsHex(raw[1]) && IsHex(raw[2])
  {
    var full := [raw[0], raw[0], raw[1], raw[1], raw[2], raw[2]];
    assert full[0] == raw[0] && full[2] == raw[1] && full[4] == raw[2];
  }
}
