/** The colour picker's conversions (`ui/src/design-system/colorMath.ts`), over exact reals. */
module ColorMath {
  import opened Common
  import opened RealSums

  datatype Rgb = Rgb(r: real, g: real, b: real)
  datatype Hsv = Hsv(h: real, s: real, v: real)

  // ── The source's arithmetic ───────────────────────────────────────────────

  function Abs(x: real): real { if x < 0.0 then -x else x }

  function Truncated(x: real): real {
    if x >= 0.0 then x.Floor as real else -((-x).Floor as real)
  }

  /** The remainder operator, which truncates and so keeps the sign of its left side. */
  function Remainder(x: real, y: real): real
    requires y != 0.0
  {
    x - y * Truncated(x / y)
  }

  // ── The conversions ───────────────────────────────────────────────────────

  function Hue(c: Rgb, max: real, delta: real): real {
    if delta <= 0.0 then 0.0
    else
      var sextant :=
        if max == c.r then Remainder((c.g - c.b) / delta, 6.0)
        else if max == c.g then (c.b - c.r) / delta + 2.0
        else (c.r - c.g) / delta + 4.0;
      var h := sextant * 60.0;
      if h < 0.0 then h + 360.0 else h
  }

  function Saturation(delta: real, max: real): real { if max == 0.0 then 0.0 else delta / max }

  function RgbToHsv(c: Rgb): Hsv {
    var max := Max(c.r, Max(c.g, c.b));
    var delta := max - Min(c.r, Min(c.g, c.b));
    Hsv(Hue(c, max, delta), Saturation(delta, max), max)
  }

  function Sector(hue: real, chroma: real, x: real): Rgb {
    if hue < 60.0 then Rgb(chroma, x, 0.0)
    else if hue < 120.0 then Rgb(x, chroma, 0.0)
    else if hue < 180.0 then Rgb(0.0, chroma, x)
    else if hue < 240.0 then Rgb(0.0, x, chroma)
    else if hue < 300.0 then Rgb(x, 0.0, chroma)
    else Rgb(chroma, 0.0, x)
  }

  function Tent(sextant: real): real { 1.0 - Abs(Remainder(sextant, 2.0) - 1.0) }

  /** The channel between the full one and the empty one. */
  function Second(chroma: real, sextant: real): real { Times(chroma, Tent(sextant)) }

  function HsvToRgb(c: Hsv): Rgb {
    var hue := Remainder(Remainder(c.h, 360.0) + 360.0, 360.0);
    var chroma := Times(c.v, c.s);
    var m := c.v - chroma;
    var p := Sector(hue, chroma, Second(chroma, hue / 60.0));
    Rgb(p.r + m, p.g + m, p.b + m)
  }

  // ── Remainders ────────────────────────────────────────────────────────────

  lemma FloorIs(x: real, n: int)
    requires n as real <= x < (n + 1) as real
    ensures x.Floor == n
  {
  }

  /** A sextant between -1 and 1 is its own remainder. */
  lemma SmallRemainder(x: real)
    requires -1.0 <= x <= 1.0
    ensures Remainder(x, 6.0) == x
  {
    if x >= 0.0 { FloorIs(x / 6.0, 0); } else { FloorIs(-(x / 6.0), 0); }
  }

  /** A hue in its range is left alone by the source's double remainder. */
  lemma NormalHue(h: real)
    requires 0.0 <= h < 360.0
    ensures Remainder(Remainder(h, 360.0) + 360.0, 360.0) == h
  {
    FloorIs(h / 360.0, 0);
    FloorIs((h + 360.0) / 360.0, 1);
  }

  /** The second channel over the six sextants: up in the even ones, down in the odd. */
  lemma TentAt(y: real)
    requires 0.0 <= y < 6.0
    ensures Tent(y) ==
      if y < 1.0 then y else if y < 2.0 then 2.0 - y
      else if y < 3.0 then y - 2.0 else if y < 4.0 then 4.0 - y
      else if y < 5.0 then y - 4.0 else 6.0 - y
  {
    FloorIs(y / 2.0, if y < 2.0 then 0 else if y < 4.0 then 1 else 2);
  }

  // ── The round trip ────────────────────────────────────────────────────────

  /** `q` is `a / d` for a difference `a` no larger than the spread `d`. */
  ghost predicate IsRatio(q: real, a: real, d: real) {
    -1.0 <= q <= 1.0 && Times(d, q) == a && (q >= 0.0 <==> a >= 0.0) && (q == 1.0 ==> a == d)
  }

  lemma Ratio(a: real, d: real)
    requires d > 0.0 && -d <= a <= d
    ensures IsRatio(a / d, a, d)
  {
    QuotientTimes(a, d);
    RatioBounds(a / d, a, d);
    RatioSign(a / d, a, d);
  }

  lemma RatioBounds(q: real, a: real, d: real)
    requires d > 0.0 && q * d == a && -d <= a <= d
    ensures -1.0 <= q <= 1.0
  {
    assert -1.0 * d == -d && 1.0 * d == d;
    AtMostByProduct(q, 1.0, d);
    AtMostByProduct(-1.0, q, d);
  }

  lemma RatioSign(q: real, a: real, d: real)
    requires d > 0.0 && q * d == a
    ensures q >= 0.0 <==> a >= 0.0
    ensures q == 1.0 ==> a == d
  {
    if q >= 0.0 { TimesKeepsOrder(0.0, q, d); } else { TimesKeepsStrictOrder(q, 0.0, d); }
  }

  ghost predicate InUnit(c: Rgb) {
    0.0 <= c.r <= 1.0 && 0.0 <= c.g <= 1.0 && 0.0 <= c.b <= 1.0
  }

  /** Where the colour lies between the two smaller channels' corners. */
  function Slope(c: Rgb, max: real, delta: real): real
    requires delta > 0.0
  {
    if max == c.r then (c.g - c.b) / delta else if max == c.g then (c.b - c.r) / delta else (c.r - c.g) / delta
  }

  function Difference(c: Rgb, max: real): real {
    if max == c.r then c.g - c.b else if max == c.g then c.b - c.r else c.r - c.g
  }

  function Sextant(c: Rgb, max: real, q: real): real {
    if max == c.r then (if q < 0.0 then q + 6.0 else q) else if max == c.g then q + 2.0 else q + 4.0
  }

  /** The hue of a colour that has one, by which channel is the largest. */
  lemma HueOf(c: Rgb, max: real, delta: real)
    requires max == Max(c.r, Max(c.g, c.b)) && delta == max - Min(c.r, Min(c.g, c.b)) && delta > 0.0
    ensures IsRatio(Slope(c, max, delta), Difference(c, max), delta)
    ensures Hue(c, max, delta) == 60.0 * Sextant(c, max, Slope(c, max, delta))
    ensures 0.0 <= Hue(c, max, delta) < 360.0
  {
    if max == c.r {
      Ratio(c.g - c.b, delta);
      SmallRemainder((c.g - c.b) / delta);
    } else if max == c.g {
      Ratio(c.b - c.r, delta);
    } else {
      Ratio(c.r - c.g, delta);
    }
  }

  /** The conversion lands in its range. */
  lemma HsvInRange(c: Rgb)
    requires InUnit(c)
    ensures var hsv := RgbToHsv(c); 0.0 <= hsv.h < 360.0 && 0.0 <= hsv.s <= 1.0 && 0.0 <= hsv.v <= 1.0
  {
    var max := Max(c.r, Max(c.g, c.b));
    var delta := max - Min(c.r, Min(c.g, c.b));
    if delta > 0.0 { HueOf(c, max, delta); }
    if max > 0.0 { Ratio(delta, max); }
  }

  /** Converting a colour to hue, saturation and value and back gives the colour, ties between sectors included. */
  lemma RgbRoundTrip(c: Rgb)
    requires InUnit(c)
    ensures HsvToRgb(RgbToHsv(c)) == c
  {
    var max := Max(c.r, Max(c.g, c.b));
    var min := Min(c.r, Min(c.g, c.b));
    HsvInRange(c);
    if max > min { ColourReturns(c, max, min, RgbToHsv(c)); } else { GreyReturns(c, max, RgbToHsv(c)); }
  }

  lemma ColourReturns(c: Rgb, max: real, min: real, hsv: Hsv)
    requires max == Max(c.r, Max(c.g, c.b)) && min == Min(c.r, Min(c.g, c.b)) && 0.0 <= min < max
    requires 0.0 <= hsv.h < 360.0 && hsv == Hsv(Hue(c, max, max - min), Saturation(max - min, max), max)
    ensures HsvToRgb(hsv) == c
  {
    var delta := max - min;
    ReadableColour(c, max, min, delta, hsv.h, hsv.s);
    SectorReturnsColour(c, min, delta, hsv);
  }

  lemma ReadableColour(c: Rgb, max: real, min: real, delta: real, h: real, s: real)
    requires max == Max(c.r, Max(c.g, c.b)) && min == Min(c.r, Min(c.g, c.b)) && 0.0 <= min < max && delta == max - min
    requires 0.0 <= h < 360.0 && h == Hue(c, max, delta) && s == Saturation(delta, max)
    ensures Remainder(Remainder(h, 360.0) + 360.0, 360.0) == h && Times(max, s) == delta
    ensures Sector(h, delta, Second(delta, h / 60.0)) == Rgb(c.r - min, c.g - min, c.b - min)
  {
    NormalHue(h);
    ChromaReturns(max, delta);
    SectorReturns(c, max, min, delta, h);
  }

  /** A grey comes back whatever hue it is given. */
  lemma GreyReturns(c: Rgb, max: real, hsv: Hsv)
    requires c == Rgb(max, max, max) && max >= 0.0 && 0.0 <= hsv.h < 360.0 && hsv.v == max && hsv.s == Saturation(0.0, max)
    ensures HsvToRgb(hsv) == c
  {
    ReadableGrey(max, hsv.h, hsv.s);
    SectorReturnsColour(c, max, 0.0, hsv);
  }

  lemma ReadableGrey(max: real, h: real, s: real)
    requires max >= 0.0 && 0.0 <= h < 360.0 && s == Saturation(0.0, max)
    ensures Remainder(Remainder(h, 360.0) + 360.0, 360.0) == h && Times(max, s) == 0.0
    ensures Sector(h, 0.0, Second(0.0, h / 60.0)) == Rgb(0.0, 0.0, 0.0)
  {
    NormalHue(h);
    ChromaReturns(max, 0.0);
    TimesNothing(Tent(h / 60.0));
  }

  lemma TimesNothing(x: real)
    ensures Times(0.0, x) == 0.0
  {
  }

  lemma SectorReturnsColour(c: Rgb, min: real, chroma: real, hsv: Hsv)
    requires Remainder(Remainder(hsv.h, 360.0) + 360.0, 360.0) == hsv.h
    requires Times(hsv.v, hsv.s) == chroma && hsv.v - chroma == min
    requires Sector(hsv.h, chroma, Second(chroma, hsv.h / 60.0)) == Rgb(c.r - min, c.g - min, c.b - min)
    ensures HsvToRgb(hsv) == c
  {
  }

  lemma ChromaReturns(max: real, delta: real)
    requires 0.0 <= delta <= max
    ensures Times(max, Saturation(delta, max)) == delta
  {
    if max > 0.0 { QuotientTimes(delta, max); }
  }

  lemma SectorReturns(c: Rgb, max: real, min: real, delta: real, h: real)
    requires max == Max(c.r, Max(c.g, c.b)) && min == Min(c.r, Min(c.g, c.b)) && delta == max - min && delta > 0.0
    requires h == Hue(c, max, delta)
    ensures Sector(h, delta, Second(delta, h / 60.0)) == Rgb(c.r - min, c.g - min, c.b - min)
  {
    HueOf(c, max, delta);
    var q := Slope(c, max, delta);
    assert h / 60.0 == Sextant(c, max, q);
    if max == c.r { RedLargest(c, min, delta, q); }
    else if max == c.g { GreenLargest(c, min, delta, q); }
    else { BlueLargest(c, min, delta, q); }
  }

  /** Along an even sextant the second channel rises with the slope, along an odd one it falls. */
  lemma SecondChannel(delta: real, q: real, y: real, n: int)
    requires -1.0 <= q <= 1.0 && 0 <= n < 6 && n as real <= y < (n + 1) as real
    requires n % 2 == 0 ==> y == q + n as real
    requires n % 2 == 1 ==> y == q + (n + 1) as real
    ensures Second(delta, y) == if n % 2 == 0 then Times(delta, q) else -Times(delta, q)
  {
    TentAt(y);
    assert Tent(y) == if n % 2 == 0 then q else -q;
  }

  /** At the far end of an even sextant the next sector takes over, with the second channel full. */
  lemma FullChannel(delta: real, y: real)
    requires y == 1.0 || y == 3.0 || y == 5.0
    ensures Second(delta, y) == delta
  {
    TentAt(y);
    TimesOne(delta, Tent(y));
  }

  lemma TimesOne(x: real, one: real)
    requires one == 1.0
    ensures Times(x, one) == x
  {
  }

  lemma RedLargest(c: Rgb, min: real, delta: real, q: real)
    requires c.r >= c.g && c.r >= c.b && min == Min(c.g, c.b) && delta == c.r - min > 0.0
    requires IsRatio(q, c.g - c.b, delta)
    ensures var y := if q < 0.0 then q + 6.0 else q;
      Sector(60.0 * y, delta, Second(delta, y)) == Rgb(c.r - min, c.g - min, c.b - min)
  {
    var y := if q < 0.0 then q + 6.0 else q;
    if q < 0.0 { SecondChannel(delta, q, y, 5); }
    else if q < 1.0 { SecondChannel(delta, q, y, 0); }
    else { FullChannel(delta, y); }
  }

  lemma GreenLargest(c: Rgb, min: real, delta: real, q: real)
    requires c.g > c.r && c.g >= c.b && min == Min(c.r, c.b) && delta == c.g - min > 0.0
    requires IsRatio(q, c.b - c.r, delta)
    ensures Sector(60.0 * (q + 2.0), delta, Second(delta, q + 2.0)) == Rgb(c.r - min, c.g - min, c.b - min)
  {
    if q < 0.0 { SecondChannel(delta, q, q + 2.0, 1); }
    else if q < 1.0 { SecondChannel(delta, q, q + 2.0, 2); }
    else { FullChannel(delta, q + 2.0); }
  }

  lemma BlueLargest(c: Rgb, min: real, delta: real, q: real)
    requires c.b > c.r && c.b > c.g && min == Min(c.r, c.g) && delta == c.b - min > 0.0
    requires IsRatio(q, c.r - c.g, delta)
    ensures Sector(60.0 * (q + 4.0), delta, Second(delta, q + 4.0)) == Rgb(c.r - min, c.g - min, c.b - min)
  {
    if q < 0.0 { SecondChannel(delta, q, q + 4.0, 3); } else { SecondChannel(delta, q, q + 4.0, 4); }
  }

  // ── And the other way round ───────────────────────────────────────────────

  lemma DividesOut(q: real, t: real, a: real, d: real)
    requires d > 0.0 && q == a / d && t * d == a
    ensures q == t
  {
    QuotientTimes(a, d);
    AtMostByProduct(q, t, d);
    AtMostByProduct(t, q, d);
  }

  lemma SecondBetween(d: real, t: real)
    requires d > 0.0 && 0.0 <= t <= 1.0
    ensures 0.0 <= Times(d, t) <= d && (t < 1.0 ==> Times(d, t) < d)
  {
    TimesKeepsOrder(0.0, t, d);
    TimesKeepsOrder(t, 1.0, d);
    if t < 1.0 { TimesKeepsStrictOrder(t, 1.0, d); }
  }

  lemma SlopeHue(c: Rgb, max: real, delta: real, q: real)
    requires delta > 0.0 && -1.0 <= q <= 1.0 && Difference(c, max) == Times(delta, q)
    ensures Hue(c, max, delta) == 60.0 * Sextant(c, max, q)
  {
    DividesOut(Difference(c, max) / delta, q, Times(delta, q), delta);
    SmallRemainder(q);
  }

  lemma TimesNegative(x: real, y: real)
    ensures Times(x, -y) == -Times(x, y)
  {
  }

  /** How far along its smaller channels a hue lies: rising through even sextants, falling through odd ones. */
  function SlopeAt(y: real): real {
    if y <= 1.0 then y else if y <= 3.0 then y - 2.0 else if y < 5.0 then y - 4.0 else y - 6.0
  }

  lemma SecondIsSlope(d: real, y: real)
    requires 0.0 <= y < 6.0 && d > 0.0
    ensures var q := SlopeAt(y); -1.0 <= q <= 1.0 && Second(d, y) == (if q < 0.0 then -Times(d, q) else Times(d, q))
    ensures 0.0 <= Second(d, y) <= d && (Second(d, y) == d ==> y == 1.0 || y == 3.0 || y == 5.0)
  {
    TentAt(y);
    TimesNegative(d, SlopeAt(y));
    SecondBetween(d, Tent(y));
  }

  /** The hue a sector's colour is read back with is the hue it was made from, corners included. */
  lemma HueReturns(h: real, y: real, d: real, m: real, x: real)
    requires 0.0 <= y < 6.0 && h == 60.0 * y && d > 0.0 && x == Second(d, y)
    ensures var p := Sector(h, d, x); var c := Rgb(p.r + m, p.g + m, p.b + m);
      && Max(c.r, Max(c.g, c.b)) == m + d && Min(c.r, Min(c.g, c.b)) == m
      && Hue(c, m + d, d) == h
  {
    SecondIsSlope(d, y);
    var p := Sector(h, d, x);
    var c := Rgb(p.r + m, p.g + m, p.b + m);
    if y == 1.0 || y == 3.0 || y == 5.0 { FullSecond(d, y); }
    SlopeHue(c, m + d, d, SlopeAt(y));
  }

  lemma FullSecond(d: real, y: real)
    requires d > 0.0 && (y == 1.0 || y == 3.0 || y == 5.0)
    ensures Second(d, y) == d
  {
    FullChannel(d, y);
  }

  lemma ReadBack(hsv: Hsv, c: Rgb, d: real)
    requires Max(c.r, Max(c.g, c.b)) == hsv.v && Min(c.r, Min(c.g, c.b)) == hsv.v - d
    requires Hue(c, hsv.v, d) == hsv.h && Saturation(d, hsv.v) == hsv.s
    ensures RgbToHsv(c) == hsv
  {
  }

  lemma Unfolded(hsv: Hsv, d: real)
    requires 0.0 <= hsv.h < 360.0 && d == Times(hsv.v, hsv.s)
    ensures var p := Sector(hsv.h, d, Second(d, hsv.h / 60.0)); var m := hsv.v - d;
      HsvToRgb(hsv) == Rgb(p.r + m, p.g + m, p.b + m)
  {
    NormalHue(hsv.h);
  }

  /** Any hue, saturation and value that name a colour with a hue of its own are read back exactly. */
  lemma HsvRoundTrip(hsv: Hsv)
    requires 0.0 <= hsv.h < 360.0 && 0.0 < hsv.s <= 1.0 && 0.0 < hsv.v <= 1.0
    ensures RgbToHsv(HsvToRgb(hsv)) == hsv && InUnit(HsvToRgb(hsv))
  {
    var d := Times(hsv.v, hsv.s);
    SecondBetween(hsv.v, hsv.s);
    TimesKeepsStrictOrder(0.0, hsv.s, hsv.v);
    Unfolded(hsv, d);
    HueReturns(hsv.h, hsv.h / 60.0, d, hsv.v - d, Second(d, hsv.h / 60.0));
    SaturationReturns(hsv.v, hsv.s);
    ReadBack(hsv, HsvToRgb(hsv), d);
  }

  lemma SaturationReturns(v: real, s: real)
    requires v > 0.0
    ensures Saturation(Times(v, s), v) == s
  {
    DividesOut(Times(v, s) / v, s, Times(v, s), v);
  }

  /** A grey has no hue and no saturation, black included. */
  lemma GreyHasNoHue(v: real)
    ensures RgbToHsv(Rgb(v, v, v)) == Hsv(0.0, 0.0, v)
  {
  }

  // ── Hues beyond a turn ────────────────────────────────────────────────────

  function NormalizedHue(h: real): real { Remainder(Remainder(h, 360.0) + 360.0, 360.0) }

  /** The double remainder leaves what is over whole turns, for hues of either sign. */
  lemma HueWithinTurn(h: real)
    ensures NormalizedHue(h) == h - 360.0 * (h / 360.0).Floor as real
    ensures 0.0 <= NormalizedHue(h) < 360.0
  {
    var x := h / 360.0;
    var once := Remainder(h, 360.0);
    if x >= 0.0 {
      NormalHue(once);
      FloorIs((once + 360.0) / 360.0, 1);
    } else {
      var n := (-x).Floor;
      assert once == h + 360.0 * n as real;
      if once == 0.0 {
        FloorIs((once + 360.0) / 360.0, 1);
        FloorIs(x, -n);
      } else {
        FloorIs((once + 360.0) / 360.0, 0);
        FloorIs(x, -n - 1);
      }
    }
  }

  lemma TurnsLeaveHue(h: real, turns: int)
    ensures NormalizedHue(h + 360.0 * turns as real) == NormalizedHue(h)
  {
    var far := h + 360.0 * turns as real;
    HueWithinTurn(h);
    HueWithinTurn(far);
    assert far / 360.0 == h / 360.0 + turns as real;
    FloorIs(far / 360.0, (h / 360.0).Floor + turns);
  }

  lemma SameHueSameColour(a: real, b: real, s: real, v: real)
    requires NormalizedHue(a) == NormalizedHue(b)
    ensures HsvToRgb(Hsv(a, s, v)) == HsvToRgb(Hsv(b, s, v))
  {
  }

  /** A hue any number of turns away is the same colour. */
  lemma HueWraps(h: real, turns: int, s: real, v: real)
    ensures HsvToRgb(Hsv(h + 360.0 * turns as real, s, v)) == HsvToRgb(Hsv(h, s, v))
  {
    TurnsLeaveHue(h, turns);
    SameHueSameColour(h + 360.0 * turns as real, h, s, v);
  }

  // ── Hexadecimal ───────────────────────────────────────────────────────────

  predicate IsSpace(c: char) {
    c in {' ', '\t', '\n', '\r', '\U{000B}', '\U{000C}', '\U{00A0}', '\U{FEFF}', '\U{1680}', '\U{2028}', '\U{2029}', '\U{202F}',
          '\U{205F}', '\U{3000}'} || '\U{2000}' <= c <= '\U{200A}'
  }

  function TrimStart(s: string): string {
    if s != "" && IsSpace(s[0]) then TrimStart(s[1..]) else s
  }

  function TrimEnd(s: string): string {
    if s != "" && IsSpace(s[|s| - 1]) then TrimEnd(s[..|s| - 1]) else s
  }

  function LowerChar(c: char): char {
    if 'A' <= c <= 'Z' then (c as int + 32) as char else c
  }

  function Lower(s: string): string {
    seq(|s|, i requires 0 <= i < |s| => LowerChar(s[i]))
  }

  predicate IsHexDigit(c: char) { '0' <= c <= '9' || 'a' <= c <= 'f' }

  predicate AllHex(s: string) {
    forall i :: 0 <= i < |s| ==> IsHexDigit(s[i])
  }

  /** `#rrggbb` in lower case, from it, from the shorthand, or from either without its `#`. */
  function NormalizeHex(input: string): (normal: Option<string>)
    ensures normal.Some? ==> |normal.value| == 7 && normal.value[0] == '#' && AllHex(normal.value[1..])
  {
    var trimmed := TrimEnd(TrimStart(input));
    var raw := Lower(if trimmed != "" && trimmed[0] == '#' then trimmed[1..] else trimmed);
    if |raw| == 3 && AllHex(raw) then Some(['#', raw[0], raw[0], raw[1], raw[1], raw[2], raw[2]])
    else if |raw| == 6 && AllHex(raw) then Some("#" + raw)
    else None
  }

  function DigitValue(c: char): (value: nat)
    requires IsHexDigit(c)
    ensures value < 16
  {
    if '0' <= c <= '9' then c as int - '0' as int else c as int - 'a' as int + 10
  }

  function DigitChar(value: nat): (c: char)
    requires value < 16
    ensures IsHexDigit(c) && DigitValue(c) == value
  {
    if value < 10 then ('0' as int + value) as char else ('a' as int + value - 10) as char
  }

  function ByteValue(high: char, low: char): (value: nat)
    requires IsHexDigit(high) && IsHexDigit(low)
    ensures value < 256
  {
    16 * DigitValue(high) + DigitValue(low)
  }

  /** A number in base sixteen. */
  function HexText(value: int): string
    decreases value < 0, if value < 0 then -value else value
  {
    if value < 0 then "-" + HexText(-value)
    else if value < 16 then [DigitChar(value)]
    else HexText(value / 16) + [DigitChar(value % 16)]
  }

  /** At least two digits. */
  function Padded(text: string): string {
    if |text| < 2 then "0" + text else text
  }

  function SixDigits(hex: string): (digits: string)
    ensures |digits| == 6 && AllHex(digits)
  {
    var normal := NormalizeHex(hex);
    if normal.Some? then normal.value[1..] else "000000"
  }

  function RgbOfDigits(h: string): (c: Rgb)
    requires |h| == 6 && AllHex(h)
    ensures InUnit(c)
  {
    Rgb(Fraction(ByteValue(h[0], h[1])), Fraction(ByteValue(h[2], h[3])), Fraction(ByteValue(h[4], h[5])))
  }

  function HexToRgb(hex: string): (c: Rgb)
    ensures InUnit(c)
  {
    RgbOfDigits(SixDigits(hex))
  }

  function HexToHsv(hex: string): Hsv { RgbToHsv(HexToRgb(hex)) }

  /** A channel rounded to a byte. */
  function Channel(x: real): int { (x * 255.0 + 0.5).Floor }

  function ChannelText(x: real): string { Padded(HexText(Channel(x))) }

  function RgbToHex(c: Rgb): string {
    "#" + ChannelText(c.r) + ChannelText(c.g) + ChannelText(c.b)
  }

  function HsvToHex(c: Hsv): string { RgbToHex(HsvToRgb(c)) }

  function Fraction(value: nat): real { value as real / 255.0 }

  lemma ByteReturns(high: char, low: char)
    requires IsHexDigit(high) && IsHexDigit(low)
    ensures ChannelText(Fraction(ByteValue(high, low))) == [high, low]
  {
    var n := ByteValue(high, low);
    WholeChannel(n);
    DigitsAreUnique(high);
    DigitsAreUnique(low);
    assert n / 16 == DigitValue(high) && n % 16 == DigitValue(low);
    if n >= 16 { assert HexText(n / 16) == [high]; }
  }

  lemma WholeChannel(n: nat)
    ensures Channel(Fraction(n)) == n
  {
    assert Fraction(n) * 255.0 == n as real;
    assert (n as real + 0.5).Floor == n;
  }

  lemma DigitsAreUnique(c: char)
    requires IsHexDigit(c)
    ensures DigitChar(DigitValue(c)) == c
  {
  }

  lemma DigitsReturn(h: string)
    requires |h| == 6 && AllHex(h)
    ensures RgbToHex(RgbOfDigits(h)) == "#" + h
  {
    ByteReturns(h[0], h[1]);
    ByteReturns(h[2], h[3]);
    ByteReturns(h[4], h[5]);
    SixOf(h);
  }

  lemma WrittenBack(c: Rgb, h: string)
    requires InUnit(c) && RgbToHex(c) == "#" + h
    ensures HsvToHex(RgbToHsv(c)) == "#" + h
  {
    RgbRoundTrip(c);
  }

  lemma SixDigitsSpell(hex: string)
    ensures "#" + SixDigits(hex) == if NormalizeHex(hex).Some? then NormalizeHex(hex).value else "#000000"
  {
    var normal := NormalizeHex(hex);
    if normal.Some? { assert normal.value == "#" + normal.value[1..]; }
  }

  lemma DigitsWrittenBack(h: string)
    requires |h| == 6 && AllHex(h)
    ensures HsvToHex(RgbToHsv(RgbOfDigits(h))) == "#" + h
  {
    DigitsReturn(h);
    WrittenBack(RgbOfDigits(h), h);
  }

  /** Picking a colour and writing it back gives the one spelling the settings store; what is no colour is black. */
  lemma HexRoundTrip(hex: string)
    ensures HsvToHex(HexToHsv(hex)) == if NormalizeHex(hex).Some? then NormalizeHex(hex).value else "#000000"
  {
    DigitsWrittenBack(SixDigits(hex));
    SixDigitsSpell(hex);
  }

  lemma SixOf(h: string)
    requires |h| == 6
    ensures "#" + h == "#" + [h[0], h[1]] + [h[2], h[3]] + [h[4], h[5]]
  {
    assert h == [h[0], h[1]] + [h[2], h[3]] + [h[4], h[5]];
  }

  lemma {:induction false} NothingToTrim(s: string)
    requires s != "" && !IsSpace(s[0]) && !IsSpace(s[|s| - 1])
    ensures TrimEnd(TrimStart(s)) == s
  {
  }

  /** The normal spelling is its own, so two spellings name one colour exactly when they normalize alike. */
  lemma NormalizeIsIdempotent(hex: string)
    requires NormalizeHex(hex).Some?
    ensures NormalizeHex(NormalizeHex(hex).value) == NormalizeHex(hex)
  {
    var normal := NormalizeHex(hex).value;
    assert IsHexDigit(normal[1..][5]);
    NothingToTrim(normal);
    var digits := normal[1..];
    assert Lower(digits) == digits;
    assert "#" + digits == normal;
  }

  // ── Which spellings there are, and what each becomes ──────────────────────

  predicate Spaces(s: string) { forall i :: 0 <= i < |s| ==> IsSpace(s[i]) }

  /** A hexadecimal digit in either case. */
  predicate IsDigit(c: char) { '0' <= c <= '9' || 'a' <= c <= 'f' || 'A' <= c <= 'F' }

  function ValueOf(c: char): int
    requires IsDigit(c)
  {
    if c <= '9' then c as int - '0' as int else if c <= 'F' then c as int - 'A' as int + 10 else c as int - 'a' as int + 10
  }

  /** Three or six digits, with or without a hash, between spaces. */
  ghost predicate IsSpelling(input: string, before: string, hash: string, digits: string, after: string) {
    && input == before + hash + digits + after && Spaces(before) && Spaces(after) && (hash == "" || hash == "#")
    && (|digits| == 3 || |digits| == 6) && forall i :: 0 <= i < |digits| ==> IsDigit(digits[i])
  }

  /** The lower-case digit with the same value. */
  predicate SameDigit(c: char, normal: char) {
    IsDigit(c) && IsHexDigit(normal) && DigitValue(normal) == ValueOf(c)
  }

  lemma {:induction false} TrimsStart(before: string, s: string)
    requires Spaces(before) && s != "" && !IsSpace(s[0])
    ensures TrimStart(before + s) == s
  {
    if before == "" {
      assert before + s == s;
    } else {
      TrimsStart(before[1..], s);
      assert (before + s)[1..] == before[1..] + s;
    }
  }

  lemma {:induction false} TrimsEnd(s: string, after: string)
    requires Spaces(after) && s != "" && !IsSpace(s[|s| - 1])
    ensures TrimEnd(s + after) == s
  {
    if after == "" {
      assert s + after == s;
    } else {
      TrimsEnd(s, after[..|after| - 1]);
      assert (s + after)[..|s + after| - 1] == s + after[..|after| - 1];
    }
  }

  lemma {:induction false} TrimmedStart(s: string) returns (before: string)
    ensures s == before + TrimStart(s) && Spaces(before)
  {
    if s != "" && IsSpace(s[0]) {
      var rest := TrimmedStart(s[1..]);
      before := [s[0]] + rest;
    } else {
      before := "";
    }
  }

  lemma {:induction false} TrimmedEnd(s: string) returns (after: string)
    ensures s == TrimEnd(s) + after && Spaces(after)
  {
    if s != "" && IsSpace(s[|s| - 1]) {
      var rest := TrimmedEnd(s[..|s| - 1]);
      after := rest + [s[|s| - 1]];
    } else {
      after := "";
    }
  }

  lemma DigitLowers(c: char)
    ensures IsDigit(c) <==> IsHexDigit(LowerChar(c))
    ensures IsDigit(c) ==> SameDigit(c, LowerChar(c)) && !IsSpace(c) && c != '#'
  {
  }

  lemma DigitsLower(digits: string)
    ensures (forall i :: 0 <= i < |digits| ==> IsDigit(digits[i])) <==> AllHex(Lower(digits))
    ensures AllHex(Lower(digits)) ==> forall i :: 0 <= i < |digits| ==> SameDigit(digits[i], Lower(digits)[i])
  {
    forall i | 0 <= i < |digits|
      ensures IsDigit(digits[i]) <==> IsHexDigit(Lower(digits)[i])
      ensures IsDigit(digits[i]) ==> SameDigit(digits[i], Lower(digits)[i])
    {
      DigitLowers(digits[i]);
    }
  }

  lemma DigitsDoubled(raw: string, normal: string)
    requires |raw| == 3 || |raw| == 6
    requires normal == if |raw| == 3 then ['#', raw[0], raw[0], raw[1], raw[1], raw[2], raw[2]] else "#" + raw
    ensures |normal| == 7 && normal[0] == '#'
    ensures forall i :: 0 <= i < 6 ==> normal[i + 1] == raw[if |raw| == 6 then i else i / 2]
  {
  }

  lemma SpellingTrims(input: string, before: string, hash: string, digits: string, after: string)
    requires IsSpelling(input, before, hash, digits, after)
    ensures TrimEnd(TrimStart(input)) == hash + digits
    ensures (hash + digits)[0] == '#' <==> hash == "#"
  {
    var core := hash + digits;
    DigitLowers(digits[0]);
    DigitLowers(digits[|digits| - 1]);
    assert core[|core| - 1] == digits[|digits| - 1];
    assert input == before + (core + after);
    TrimsStart(before, core + after);
    TrimsEnd(core, after);
  }

  /** What each spelling becomes: a hash and its six digits in lower case, or each of its three digits twice. */
  lemma SpellingNormalizes(input: string, before: string, hash: string, digits: string, after: string)
    requires IsSpelling(input, before, hash, digits, after)
    ensures var normal := NormalizeHex(input);
      && normal.Some? && |normal.value| == 7 && normal.value[0] == '#'
      && forall i :: 0 <= i < 6 ==> SameDigit(digits[if |digits| == 6 then i else i / 2], normal.value[i + 1])
  {
    SpellingTrims(input, before, hash, digits, after);
    DigitsLower(digits);
    var core := hash + digits;
    assert (if core[0] == '#' then core[1..] else core) == digits;
    DigitsDoubled(Lower(digits), NormalizeHex(input).value);
  }

  lemma NormalIsSpelling(input: string)
    requires NormalizeHex(input).Some?
    ensures exists before, hash, digits, after :: IsSpelling(input, before, hash, digits, after)
  {
    var before := TrimmedStart(input);
    var after := TrimmedEnd(TrimStart(input));
    var trimmed := TrimEnd(TrimStart(input));
    var hash := if trimmed != "" && trimmed[0] == '#' then "#" else "";
    var digits := trimmed[|hash|..];
    DigitsLower(digits);
    Rejoined(input, before, trimmed, hash, digits, after);
    assert IsSpelling(input, before, hash, digits, after);
  }

  lemma Rejoined(input: string, before: string, trimmed: string, hash: string, digits: string, after: string)
    requires input == before + (trimmed + after) && trimmed == hash + digits
    ensures input == before + hash + digits + after
  {
  }

  /** Nothing else has a normal spelling. */
  lemma NormalizesIff(input: string)
    ensures NormalizeHex(input).Some? <==> exists before, hash, digits, after :: IsSpelling(input, before, hash, digits, after)
  {
    if NormalizeHex(input).Some? { NormalIsSpelling(input); }
    if before, hash, digits, after :| IsSpelling(input, before, hash, digits, after) {
      SpellingNormalizes(input, before, hash, digits, after);
    }
  }
}
