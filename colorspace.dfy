/** The colour helpers of the image filters: three-way maximum and minimum,
    RGB -> HSL on 16-bit samples, HSL -> RGB back to 16-bit samples, the hue
    ramp, and the uint32 -> uint16 rescaling.

    Every float64 of the Go code is read as an exact `real`; Go's
    float -> unsigned conversion is `Truncate` (toward zero), kept unclamped so
    that a value outside the uint16 range stays visible. */
module ColorSpace {

  /** math.MaxUint16: the largest 16-bit sample. */
  const MaxUint16: int := 65535
  /** math.MaxUint32. */
  const MaxUint32: int := 4294967295

  /** One colour sample as `RGBA()` hands it out: a uint32 that never exceeds 0xffff. */
  type Sample = x: int | 0 <= x <= MaxUint16
  /** A uint32 value. */
  type Uint32 = x: int | 0 <= x <= MaxUint32

  /** Hue, saturation and lightness, each a fraction of a full turn or of full scale. */
  datatype Hsl = Hsl(h: real, s: real, l: real)

  /** The three results of `hslToRGB`: each the truncated product with 65535,
      which lies in the uint16 range when h, s and l are in range
      (HslToRgbInRange). */
  datatype Rgb = Rgb(r: int, g: int, b: int)

  /** Go's conversion of a float to an unsigned integer type truncates toward
      zero. For a value whose truncation leaves the target range the Go result
      is implementation-dependent; there the model keeps the mathematical
      truncation. */
  function Truncate(x: real): (n: int)
    ensures 0.0 <= x ==> n as real <= x < n as real + 1.0
    ensures x < 0.0 ==> n as real - 1.0 < x <= n as real
  {
    if x >= 0.0 then x.Floor else -((-x).Floor)
  }

  /** math.Max on non-NaN arguments. */
  function Max(a: real, b: real): real {
    if a > b then a else b
  }

  /** math.Min on non-NaN arguments. */
  function Min(a: real, b: real): real {
    if a < b then a else b
  }

  /** threewayMax: the largest of the three, and always one of them. */
  function Max3(a: real, b: real, c: real): (m: real)
    ensures m == a || m == b || m == c
    ensures a <= m && b <= m && c <= m
  {
    Max(Max(a, b), Max(b, c))
  }

  /** threewayMin: the smallest of the three, and always one of them. */
  function Min3(a: real, b: real, c: real): (m: real)
    ensures m == a || m == b || m == c
    ensures m <= a && m <= b && m <= c
  {
    Min(Min(a, b), Min(b, c))
  }

  /** A sample scaled to [0, 1] by dividing by 65535. */
  function ToUnit(c: Sample): (v: real)
    ensures 0.0 <= v <= 1.0
    ensures v * 65535.0 == c as real
  {
    c as real / 65535.0
  }

  /** rgbToHSL: lightness is the mean of the extremes; an achromatic input has
      hue and saturation 0; otherwise the hue is taken from the dominant
      channel, red first, then green, then blue. */
  function RgbToHsl(r: Sample, g: Sample, b: Sample): Hsl {
    var rn, gn, bn := ToUnit(r), ToUnit(g), ToUnit(b);
    var max, min := Max3(rn, gn, bn), Min3(rn, gn, bn);
    var l := (max + min) / 2.0;
    if max == min then
      Hsl(0.0, 0.0, l)
    else
      var d := max - min;
      var s := if l > 0.5 then d / (2.0 - max - min) else d / (max + min);
      var h :=
        if max == rn then (gn - bn) / d + (if gn < bn then 6.0 else 0.0)
        else if max == gn then (bn - rn) / d + 2.0
        else (rn - gn) / d + 4.0;
      Hsl(h / 6.0, s, l)
  }

  /** hueToRGB: `t` is moved into range by at most one whole turn, then the
      piecewise-linear hue ramp between `p` and `q` is evaluated there. */
  function HueToRgb(p: real, q: real, t: real): real {
    HueRamp(p, q, WrapHue(t))
  }

  /** The single-step wrap of hueToRGB: add 1 below 0, then subtract 1 above 1. */
  function WrapHue(t0: real): (t: real)
    ensures -1.0 <= t0 <= 2.0 ==> 0.0 <= t <= 1.0
    ensures t0 < 0.0 ==> t == t0 + 1.0
    ensures 0.0 <= t0 <= 1.0 ==> t == t0
    ensures 1.0 < t0 ==> t == t0 - 1.0
  {
    var t1 := if t0 < 0.0 then t0 + 1.0 else t0;
    if t1 > 1.0 then t1 - 1.0 else t1
  }

  /** The hue ramp: up from p to q on [0, 1/6), q on [1/6, 1/2), down to p on
      [1/2, 2/3), p from 2/3 on. */
  function HueRamp(p: real, q: real, t: real): real {
    if t < 1.0 / 6.0 then p + (q - p) * 6.0 * t
    else if t < 1.0 / 2.0 then q
    else if t < 2.0 / 3.0 then p + (q - p) * (2.0 / 3.0 - t) * 6.0
    else p
  }

  /** hslToRGB: three equal channels for saturation 0, otherwise the hue ramp
      at h + 1/3, h and h - 1/3 between p and q; each channel is scaled by
      65535 and truncated. */
  function HslToRgb(h: real, s: real, l: real): Rgb {
    if s == 0.0 then
      var v := Truncate(l * 65535.0);
      Rgb(v, v, v)
    else
      var q := if l < 0.5 then l * (1.0 + s) else l + s - l * s;
      var p := 2.0 * l - q;
      Rgb(Truncate(HueToRgb(p, q, h + 1.0 / 3.0) * 65535.0),
          Truncate(HueToRgb(p, q, h) * 65535.0),
          Truncate(HueToRgb(p, q, h - 1.0 / 3.0) * 65535.0))
  }

  /** convertUint32ToUint16: (in / MaxUint32) * MaxUint16, truncated. Since
      4294967295 = 65535 * 65537 the result is in / 65537, so it is 0 for every
      input up to 65536, in particular for every 16-bit sample. */
  function ConvertUint32ToUint16(c: Uint32): (r: int)
    ensures r == c / 65537
    ensures 0 <= r <= MaxUint16
    ensures c <= 65536 ==> r == 0
  {
    var x := (c as real / 4294967295.0) * 65535.0;
    assert x == c as real / 65537.0;
    FloorOfQuotient(c, 65537);
    Truncate(x)
  }

  // ---------------------------------------------------------------------
  // Integer forms

  function MaxSample(r: int, g: int, b: int): int {
    if r >= g && r >= b then r else if g >= b then g else b
  }

  function MinSample(r: int, g: int, b: int): int {
    if r <= g && r <= b then r else if g <= b then g else b
  }

  /** The floor of an exact quotient is integer division. */
  lemma FloorOfQuotient(a: int, b: int)
    requires b > 0
    ensures ((a as real) / (b as real)).Floor == a / b
  {
    var q, m := a / b, a % b;
    assert a == q * b + m;
    assert (a as real) / (b as real) == q as real + (m as real) / (b as real);
    assert 0.0 <= (m as real) / (b as real) < 1.0;
  }

  /** Scaling to [0, 1] keeps order, so the extremes of the scaled samples are
      the scaled extremes. */
  lemma UnitExtremes(r: Sample, g: Sample, b: Sample)
    ensures Max3(ToUnit(r), ToUnit(g), ToUnit(b)) == ToUnit(MaxSample(r, g, b))
    ensures Min3(ToUnit(r), ToUnit(g), ToUnit(b)) == ToUnit(MinSample(r, g, b))
  {
    UnitOrder(r, g);
    UnitOrder(g, b);
    UnitOrder(r, b);
  }

  lemma UnitOrder(a: Sample, b: Sample)
    ensures ToUnit(a) <= ToUnit(b) <==> a <= b
    ensures ToUnit(a) == ToUnit(b) <==> a == b
  {
  }

  /** The lightness of rgbToHSL is (max + min) / (2 * 65535) of the raw samples. */
  lemma LightnessFormula(r: Sample, g: Sample, b: Sample)
    ensures RgbToHsl(r, g, b).l == (MaxSample(r, g, b) + MinSample(r, g, b)) as real / 131070.0
  {
    UnitExtremes(r, g, b);
  }

  /** The histogram bucket `uint16(L * 65535)` of a pixel is the integer mean
      of its largest and smallest raw sample, so it is always a valid index
      into a table of 65536 entries. */
  lemma LightnessBucket(r: Sample, g: Sample, b: Sample)
    ensures Truncate(RgbToHsl(r, g, b).l * 65535.0) == (MaxSample(r, g, b) + MinSample(r, g, b)) / 2
    ensures 0 <= (MaxSample(r, g, b) + MinSample(r, g, b)) / 2 <= MaxUint16
  {
    var sum := MaxSample(r, g, b) + MinSample(r, g, b);
    LightnessFormula(r, g, b);
    assert RgbToHsl(r, g, b).l * 65535.0 == (sum as real) / (2 as real);
    FloorOfQuotient(sum, 2);
  }

  /** An achromatic input (all three samples equal) has hue 0, saturation 0 and
      the common sample over 65535 as lightness. */
  lemma AchromaticHsl(r: Sample, g: Sample, b: Sample)
    requires r == g == b
    ensures RgbToHsl(r, g, b) == Hsl(0.0, 0.0, r as real / 65535.0)
  {
  }

  /** For every 16-bit input the three components lie in their ranges: hue in
      [0, 1), saturation and lightness in [0, 1]; saturation is 0 exactly for
      the achromatic inputs. */
  lemma HslRange(r: Sample, g: Sample, b: Sample)
    ensures 0.0 <= RgbToHsl(r, g, b).h < 1.0
    ensures 0.0 <= RgbToHsl(r, g, b).s <= 1.0
    ensures 0.0 <= RgbToHsl(r, g, b).l <= 1.0
    ensures RgbToHsl(r, g, b).s == 0.0 <==> r == g == b
  {
    UnitExtremes(r, g, b);
    UnitOrder(r, g);
    UnitOrder(g, b);
    UnitOrder(r, b);
    var rn, gn, bn := ToUnit(r), ToUnit(g), ToUnit(b);
    var max, min := Max3(rn, gn, bn), Min3(rn, gn, bn);
    if max != min {
      var d := max - min;
      var l := (max + min) / 2.0;
      if l > 0.5 {
        QuotientInUnit(d, 2.0 - max - min);
      } else {
        QuotientInUnit(d, max + min);
      }
      if max == rn {
        QuotientBetween(gn - bn, d);
      } else if max == gn {
        QuotientBetween(bn - rn, d);
        assert -d < bn - rn;
      } else {
        QuotientBetween(rn - gn, d);
        assert -d < rn - gn < d;
      }
    }
  }

  lemma QuotientInUnit(x: real, y: real)
    requires 0.0 < x <= y
    ensures 0.0 < x / y <= 1.0
  {
  }

  lemma QuotientBetween(x: real, d: real)
    requires d > 0.0 && -d <= x <= d
    ensures -1.0 <= x / d <= 1.0
    ensures x < d ==> x / d < 1.0
    ensures -d < x ==> -1.0 < x / d
    ensures x < 0.0 ==> x / d < 0.0
    ensures 0.0 <= x ==> 0.0 <= x / d
  {
    var y := x / d;
    assert y * d == x;
  }

  /** Hue at the six corners of the colour hexagon: the primaries red, green and
      blue at 0, 1/3 and 2/3, and the pairs of equal dominant channels (yellow,
      cyan, magenta) at 1/6, 1/2 and 5/6. For the pairs the red-before-green-
      before-blue order picks a branch, and the value is the one the other
      branch would have given. */
  lemma HueAtCorners(r: Sample, g: Sample, b: Sample)
    ensures r > g == b ==> RgbToHsl(r, g, b).h == 0.0
    ensures g > r == b ==> RgbToHsl(r, g, b).h == 1.0 / 3.0
    ensures b > r == g ==> RgbToHsl(r, g, b).h == 2.0 / 3.0
    ensures r == g > b ==> RgbToHsl(r, g, b).h == 1.0 / 6.0
    ensures g == b > r ==> RgbToHsl(r, g, b).h == 1.0 / 2.0
    ensures r == b > g ==> RgbToHsl(r, g, b).h == 5.0 / 6.0
  {
    UnitExtremes(r, g, b);
    UnitOrder(r, g);
    UnitOrder(g, b);
    UnitOrder(r, b);
    var rn, gn, bn := ToUnit(r), ToUnit(g), ToUnit(b);
    if r > g == b {
      ZeroQuotient(rn - gn);
    } else if g > r == b {
      ZeroQuotient(gn - rn);
    } else if b > r == g {
      ZeroQuotient(bn - rn);
    } else if r == g > b {
      UnitQuotient(rn - bn);
    } else if g == b > r {
      UnitQuotient(gn - rn);
    } else if r == b > g {
      UnitQuotient(rn - gn);
    }
  }

  lemma ZeroQuotient(d: real)
    requires d != 0.0
    ensures 0.0 / d == 0.0
  {
  }

  lemma UnitQuotient(d: real)
    requires d != 0.0
    ensures d / d == 1.0 && (-d) / d == -1.0
  {
  }

  /** On the plateau [1/6, 1/2) the ramp gives q; on [2/3, 1] it gives p, and
      because only one turn is subtracted it gives p again from 5/3 upwards. */
  lemma HueToRgbPlateaus(p: real, q: real, t: real)
    ensures 1.0 / 6.0 <= t < 1.0 / 2.0 ==> HueToRgb(p, q, t) == q
    ensures 2.0 / 3.0 <= t <= 1.0 ==> HueToRgb(p, q, t) == p
    ensures 5.0 / 3.0 <= t ==> HueToRgb(p, q, t) == p
  {
  }

  /** One turn of hue makes no difference to the ramp as long as t lies in
      [-1, 1]. The arguments hslToRGB builds from a hue in [0, 1) lie in
      [-1/3, 4/3), where the single wrap lands in [0, 1] (WrapHue). */
  lemma HueToRgbPeriodic(p: real, q: real, t: real)
    requires -1.0 <= t <= 1.0
    ensures HueToRgb(p, q, t + 1.0) == HueToRgb(p, q, t)
  {
    if t == 0.0 {
      assert HueRamp(p, q, 0.0) == p + (q - p) * 6.0 * 0.0 == p;
    }
  }

  /** The wrap is a single step: 1.25 and 2.25 are one turn apart but give q
      and p respectively. */
  lemma HueToRgbSingleWrap(p: real, q: real)
    requires p != q
    ensures HueToRgb(p, q, 1.25) == q
    ensures HueToRgb(p, q, 2.25) == p
    ensures HueToRgb(p, q, 2.25) != HueToRgb(p, q, 1.25)
  {
  }

  /** For t in [-1, 2] the ramp stays between p and q. */
  lemma HueToRgbBetween(p: real, q: real, t: real)
    requires p <= q
    requires -1.0 <= t <= 2.0
    ensures p <= HueToRgb(p, q, t)
    ensures HueToRgb(p, q, t) <= q
  {
    HueRampBetween(p, q, WrapHue(t));
  }

  lemma HueRampBetween(p: real, q: real, t: real)
    requires p <= q
    requires 0.0 <= t <= 1.0
    ensures p <= HueRamp(p, q, t)
    ensures HueRamp(p, q, t) <= q
  {
    if t < 1.0 / 6.0 {
      var up := (q - p) * 6.0 * t;
      NonNegativeProduct((q - p) * 6.0, t);
      RampUpHigh(p, q, t);
      assert HueRamp(p, q, t) == p + up;
    } else if 1.0 / 2.0 <= t < 2.0 / 3.0 {
      RampDownLow(p, q, t);
      RampDownHigh(p, q, t);
    }
  }

  lemma RampUpHigh(p: real, q: real, t: real)
    requires p <= q && 0.0 <= t < 1.0 / 6.0
    ensures p + (q - p) * 6.0 * t <= q
  {
    ScaleBetween(q - p, 6.0 * t);
    assert (q - p) * 6.0 * t == (q - p) * (6.0 * t);
  }

  lemma RampDownLow(p: real, q: real, t: real)
    requires p <= q && 1.0 / 2.0 <= t < 2.0 / 3.0
    ensures p <= p + (q - p) * (2.0 / 3.0 - t) * 6.0
  {
    NonNegativeProduct(q - p, 2.0 / 3.0 - t);
    NonNegativeProduct((q - p) * (2.0 / 3.0 - t), 6.0);
  }

  lemma RampDownHigh(p: real, q: real, t: real)
    requires p <= q && 1.0 / 2.0 <= t < 2.0 / 3.0
    ensures p + (q - p) * (2.0 / 3.0 - t) * 6.0 <= q
  {
    ScaleBetween(q - p, (2.0 / 3.0 - t) * 6.0);
    assert (q - p) * (2.0 / 3.0 - t) * 6.0 == (q - p) * ((2.0 / 3.0 - t) * 6.0);
  }

  lemma NonNegativeProduct(x: real, y: real)
    requires 0.0 <= x && 0.0 <= y
    ensures 0.0 <= x * y
  {
  }

  lemma ScaleBetween(x: real, a: real)
    requires 0.0 <= x && 0.0 <= a <= 1.0
    ensures 0.0 <= x * a <= x
  {
    assert x * a <= x * 1.0;
  }

  /** With saturation 0 the three channels are equal and each is the largest
      integer not above l * 65535, which is a 16-bit value for l in [0, 1]. */
  lemma AchromaticRgb(h: real, l: real)
    requires 0.0 <= l <= 1.0
    ensures HslToRgb(h, 0.0, l).r == HslToRgb(h, 0.0, l).g == HslToRgb(h, 0.0, l).b
    ensures HslToRgb(h, 0.0, l).r as real <= l * 65535.0 < HslToRgb(h, 0.0, l).r as real + 1.0
    ensures 0 <= HslToRgb(h, 0.0, l).r <= MaxUint16
  {
  }

  /** For h in [-2/3, 5/3] and saturation and lightness in [0, 1] (in
      particular for every triple rgbToHSL produces) all three channels fit in
      16 bits. */
  lemma HslToRgbInRange(h: real, s: real, l: real)
    requires -2.0 / 3.0 <= h <= 5.0 / 3.0
    requires 0.0 <= s <= 1.0 && 0.0 <= l <= 1.0
    ensures 0 <= HslToRgb(h, s, l).r <= MaxUint16
    ensures 0 <= HslToRgb(h, s, l).g <= MaxUint16
    ensures 0 <= HslToRgb(h, s, l).b <= MaxUint16
  {
    if s != 0.0 {
      var q := if l < 0.5 then l * (1.0 + s) else l + s - l * s;
      var p := 2.0 * l - q;
      RampBounds(s, l);
      RampChannelsInRange(p, q, h);
    }
  }

  /** The three channels of hslToRGB at hues h + 1/3, h and h - 1/3 fit 16
      bits when the ramp ends lie in [0, 1]. */
  lemma RampChannelsInRange(p: real, q: real, h: real)
    requires 0.0 <= p <= q <= 1.0
    requires -2.0 / 3.0 <= h <= 5.0 / 3.0
    ensures 0 <= Truncate(HueToRgb(p, q, h + 1.0 / 3.0) * 65535.0) <= MaxUint16
    ensures 0 <= Truncate(HueToRgb(p, q, h) * 65535.0) <= MaxUint16
    ensures 0 <= Truncate(HueToRgb(p, q, h - 1.0 / 3.0) * 65535.0) <= MaxUint16
  {
    ChannelInRange(p, q, h + 1.0 / 3.0);
    ChannelInRange(p, q, h);
    ChannelInRange(p, q, h - 1.0 / 3.0);
  }

  /** The two ends p <= q of the hue ramp lie in [0, 1]. */
  lemma RampBounds(s: real, l: real)
    requires 0.0 <= s <= 1.0 && 0.0 <= l <= 1.0
    ensures var q := if l < 0.5 then l * (1.0 + s) else l + s - l * s;
            0.0 <= 2.0 * l - q <= q <= 1.0
  {
    if l < 0.5 {
      LowRamp(s, l);
    } else {
      HighRampLow(s, l);
      HighRampHigh(s, l);
    }
  }

  lemma LowRamp(s: real, l: real)
    requires 0.0 <= s <= 1.0 && 0.0 <= l < 0.5
    ensures 0.0 <= 2.0 * l - l * (1.0 + s) <= l * (1.0 + s) <= 1.0
  {
    ScaleBetween(l, s);
    assert l * (1.0 + s) == l + l * s;
  }

  lemma HighRampLow(s: real, l: real)
    requires 0.0 <= s <= 1.0 && 0.5 <= l <= 1.0
    ensures 0.0 <= 2.0 * l - (l + s - l * s)
  {
    ScaleBetween(1.0 - l, s);
    assert l + s - l * s == l + (1.0 - l) * s;
  }

  lemma HighRampHigh(s: real, l: real)
    requires 0.0 <= s <= 1.0 && 0.5 <= l <= 1.0
    ensures l <= l + s - l * s
    ensures l + s - l * s <= 1.0
  {
    NonNegativeProduct(1.0 - l, s);
    assert l + s - l * s == l + (1.0 - l) * s;
    NonNegativeProduct(1.0 - l, 1.0 - s);
    assert 1.0 - (l + s - l * s) == (1.0 - l) * (1.0 - s);
  }

  lemma ChannelInRange(p: real, q: real, t: real)
    requires 0.0 <= p <= q <= 1.0
    requires -1.0 <= t <= 2.0
    ensures 0 <= Truncate(HueToRgb(p, q, t) * 65535.0) <= MaxUint16
  {
    HueToRgbBetween(p, q, t);
  }
}
