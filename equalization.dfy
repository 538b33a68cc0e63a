/** HistogramEqualizationFilter: a lightness histogram over every pixel, its
    normalisation by `Max.X * Max.Y`, inclusive prefix sums, a remap table with
    half-up rounding against 65536, and a second pass that replaces each
    pixel's lightness through the table. */
module Equalization {

  import opened ColorSpace
  import opened Images

  /** arraySize = math.MaxUint16 + 1: one bucket per 16-bit lightness level. */
  const Levels: int := 65536

  // ---------------------------------------------------------------------
  // Specification of the tables

  /** The bucket `uint16(L * 65535)` of a pixel, `L` its rgbToHSL lightness:
      the integer mean of its largest and smallest sample. */
  function Bucket(c: Color): (k: int)
    ensures k == LightnessLevel(c)
    ensures 0 <= k < Levels
  {
    LightnessBucket(c.r, c.g, c.b);
    Truncate(RgbToHsl(c.r, c.g, c.b).l * 65535.0)
  }

  /** The integer mean of a pixel's largest and smallest sample. */
  function LightnessLevel(c: Color): int {
    (MaxSample(c.r, c.g, c.b) + MinSample(c.r, c.g, c.b)) / 2
  }

  /** How many pixels of `s` fall into bucket `k`. */
  function Count(s: seq<Color>, k: int): nat {
    if |s| == 0 then 0
    else Count(s[..|s| - 1], k) + (if LightnessLevel(s[|s| - 1]) == k then 1 else 0)
  }

  /** The histogram of a sequence of pixels: one counter per bucket. */
  function Histogram(s: seq<Color>): (h: seq<int>)
    ensures |h| == Levels
  {
    seq(Levels, k requires 0 <= k < Levels => Count(s, k))
  }

  function Sum(s: seq<int>): int {
    if |s| == 0 then 0 else Sum(s[..|s| - 1]) + s[|s| - 1]
  }

  function RealSum(s: seq<real>): real {
    if |s| == 0 then 0.0 else RealSum(s[..|s| - 1]) + s[|s| - 1]
  }

  /** normailzedChannel: each counter divided by the pixel total. */
  function Normalized(h: seq<int>, total: int): (n: seq<real>)
    requires total != 0
    ensures |n| == |h|
  {
    seq(|h|, i requires 0 <= i < |h| => h[i] as real / total as real)
  }

  /** newHistogram: the inclusive prefix sums. */
  function Cumulative(s: seq<real>): (c: seq<real>)
    ensures |c| == |s|
  {
    seq(|s|, i requires 0 <= i < |s| => RealSum(s[..i + 1]))
  }

  /** One entry of newValues: uint16(cdf * arraySize + 0.5), unclamped. */
  function RemapEntry(cdf: real): int {
    Truncate(cdf * (Levels as real) + 0.5)
  }

  /** newValues from newHistogram. */
  function Remap(c: seq<real>): (r: seq<int>)
    ensures |r| == |c|
  {
    seq(|c|, i requires 0 <= i < |c| => RemapEntry(c[i]))
  }

  /** The remap table the filter derives from a histogram and a pixel total. */
  function EqualizationTable(h: seq<int>, total: int): (t: seq<int>)
    requires total != 0
    ensures |t| == |h|
  {
    Remap(Cumulative(Normalized(h, total)))
  }

  /** totalPixels: `Max.X * Max.Y`, not width * height. */
  function TotalPixels(b: Rect): int {
    b.maxX * b.maxY
  }

  /** The second pass on one pixel: hue and saturation of the input, lightness
      table[bucket] / 65535, back to RGB, alpha 65535. */
  function EqualizedPixel(c: Color, table: seq<int>): Rgba64
    requires |table| == Levels
  {
    var hsl := RgbToHsl(c.r, c.g, c.b);
    var l := table[Bucket(c)] as real / 65535.0;
    var rgb := HslToRgb(hsl.h, hsl.s, l);
    Rgba64(rgb.r, rgb.g, rgb.b, Opaque)
  }

  // ---------------------------------------------------------------------
  // The filter

  /** First pass: one increment per pixel, in visiting order. */
  method BuildHistogram(img: Image<Color>) returns (hist: array<int>)
    requires img.Valid()
    ensures hist.Length == Levels
    ensures hist[..] == Histogram(img.Raster())
  {
    hist := new int[Levels](_ => 0);
    ghost var seen: seq<Color> := [];
    var b := img.bounds;
    var y := b.minY;
    while y < b.maxY
      invariant b.minY <= y <= b.maxY
      invariant seen == img.RasterRows(y - b.minY)
      invariant forall k :: 0 <= k < Levels ==> hist[k] == Count(seen, k)
    {
      CountRow(img, hist, y, seen);
      seen := seen + img.Row(y - b.minY);
      y := y + 1;
    }
    CountsAreHistogram(hist[..], seen);
  }

  /** The inner loop of the first pass: every pixel of row y, left to right,
      increments its bucket. */
  method CountRow(img: Image<Color>, hist: array<int>, y: int, ghost seen: seq<Color>)
    requires img.Valid() && img.bounds.minY <= y < img.bounds.maxY
    requires hist.Length == Levels
    requires forall k :: 0 <= k < Levels ==> hist[k] == Count(seen, k)
    modifies hist
    ensures forall k :: 0 <= k < Levels ==> hist[k] == Count(seen + img.Row(y - img.bounds.minY), k)
  {
    var b := img.bounds;
    var x, row := b.minX, y - b.minY;
    ghost var pixels := img.Row(row);
    assert seen + pixels[..0] == seen;
    while x < b.maxX
      invariant b.minX <= x <= b.maxX
      invariant forall k :: 0 <= k < Levels ==> hist[k] == Count(seen + pixels[..x - b.minX], k)
    {
      ghost var i := x - b.minX;
      var c := img.At(x, y);
      assert c == pixels[i];
      var k := Bucket(c);
      CountStep(seen, pixels, i);
      hist[k] := hist[k] + 1;
      x := x + 1;
      assert x - b.minX == i + 1;
    }
    assert pixels[..x - b.minX] == pixels;
  }

  /** normailzedChannel[i] = histogram[i] / totalPixels. */
  method NormalizeHistogram(hist: array<int>, total: int) returns (norm: array<real>)
    requires hist.Length == Levels && total != 0
    ensures norm.Length == Levels
    ensures norm[..] == Normalized(hist[..], total)
  {
    norm := new real[Levels](_ => 0.0);
    var i := 0;
    while i < Levels
      invariant 0 <= i <= Levels
      invariant forall k :: 0 <= k < i ==> norm[k] == hist[k] as real / total as real
    {
      norm[i] := hist[i] as real / total as real;
      i := i + 1;
    }
  }

  /** newHistogram[i] accumulates norm[0..i] with the nested loop of the
      filter, starting from the zero value of the array. */
  method CumulativeDistribution(norm: array<real>) returns (cdf: array<real>)
    requires norm.Length == Levels
    ensures cdf.Length == Levels
    ensures cdf[..] == Cumulative(norm[..])
  {
    cdf := new real[Levels](_ => 0.0);
    var i := 0;
    while i < Levels
      invariant 0 <= i <= Levels
      invariant forall k :: 0 <= k < i ==> cdf[k] == RealSum(norm[..k + 1])
      invariant forall k :: i <= k < Levels ==> cdf[k] == 0.0
    {
      var j := 0;
      while j <= i
        invariant 0 <= j <= i + 1
        invariant cdf[i] == RealSum(norm[..j])
        invariant forall k :: 0 <= k < i ==> cdf[k] == RealSum(norm[..k + 1])
        invariant forall k :: i < k < Levels ==> cdf[k] == 0.0
      {
        assert norm[..j + 1][..j] == norm[..j];
        cdf[i] := cdf[i] + norm[j];
        j := j + 1;
      }
      i := i + 1;
    }
  }

  /** newValues[i] = uint16(newHistogram[i] * arraySize + 0.5). */
  method RemapTable(cdf: array<real>) returns (values: array<int>)
    requires cdf.Length == Levels
    ensures values.Length == Levels
    ensures values[..] == Remap(cdf[..])
  {
    values := new int[Levels](_ => 0);
    var i := 0;
    while i < Levels
      invariant 0 <= i <= Levels
      invariant forall k :: 0 <= k < i ==> values[k] == RemapEntry(cdf[k])
    {
      values[i] := Truncate(cdf[i] * (Levels as real) + 0.5);
      i := i + 1;
    }
  }

  /** HistogramEqualizationFilter.Apply: a fresh image of the input's bounds in
      which every pixel keeps its hue and saturation, takes the remap entry of
      its bucket / 65535 as lightness, and has alpha 65535.

      With a pixel total of 0 the normalised and cumulative tables are NaN or
      infinite, and Go leaves the uint16 conversion of such values to the
      implementation. `nonFinite` is the remap table those conversions
      produce: 65536 uint16 values the model does not fix. */
  method HistogramEqualizationFilter(img: Image<Color>, nonFinite: seq<int>) returns (out: Image<Rgba64>)
    requires img.Valid()
    requires |nonFinite| == Levels && forall k :: 0 <= k < Levels ==> 0 <= nonFinite[k] <= MaxUint16
    ensures fresh(out) && fresh(out.pix)
    ensures out.Valid() && out.bounds == img.bounds
    ensures forall j, i :: 0 <= j < img.pix.Length0 && 0 <= i < img.pix.Length1 ==> out.pix[j, i].a == Opaque
    ensures TotalPixels(img.bounds) != 0 ==>
      forall j, i :: 0 <= j < img.pix.Length0 && 0 <= i < img.pix.Length1 ==>
        out.pix[j, i] == EqualizedPixel(img.pix[j, i],
          EqualizationTable(Histogram(img.Raster()), TotalPixels(img.bounds)))
    ensures TotalPixels(img.bounds) == 0 ==>
      forall j, i :: 0 <= j < img.pix.Length0 && 0 <= i < img.pix.Length1 ==>
        out.pix[j, i] == EqualizedPixel(img.pix[j, i], nonFinite)
  {
    var b := img.bounds;
    var hist := BuildHistogram(img);
    var total := b.maxX * b.maxY;
    var table: seq<int>;
    if total == 0 {
      table := nonFinite;
    } else {
      var norm := NormalizeHistogram(hist, total);
      var cdf := CumulativeDistribution(norm);
      var values := RemapTable(cdf);
      table := values[..];
    }
    out := MapPixels(img, c requires |table| == Levels => EqualizedPixel(c, table));
  }

  // ---------------------------------------------------------------------
  // Histogram lemmas

  /** A table whose every entry is its bucket's count is the histogram. */
  lemma CountsAreHistogram(t: seq<int>, s: seq<Color>)
    requires |t| == Levels
    requires forall j :: 0 <= j < Levels ==> t[j] == Count(s, j)
    ensures t == Histogram(s)
  {
  }

  /** Counting one more pixel of a row adds one to its own bucket and to no
      other. */
  lemma CountStep(seen: seq<Color>, pixels: seq<Color>, i: int)
    requires 0 <= i < |pixels|
    ensures forall k :: Count(seen + pixels[..i + 1], k)
                          == Count(seen + pixels[..i], k) + (if Bucket(pixels[i]) == k then 1 else 0)
  {
    assert seen + pixels[..i + 1] == (seen + pixels[..i]) + [pixels[i]];
    CountSnoc(seen + pixels[..i], pixels[i]);
  }

  /** One more pixel adds one to its own bucket's count and to no other. */
  lemma CountSnoc(s: seq<Color>, c: Color)
    ensures forall k :: Count(s + [c], k) == Count(s, k) + (if Bucket(c) == k then 1 else 0)
  {
    assert (s + [c])[..|s|] == s;
  }

  /** CountSnoc for the whole histogram: one counter goes up by one. */
  lemma HistogramSnoc(s: seq<Color>, c: Color)
    ensures Histogram(s + [c]) == Histogram(s)[Bucket(c) := Histogram(s)[Bucket(c)] + 1]
  {
    CountSnoc(s, c);
  }

  /** Every pixel lands in exactly one bucket, so the counters add up to the
      number of pixels. */
  lemma {:induction false} HistogramSum(s: seq<Color>)
    ensures Sum(Histogram(s)) == |s|
  {
    if |s| == 0 {
      assert Histogram(s) == seq(Levels, _ => 0);
      SumOfZeros(Levels);
    } else {
      var init, c := s[..|s| - 1], s[|s| - 1];
      assert s == init + [c];
      HistogramSum(init);
      HistogramSnoc(init, c);
      SumUpdate(Histogram(init), Bucket(c), 1);
    }
  }

  /** The counters of an image's histogram add up to width * height. */
  lemma ImageHistogramSum(img: Image<Color>)
    requires img.Valid()
    ensures Sum(Histogram(img.Raster())) == img.bounds.Width() * img.bounds.Height()
  {
    HistogramSum(img.Raster());
    img.RasterRowsLength(img.pix.Length0);
  }

  /** A solid-colour image puts all width * height pixels into the bucket of
      its colour and leaves every other bucket empty. */
  lemma UniformImageHistogram(img: Image<Color>, c: Color, k: int)
    requires img.Valid()
    requires forall j, i :: 0 <= j < img.pix.Length0 && 0 <= i < img.pix.Length1 ==> img.pix[j, i] == c
    requires 0 <= k < Levels
    ensures Histogram(img.Raster())[k] ==
      if k == Bucket(c) then img.bounds.Width() * img.bounds.Height() else 0
  {
    img.RasterRowsUniform(img.pix.Length0, c);
    img.RasterRowsLength(img.pix.Length0);
    UniformHistogram(img.Raster(), c, k);
  }

  /** A sequence of one colour puts every pixel into one bucket. */
  lemma {:induction false} UniformHistogram(s: seq<Color>, c: Color, k: int)
    requires forall i :: 0 <= i < |s| ==> s[i] == c
    requires 0 <= k < Levels
    ensures Histogram(s)[k] == if k == Bucket(c) then |s| else 0
  {
    UniformCount(s, c, k);
  }

  lemma {:induction false} UniformCount(s: seq<Color>, c: Color, k: int)
    requires forall i :: 0 <= i < |s| ==> s[i] == c
    ensures Count(s, k) == if k == Bucket(c) then |s| else 0
  {
    if |s| > 0 {
      UniformCount(s[..|s| - 1], c, k);
    }
  }

  lemma {:induction false} SumOfZeros(n: nat)
    ensures Sum(seq(n, _ => 0)) == 0
  {
    if n > 0 {
      assert seq(n, _ => 0)[..n - 1] == seq(n - 1, _ => 0);
      SumOfZeros(n - 1);
    }
  }

  lemma {:induction false} SumUpdate(h: seq<int>, k: int, v: int)
    requires 0 <= k < |h|
    ensures Sum(h[k := h[k] + v]) == Sum(h) + v
  {
    var n := |h|;
    var h' := h[k := h[k] + v];
    if k == n - 1 {
      assert h'[..n - 1] == h[..n - 1];
    } else {
      assert h'[..n - 1] == h[..n - 1][k := h[k] + v];
      SumUpdate(h[..n - 1], k, v);
    }
  }

  // ---------------------------------------------------------------------
  // Table lemmas

  /** newHistogram[i] is the prefix count up to i divided by the total. */
  lemma CumulativeIsPrefixShare(h: seq<int>, total: int, i: int)
    requires total != 0 && 0 <= i < |h|
    ensures Cumulative(Normalized(h, total))[i] == Sum(h[..i + 1]) as real / total as real
  {
    NormalizedPrefix(h, total, i + 1);
    assert Normalized(h, total)[..i + 1] == Normalized(h[..i + 1], total);
  }

  lemma {:induction false} NormalizedPrefix(h: seq<int>, total: int, n: int)
    requires total != 0 && 0 <= n <= |h|
    ensures RealSum(Normalized(h[..n], total)) == Sum(h[..n]) as real / total as real
  {
    if n == 0 {
      assert h[..0] == [];
    } else {
      NormalizedPrefix(h, total, n - 1);
      assert Normalized(h[..n], total)[..n - 1] == Normalized(h[..n - 1], total);
      assert h[..n][..n - 1] == h[..n - 1];
      AddQuotients(Sum(h[..n - 1]) as real, h[n - 1] as real, total as real);
    }
  }

  lemma AddQuotients(a: real, b: real, d: real)
    requires d != 0.0
    ensures a / d + b / d == (a + b) / d
  {
  }

  /** With non-negative counters the prefix counts never decrease. */
  lemma {:induction false} PrefixMonotone(h: seq<int>, i: int, j: int)
    requires forall k :: 0 <= k < |h| ==> h[k] >= 0
    requires 0 <= i <= j <= |h|
    ensures 0 <= Sum(h[..i]) <= Sum(h[..j])
  {
    if i < j {
      PrefixMonotone(h, i, j - 1);
      assert h[..j][..j - 1] == h[..j - 1];
    } else if i > 0 {
      PrefixMonotone(h, i - 1, i);
    }
  }

  /** newHistogram is non-decreasing. */
  lemma CumulativeMonotone(h: seq<int>, total: int, i: int, j: int)
    requires total > 0
    requires forall k :: 0 <= k < |h| ==> h[k] >= 0
    requires 0 <= i <= j < |h|
    ensures Cumulative(Normalized(h, total))[i] <= Cumulative(Normalized(h, total))[j]
  {
    CumulativeIsPrefixShare(h, total, i);
    CumulativeIsPrefixShare(h, total, j);
    PrefixMonotone(h, i + 1, j + 1);
    QuotientMonotone(Sum(h[..i + 1]) as real, Sum(h[..j + 1]) as real, total as real);
  }

  lemma QuotientMonotone(a: real, b: real, d: real)
    requires a <= b && d > 0.0
    ensures a / d <= b / d
  {
    assert b / d - a / d == (b - a) / d;
  }

  /** In integers, a remap entry with prefix count `p` of a positive total is
      (2 * p * 65536 + total) / (2 * total). */
  lemma RemapEntryValue(p: int, total: int)
    requires p >= 0 && total > 0
    ensures RemapEntry(p as real / total as real) == (2 * p * Levels + total) / (2 * total)
  {
    var x := p as real / total as real;
    var v := x * (Levels as real) + 0.5;
    assert x * (total as real) == p as real;
    assert v * (2 * total) as real == (2 * p * Levels + total) as real by {
      assert v * (2 * total) as real == 2.0 * (x * total as real) * (Levels as real) + total as real;
    }
    QuotientOfProduct(v, (2 * p * Levels + total) as real, (2 * total) as real);
    FloorOfQuotient(2 * p * Levels + total, 2 * total);
    assert 0.0 <= x by {
      QuotientNonNegative(p as real, total as real);
    }
  }

  /** A value times a positive divisor is the dividend of its quotient. */
  lemma QuotientOfProduct(v: real, n: real, d: real)
    requires d > 0.0 && v * d == n
    ensures v == n / d
  {
  }

  lemma QuotientNonNegative(a: real, d: real)
    requires 0.0 <= a && 0.0 < d
    ensures 0.0 <= a / d
  {
  }

  /** newValues is non-decreasing. */
  lemma TableMonotone(h: seq<int>, total: int, i: int, j: int)
    requires total > 0
    requires forall k :: 0 <= k < |h| ==> h[k] >= 0
    requires 0 <= i <= j < |h|
    ensures EqualizationTable(h, total)[i] <= EqualizationTable(h, total)[j]
  {
    CumulativeMonotone(h, total, i, j);
    CumulativeIsPrefixShare(h, total, i);
    PrefixMonotone(h, 0, i + 1);
    QuotientNonNegative(Sum(h[..i + 1]) as real, total as real);
  }

  /** A flat histogram, n pixels in every bucket over a total of 65536 * n
      (an image at the origin), is remapped to i + 1 at bucket i: one above the
      identity everywhere, and 65536 at the top bucket. */
  lemma FlatHistogramTable(n: int, i: int)
    requires n > 0 && 0 <= i < Levels
    ensures EqualizationTable(seq(Levels, _ => n), Levels * n)[i] == i + 1
  {
    var h, total, p := seq(Levels, _ => n), Levels * n, (i + 1) * n;
    assert h[..i + 1] == seq(i + 1, _ => n);
    SumConstant(i + 1, n);
    CumulativeIsPrefixShare(h, total, i);
    assert EqualizationTable(h, total)[i] == RemapEntry(p as real / total as real);
    RemapEntryValue(p, total);
    FlatQuotient(n, i);
  }

  /** The integer form of a flat histogram's remap entry at bucket i. */
  lemma FlatQuotient(n: int, i: int)
    requires n > 0 && 0 <= i < Levels
    ensures (2 * ((i + 1) * n) * Levels + Levels * n) / (2 * (Levels * n)) == i + 1
  {
    var total := Levels * n;
    assert 2 * ((i + 1) * n) * Levels == 2 * ((i + 1) * total) by {
      assert (i + 1) * n * Levels == (i + 1) * (n * Levels);
    }
    HalfStepQuotient(i + 1, total);
  }

  /** (2 * k * t + t) / (2 * t) == k: the half added before truncation never
      carries a whole multiple of the total into the next integer. */
  lemma HalfStepQuotient(k: int, t: int)
    requires k >= 0 && t > 0
    ensures (2 * (k * t) + t) / (2 * t) == k
  {
    var a, d := 2 * (k * t) + t, 2 * t;
    assert d * k == 2 * (k * t);
    assert d * (k + 1) == 2 * (k * t) + 2 * t;
    DivAtLeast(a, d, k);
    DivBelow(a, d, k + 1);
  }

  /** n in each of m entries sum to m * n. */
  lemma {:induction false} SumConstant(m: nat, n: int)
    ensures Sum(seq(m, _ => n)) == m * n
  {
    if m > 0 {
      assert seq(m, _ => n)[..m - 1] == seq(m - 1, _ => n);
      SumConstant(m - 1, n);
    }
  }

  /** For a prefix count between 0 and the total the unclamped entry lies in
      [0, 65536], one past the uint16 range; it is 65536 exactly when
      131072 * (total - p) <= total, in particular when p equals the total. */
  lemma RemapEntryRange(p: int, total: int)
    requires 0 <= p <= total && total > 0
    ensures 0 <= RemapEntry(p as real / total as real) <= Levels
    ensures RemapEntry(p as real / total as real) == Levels <==> 131072 * (total - p) <= total
  {
    RemapEntryValue(p, total);
    var a := 2 * p * Levels + total;
    var d := 2 * total;
    assert a < d * (Levels + 1);
    DivBelow(a, d, Levels + 1);
    if 131072 * (total - p) <= total {
      assert d * Levels <= a;
      DivAtLeast(a, d, Levels);
    } else {
      assert a < d * Levels;
      DivBelow(a, d, Levels);
    }
  }

  lemma DivBelow(a: int, d: int, k: int)
    requires 0 <= a && 0 < d && a < d * k
    ensures a / d < k
  {
    var q := a / d;
    assert d * q + a % d == a;
    if q >= k {
      MulMonotone(d, k, q);
    }
  }

  lemma DivAtLeast(a: int, d: int, k: int)
    requires 0 < d && d * k <= a
    ensures k <= a / d
  {
    var q := a / d;
    assert d * q + a % d == a;
    if q < k {
      MulMonotone(d, q + 1, k);
    }
  }

  lemma MulMonotone(d: int, x: int, y: int)
    requires 0 < d && x <= y
    ensures d * x <= d * y
  {
    assert d * y - d * x == d * (y - x);
  }

  /** A rounded entry reaches 65536 even below the total once the total is
      large enough: 131071 of 131072 pixels already give 65536. */
  lemma RemapEntryOverflowsBelowTotal()
    ensures RemapEntry(131071.0 / 131072.0) == Levels
  {
    RemapEntryRange(131071, 131072);
  }

  /** When the counters add up to at most the total, every entry of the table
      lies in [0, 65536]; when they add up to exactly the total (an image whose
      bounds start at the origin), the top entry is 65536, which does not fit
      in a uint16. */
  lemma TableRange(h: seq<int>, total: int, i: int)
    requires total > 0 && |h| == Levels
    requires forall k :: 0 <= k < |h| ==> h[k] >= 0
    requires Sum(h) <= total
    requires 0 <= i < Levels
    ensures 0 <= EqualizationTable(h, total)[i] <= Levels
    ensures Sum(h) == total ==> EqualizationTable(h, total)[Levels - 1] == Levels
  {
    assert h[..|h|] == h;
    CumulativeIsPrefixShare(h, total, i);
    PrefixMonotone(h, i + 1, |h|);
    RemapEntryRange(Sum(h[..i + 1]), total);
    CumulativeIsPrefixShare(h, total, Levels - 1);
    RemapEntryRange(Sum(h), total);
  }

  /** The divisor Max.X * Max.Y exceeds the number of pixels by
      minX * height + minY * maxX. It therefore equals the pixel count for
      bounds at the origin, and is strictly larger for non-empty bounds in the
      first quadrant that do not start at the origin. */
  lemma TotalPixelsVersusCount(b: Rect)
    requires b.WellFormed()
    ensures TotalPixels(b) == b.Width() * b.Height() + b.minX * b.Height() + b.minY * b.maxX
    ensures b.minX == 0 && b.minY == 0 ==> TotalPixels(b) == b.Width() * b.Height()
    ensures 0 <= b.minX && 0 <= b.minY && (b.minX, b.minY) != (0, 0) && b.Width() > 0 && b.Height() > 0 ==>
      TotalPixels(b) > b.Width() * b.Height()
  {
    var w, h := b.Width(), b.Height();
    assert b.maxX * b.maxY == (w + b.minX) * (h + b.minY);
    assert (w + b.minX) * (h + b.minY) == w * h + b.minX * h + b.minY * (w + b.minX);
    if 0 <= b.minX && 0 <= b.minY && w > 0 && h > 0 {
      if b.minX > 0 {
        assert b.minX * h > 0;
        NonNegativeIntProduct(b.minY, b.maxX);
      } else if b.minY > 0 {
        assert b.minY * b.maxX > 0;
      }
    }
  }

  lemma NonNegativeIntProduct(x: int, y: int)
    requires 0 <= x && 0 <= y
    ensures 0 <= x * y
  {
  }

  // ---------------------------------------------------------------------
  // Second pass lemmas

  /** A gray pixel keeps saturation 0 and its bucket is its own sample c.r,
      so each output channel is exactly table[c.r]. */
  lemma EqualizedGray(c: Color, table: seq<int>)
    requires |table| == Levels
    requires c.r == c.g == c.b
    ensures EqualizedPixel(c, table) == Rgba64(table[c.r], table[c.r], table[c.r], Opaque)
  {
    AchromaticHsl(c.r, c.g, c.b);
    var v := table[c.r];
    assert (v as real / 65535.0) * 65535.0 == v as real;
  }

  /** An entry inside the uint16 range gives an output pixel whose channels
      all fit 16 bits. */
  lemma EqualizedInRange(c: Color, table: seq<int>)
    requires |table| == Levels
    requires 0 <= table[Bucket(c)] <= MaxUint16
    ensures 0 <= EqualizedPixel(c, table).r <= MaxUint16
    ensures 0 <= EqualizedPixel(c, table).g <= MaxUint16
    ensures 0 <= EqualizedPixel(c, table).b <= MaxUint16
    ensures EqualizedPixel(c, table).a == Opaque
  {
    var hsl := RgbToHsl(c.r, c.g, c.b);
    HslRange(c.r, c.g, c.b);
    HslToRgbInRange(hsl.h, hsl.s, table[Bucket(c)] as real / 65535.0);
  }

  /** For a non-empty image whose bounds start at the origin, a white pixel is
      rendered with all three channels 65536: one past the uint16 range. */
  lemma WhiteOverflows(img: Image<Color>)
    requires img.Valid()
    requires img.bounds.minX == 0 && img.bounds.minY == 0
    requires img.pix.Length0 > 0 && img.pix.Length1 > 0
    ensures TotalPixels(img.bounds) > 0
    ensures var table := EqualizationTable(Histogram(img.Raster()), TotalPixels(img.bounds));
            EqualizedPixel(Rgba64(MaxUint16, MaxUint16, MaxUint16, MaxUint16), table)
              == Rgba64(Levels, Levels, Levels, Opaque)
  {
    var h := Histogram(img.Raster());
    var total := TotalPixels(img.bounds);
    ImageHistogramSum(img);
    TotalPixelsVersusCount(img.bounds);
    assert total == img.pix.Length0 * img.pix.Length1;
    HistogramNonNegative(img.Raster());
    TableRange(h, total, Levels - 1);
    EqualizedGray(Rgba64(MaxUint16, MaxUint16, MaxUint16, MaxUint16), EqualizationTable(h, total));
  }

  lemma HistogramNonNegative(s: seq<Color>)
    ensures forall k :: 0 <= k < Levels ==> Histogram(s)[k] >= 0
  {
  }
}
