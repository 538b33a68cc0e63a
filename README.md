# Image filters: a Dafny model

This project models the `imagefilters` package of the vohumana-go-imageprocessing
repository and proves properties of the model. The package holds a hand-written
RGB↔HSL conversion and six whole-image filters:

- histogram equalization of lightness;
- grayscale;
- red, green and blue channel extraction;
- a Sobel placeholder.

A closed name→filter registry selects among them.

Modules, one per file:

- `Wrappers` (`wrappers.dfy`): `Option`.
- `ColorSpace` (`colorspace.dfy`): the pure colour helpers `threewayMax`/`threewayMin`,
  `rgbToHSL`, `hslToRGB`, `hueToRGB` and `convertUint32ToUint16`. These are functions
  over `real`.
- `Images` (`images.dfy`): rectangles, `color.RGBA64` values and the 16-bit input
  colour type. It also defines a class `Image<P>` holding a 2-D pixel array with
  `At`/`Set`, and `MapPixels`, the nested y/x loop that every per-pixel filter runs.
- `Equalization` (`equalization.dfy`): the two-pass `HistogramEqualizationFilter.Apply`.
  - Each phase is a method with loop invariants, proved equal to a specification
    function: histogram, normalisation, the nested-loop prefix sum, and the remap
    table.
  - The lemmas about those functions sit beside them.
- `Filters` (`filters.dfy`): the remaining filters, the registry `ImageFilterMap` and
  dispatch, which models `ImageFilter.Apply` called on a registry entry.

Modelling conventions:

- `float64` is exact `real`. A Go `uint16(x)` conversion is `ColorSpace.Truncate`,
  which rounds toward zero and is *not* clamped. A value that does not fit 16 bits
  stays visible.
- Input samples are the 16-bit values that `RGBA()` returns. These are `Images.Color`,
  whose channels lie in [0, 65535].
- Output pixels are the `color.RGBA64` values passed to `Set`, as unbounded integers.
- In this exact reading several quantities are integer formulas, and the model proves
  each one:
  - the lightness bucket is `(max + min) / 2` of the raw samples;
  - the grayscale channel is that same value;
  - a remap entry is `(2 * prefix * 65536 + total) / (2 * total)`;
  - `convertUint32ToUint16(c)` is `c / 65537`, which is 0 for every 16-bit sample.
- The equalization remap multiplies by `arraySize = 65536`, not by 65535.
  - An entry therefore reaches 65536 whenever the prefix count is within 1/131072
    of the total. In particular the top bucket reaches 65536 when the counts sum to
    the total.
  - Go's result for such an out-of-range conversion is implementation-dependent. The
    model keeps the unclamped value, and `Equalization.WhiteOverflows` shows that it
    reaches the output image.
- The pixel total is `Max.X * Max.Y`. It exceeds width × height by
  `Min.X * height + Min.Y * Max.X`, so the two agree at the origin and, for a
  non-empty image with non-negative corners, only there. With a negative `Min` the
  pixel count can exceed the total: `Rect(-1, -1, 1, 1)` has 4 pixels over a total
  of 1. Remap entries then go well past 65536, or below 0 for a negative total.
  `Equalization.TableRange` covers only counts that sum to at most the total.
- When that total is 0 and the image has pixels, Go divides by zero in floating point.
  The tables then hold NaN or infinities, and what `uint16` makes of them is
  implementation-dependent. The model takes that remap table as a parameter
  (`nonFinite`, any 65536 values in the 16-bit range). Bounds, alpha and the
  per-pixel formula are the same as for a non-zero total.
- Where the code differs from what its names suggest, the model follows the code:
  - `ExtractRedChannelFilter` and its two siblings zero every channel rather than
    copying one;
  - `SobelImageFilter` returns its input;
  - the remap multiplies by `arraySize` (65536) rather than by 65535;
  - the divisor is `Max.X*Max.Y` rather than the pixel count.

## Model

| member | source | states |
|---|---|---|
| ColorSpace.Truncate | imagefilters/imagefilters.go:126-128 | `uint16(x)` on an exact value: the integer toward zero, floor for x ≥ 0 and ceiling below 0 |
| ColorSpace.Max3 | imagefilters/imagefilters.go:37-39 | threewayMax is one of its three arguments and at least each of them |
| ColorSpace.Min3 | imagefilters/imagefilters.go:41-43 | threewayMin is one of its three arguments and at most each of them |
| ColorSpace.ToUnit | imagefilters/imagefilters.go:47-49 | a 16-bit sample divided by 65535 lies in [0,1] and scales back to the sample |
| ColorSpace.RgbToHsl | imagefilters/imagefilters.go:45-96 | rgbToHSL on exact reals; its contract is carried by LightnessFormula, AchromaticHsl, HslRange and HueAtCorners |
| ColorSpace.UnitExtremes | imagefilters/imagefilters.go:52-53 | max and min of the normalised channels are the normalised integer max and min samples |
| ColorSpace.UnitOrder | imagefilters/imagefilters.go:47-53 | normalisation preserves and reflects order and equality of samples |
| ColorSpace.LightnessFormula | imagefilters/imagefilters.go:55-57 | rgbToHSL's l is (max + min) / 131070 of the raw samples |
| ColorSpace.LightnessBucket | imagefilters/imagefilters.go:191-192 | uint16(L * 65535) is the integer (max + min) / 2 and lies in [0, 65535] |
| ColorSpace.AchromaticHsl | imagefilters/imagefilters.go:59-62 | equal channels give h = 0, s = 0 and l = channel / 65535 |
| ColorSpace.HslRange | imagefilters/imagefilters.go:55-85 | for 16-bit samples h ∈ [0,1), s ∈ [0,1], l ∈ [0,1], and s == 0 exactly when all three channels are equal |
| ColorSpace.HueAtCorners | imagefilters/imagefilters.go:72-84 | the red/green/blue branch order puts the six primary and secondary hues at 0, 1/3, 2/3, 1/6, 1/2 and 5/6, including the two-way ties for the maximum |
| ColorSpace.WrapHue | imagefilters/imagefilters.go:136-142 | hueToRGB adds 1 below 0, subtracts 1 above 1, leaves [0,1] alone, and lands in [0,1] for t ∈ [-1,2] |
| ColorSpace.HueToRgb | imagefilters/imagefilters.go:135-153 | hueToRGB as one wrap followed by the ramp; its contract is carried by HueToRgbPlateaus, HueToRgbPeriodic, HueToRgbSingleWrap and HueToRgbBetween |
| ColorSpace.HueRamp | imagefilters/imagefilters.go:144-152 | the four-piece ramp of hueToRGB after the wrap; HueRampBetween bounds it between p and q |
| ColorSpace.HueToRgbPlateaus | imagefilters/imagefilters.go:144-152 | hueToRGB returns q on [1/6,1/2) and p on [2/3,1], including t == 1, and also for t ≥ 5/3 |
| ColorSpace.HueToRgbPeriodic | imagefilters/imagefilters.go:135-153 | for t ∈ [-1,1], hueToRGB at t + 1 equals hueToRGB at t |
| ColorSpace.HueToRgbSingleWrap | imagefilters/imagefilters.go:140-142 | the wrap is applied once only: with p ≠ q, t = 2.25 gives p while t = 1.25 gives q |
| ColorSpace.HueToRgbBetween | imagefilters/imagefilters.go:135-153 | for p ≤ q and t ∈ [-1,2], hueToRGB lies between p and q |
| ColorSpace.HueRampBetween | imagefilters/imagefilters.go:144-152 | the piecewise ramp on [0,1] lies between p and q |
| ColorSpace.RampBounds | imagefilters/imagefilters.go:112-120 | for s, l ∈ [0,1], the p and q of hslToRGB satisfy 0 ≤ p ≤ q ≤ 1 |
| ColorSpace.HslToRgb | imagefilters/imagefilters.go:98-133 | hslToRGB on exact reals with `uint16` as Truncate; its contract is carried by RampBounds, AchromaticRgb, RampChannelsInRange and HslToRgbInRange |
| ColorSpace.RampChannelsInRange | imagefilters/imagefilters.go:121-128 | for ramp ends in [0,1] and h ∈ [-2/3, 5/3], the channels at h + 1/3, h and h - 1/3 all fit 16 bits |
| ColorSpace.ChannelInRange | imagefilters/imagefilters.go:121-128 | a hue-ramp value between p and q in [0,1], scaled by 65535 and truncated, fits 16 bits |
| ColorSpace.AchromaticRgb | imagefilters/imagefilters.go:106-128 | s == 0 gives three equal channels, each floor(l * 65535), within [0, 65535] for l ∈ [0,1] |
| ColorSpace.HslToRgbInRange | imagefilters/imagefilters.go:98-133 | for h ∈ [-2/3, 5/3] and s, l ∈ [0,1], every channel of hslToRGB lies in [0, 65535] |
| ColorSpace.ConvertUint32ToUint16 | imagefilters/imagefilters.go:20-22 | the result is c / 65537 and lies in [0, 65535]; it is 0 for every c ≤ 65536 |
| Images.Image.constructor | imagefilters/imagefilters.go:181 | image.NewRGBA: an image of the given bounds with every pixel the zero colour |
| Images.Image.At | imagefilters/imagefilters.go:190 | img.At(x, y) for a point inside the bounds is the pixel the row by row, left to right visit reaches at step (y - Min.Y) × width + (x - Min.X), an index that lies within the visiting order |
| Images.Image.Set | imagefilters/imagefilters.go:226 | Set writes exactly the cell of (x, y), leaves every other cell unchanged, and ignores points outside the bounds |
| Images.Image.RasterRowsLength | imagefilters/imagefilters.go:188-189 | the y/x visiting order covers width × height pixels |
| Images.Image.RasterRowsIndex | imagefilters/imagefilters.go:188-189 | the pixel at row j, column i is visited at step j * width + i, so each point is visited exactly once |
| Images.MapPixels | imagefilters/imagefilters.go:236-245 | the per-pixel loops return a fresh image of the input's bounds whose every pixel is f of the input pixel there; the input is not modified |
| Equalization.Bucket | imagefilters/imagefilters.go:190-193 | a pixel's histogram bucket is (max + min) / 2 of its samples and lies in [0, 65535] |
| Equalization.Histogram | imagefilters/imagefilters.go:184-196 | the 65536 bucket counts of a visiting order; BuildHistogram computes it and HistogramSum, UniformHistogram, UniformImageHistogram and HistogramNonNegative state its properties |
| Equalization.BuildHistogram | imagefilters/imagefilters.go:187-196 | the histogram loop's counters are exactly the bucket counts of the pixels in visiting order |
| Equalization.CountRow | imagefilters/imagefilters.go:189-195 | the inner x-loop adds each pixel of the row to its bucket's counter, leaving every counter equal to the count of the pixels visited so far |
| Equalization.CountStep | imagefilters/imagefilters.go:190-193 | visiting the next pixel of a row adds one to its bucket's count and to no other |
| Equalization.CountSnoc | imagefilters/imagefilters.go:193 | one more pixel adds one to its own bucket's count and leaves every other count unchanged |
| Equalization.CountsAreHistogram | imagefilters/imagefilters.go:184-196 | a 65536-entry table whose every entry is its bucket's count is the histogram |
| Equalization.HistogramSnoc | imagefilters/imagefilters.go:193 | visiting one more pixel increments its bucket alone |
| Equalization.HistogramSum | imagefilters/imagefilters.go:187-196 | the counters sum to the number of pixels visited |
| Equalization.ImageHistogramSum | imagefilters/imagefilters.go:187-196 | for an image, the counters sum to width × height |
| Equalization.UniformHistogram | imagefilters/imagefilters.go:187-196 | a single-colour image has one non-zero bucket, holding the whole pixel count |
| Equalization.UniformImageHistogram | imagefilters/imagefilters.go:187-196 | a single-colour image puts all width × height pixels into its colour's bucket and leaves every other bucket at 0 |
| Images.Image.RasterRowsUniform | imagefilters/imagefilters.go:188-189 | a grid holding one value everywhere is visited as that value at every step |
| Equalization.HistogramNonNegative | imagefilters/imagefilters.go:184-193 | every counter is non-negative |
| Equalization.NormalizeHistogram | imagefilters/imagefilters.go:199-204 | each normalised entry is its counter divided by the pixel total |
| Equalization.Normalized | imagefilters/imagefilters.go:199-204 | normailzedChannel: each counter over the total; NormalizeHistogram computes it and CumulativeIsPrefixShare uses it |
| Equalization.CumulativeDistribution | imagefilters/imagefilters.go:206-211 | the nested j-loop gives the inclusive prefix sum of the normalised histogram |
| Equalization.Cumulative | imagefilters/imagefilters.go:206-211 | newHistogram as inclusive prefix sums; CumulativeIsPrefixShare and CumulativeMonotone state its properties |
| Equalization.CumulativeIsPrefixShare | imagefilters/imagefilters.go:199-211 | newHistogram[i] is the count of buckets 0..i divided by the total |
| Equalization.CumulativeMonotone | imagefilters/imagefilters.go:206-211 | for a positive total the cumulative table is non-decreasing |
| Equalization.RemapTable | imagefilters/imagefilters.go:213-217 | each remap entry is uint16(cdf[i] * 65536 + 0.5) of its cumulative value |
| Equalization.RemapEntry | imagefilters/imagefilters.go:215 | one newValues entry from a cumulative value; RemapEntryValue gives its integer formula and RemapEntryRange its range |
| Equalization.Remap | imagefilters/imagefilters.go:213-217 | newValues entry by entry from newHistogram; RemapTable computes it |
| Equalization.EqualizationTable | imagefilters/imagefilters.go:199-217 | the three table phases composed; TableMonotone, TableRange and FlatHistogramTable state its properties |
| Equalization.RemapEntryValue | imagefilters/imagefilters.go:215 | the remap entry of prefix p over total t is (2 * p * 65536 + t) / (2 * t) |
| Equalization.RemapEntryRange | imagefilters/imagefilters.go:215 | for 0 ≤ p ≤ t the entry lies in [0, 65536], and it equals 65536 exactly when 131072 * (t - p) ≤ t |
| Equalization.RemapEntryOverflowsBelowTotal | imagefilters/imagefilters.go:215 | a cumulative share of 131071/131072, short of the whole, already maps to 65536 |
| Equalization.TableMonotone | imagefilters/imagefilters.go:199-217 | the remap table is non-decreasing in the bucket index |
| Equalization.TableRange | imagefilters/imagefilters.go:199-217 | entries lie in [0, 65536], and the top entry is 65536, one past uint16, when the counts sum to the total |
| Equalization.FlatHistogramTable | imagefilters/imagefilters.go:199-217 | a flat histogram of n per bucket over a total of 65536 × n maps bucket i to i + 1: one above the identity everywhere and 65536 at the top bucket |
| Equalization.SumConstant | imagefilters/imagefilters.go:206-211 | m entries of n sum to m × n, the prefix sum of a flat histogram |
| Equalization.TotalPixelsVersusCount | imagefilters/imagefilters.go:200 | Max.X * Max.Y is width × height plus Min.X × height plus Min.Y × Max.X; it equals the pixel count at the origin and exceeds it for a non-empty image with non-negative corners away from the origin |
| Equalization.TotalPixels | imagefilters/imagefilters.go:200 | totalPixels is Max.X * Max.Y; TotalPixelsVersusCount relates it to the pixel count |
| Equalization.EqualizedGray | imagefilters/imagefilters.go:219-228 | a gray pixel's output channels all equal the remap entry of its bucket, with alpha 65535 |
| Equalization.EqualizedInRange | imagefilters/imagefilters.go:221-226 | when the pixel's remap entry fits 16 bits, every output channel does, and alpha is 65535 |
| Equalization.EqualizedPixel | imagefilters/imagefilters.go:219-226 | the second pass on one pixel: h and s kept, l replaced by its bucket's entry / 65535; EqualizedGray and EqualizedInRange state its properties |
| Equalization.WhiteOverflows | imagefilters/imagefilters.go:213-226 | for a non-empty image at the origin, a white pixel is rendered with 65536 in every channel |
| Equalization.HistogramEqualizationFilter | imagefilters/imagefilters.go:180-231 | a fresh image of the input's bounds, alpha 65535 everywhere, whose every pixel is `EqualizedPixel` of the input pixel under the table built from the image's histogram and Max.X * Max.Y; for a zero total the table is the given non-finite remap |
| Filters.GrayPixel | imagefilters/imagefilters.go:288-292 | the grayscale pixel is (v, v, v, 65535) with v = (max + min) / 2 of the samples; a gray pixel is unchanged |
| Filters.RedPixel | imagefilters/imagefilters.go:239-241 | the red extraction writes c.r / 65537 into red and 0 elsewhere, which is opaque black for 16-bit input |
| Filters.GreenPixel | imagefilters/imagefilters.go:254-256 | the green extraction writes c.g / 65537 into green and 0 elsewhere, which is opaque black |
| Filters.BluePixel | imagefilters/imagefilters.go:269-271 | the blue extraction writes c.b / 65537 into blue and 0 elsewhere, which is opaque black |
| Filters.ConvertToGrayscale | imagefilters/imagefilters.go:282-297 | a fresh image of the same bounds whose every pixel is the grayscale of the input pixel |
| Filters.ExtractRedChannelFilter | imagefilters/imagefilters.go:233-246 | a fresh image of the same bounds, every pixel opaque black |
| Filters.ExtractGreenChannelFilter | imagefilters/imagefilters.go:248-261 | a fresh image of the same bounds, every pixel opaque black |
| Filters.ExtractBlueChannelFilter | imagefilters/imagefilters.go:263-276 | a fresh image of the same bounds, every pixel opaque black |
| Filters.SobelImageFilter | imagefilters/imagefilters.go:278-280 | the Sobel filter returns its input image itself |
| Filters.Name | imagefilters/imagefilters.go:10-17 | the key of each of the six registry entries; LookupName and Lookup show the keys are distinct and looked up exactly |
| Filters.Lookup | imagefilters/imagefilters.go:10-17 | a registry lookup finds a filter registered under that key, and finds none exactly when no filter has that key |
| Filters.LookupName | imagefilters/imagefilters.go:10-17 | each of the six filters is found under its own key |
| Filters.Apply | imagefilters/imagefilters.go:158-160 | the result is the input unchanged exactly for Sobel; otherwise a fresh image of the same bounds, alpha 65535, with that filter's per-pixel result (grayscale, opaque black, or the equalized pixel for a zero or non-zero total) |

## Left out

- `imageprocessing.go` and `main.go` are not part of this model. They cover flag parsing, file open/create, image decoding, PNG/JPEG encoding and logging, which is all I/O.
- The Go image library's behaviour is not modelled:
  - how `RGBA()` premultiplies alpha (input samples are taken as given 16-bit values);
  - how `image.NewRGBA` stores a `color.RGBA64` at 8 bits (output is the value passed to `Set`).
- IEEE-754 `float64` rounding is not modelled. Arithmetic is exact, so a float `L * 65535` that lands just below an integer is not captured.
- No Go result is fixed for an out-of-range `uint16` conversion; Go leaves it implementation-dependent. In the model a remap value of 65536 is kept unclamped, and the table for a zero total (NaN or infinities) is the `nonFinite` parameter.
- Equalization.HistogramEqualizationFilter: for a pixel total of 0 the remap table is the `nonFinite` parameter rather than a computed value, because Go's conversion of NaN or infinity to `uint16` is implementation-dependent. Filters.Apply inherits this.
- Overflow of Go's `int` in `Max.X * Max.Y` is not modelled; the product is an unbounded integer.
- Images.Image.constructor: bounds are required to be well-formed (Min ≤ Max), the canonical rectangles `image.NewRGBA` is given here.
- The progress print at imagefilters/imagefilters.go:197 and the commented-out debug code are left out.
- The `HSL` type and its `RGBA` method (imagefilters/imagefilters.go:25-31) are unused by the filters and left out.
- No general RGB→HSL→RGB round trip. The code neither states nor relies on one. In exact arithmetic the round trip is exact; `float64` rounding may make Go's lose a unit, which the exact model cannot show.
- Equalizing a flat histogram does not give the identity: FlatHistogramTable shows each entry one above it, with 65536 at the top. The offset comes from the inclusive prefix sum: the cumulative value at bucket i counts bucket i itself, (i + 1) / 65536 of the total, and the remap scales that by 65536. The added 0.5 changes nothing here, since (i + 1) is already an integer.
