/** The per-pixel filters (grayscale, the three channel extractions, the
    pass-through Sobel placeholder) and the closed registry that maps a filter
    name to one of the six filters. */
module Filters {

  import opened ColorSpace
  import opened Images
  import opened Equalization
  import opened Wrappers

  // ---------------------------------------------------------------------
  // Per-pixel maps

  /** ConvertToGrayscale on one pixel: hslToRGB(0, 0, L) with L the pixel's
      lightness, so all three channels are the integer mean of the largest
      and smallest sample; a gray pixel comes out unchanged. */
  function GrayPixel(c: Color): (o: Rgba64)
    ensures var v := (MaxSample(c.r, c.g, c.b) + MinSample(c.r, c.g, c.b)) / 2;
            o == Rgba64(v, v, v, Opaque)
    ensures c.r == c.g == c.b ==> o == Rgba64(c.r, c.r, c.r, Opaque)
  {
    var l := RgbToHsl(c.r, c.g, c.b).l;
    LightnessBucket(c.r, c.g, c.b);
    var rgb := HslToRgb(0.0, 0.0, l);
    Rgba64(rgb.r, rgb.g, rgb.b, Opaque)
  }

  /** ExtractRedChannelFilter on one pixel: the rescaled red sample, which is
      0 for every 16-bit sample, so the pixel is opaque black. */
  function RedPixel(c: Color): (o: Rgba64)
    ensures o == Rgba64(c.r / 65537, 0, 0, Opaque)
    ensures o == Rgba64(0, 0, 0, Opaque)
  {
    Rgba64(ConvertUint32ToUint16(c.r), 0, 0, Opaque)
  }

  /** ExtractGreenChannelFilter on one pixel. */
  function GreenPixel(c: Color): (o: Rgba64)
    ensures o == Rgba64(0, c.g / 65537, 0, Opaque)
    ensures o == Rgba64(0, 0, 0, Opaque)
  {
    Rgba64(0, ConvertUint32ToUint16(c.g), 0, Opaque)
  }

  /** ExtractBlueChannelFilter on one pixel. */
  function BluePixel(c: Color): (o: Rgba64)
    ensures o == Rgba64(0, 0, c.b / 65537, Opaque)
    ensures o == Rgba64(0, 0, 0, Opaque)
  {
    Rgba64(0, 0, ConvertUint32ToUint16(c.b), Opaque)
  }

  // ---------------------------------------------------------------------
  // Filters

  /** ConvertToGrayscale.Apply. */
  method ConvertToGrayscale(img: Image<Color>) returns (out: Image<Rgba64>)
    requires img.Valid()
    ensures fresh(out) && fresh(out.pix) && out.Valid() && out.bounds == img.bounds
    ensures forall j, i :: 0 <= j < out.pix.Length0 && 0 <= i < out.pix.Length1 ==>
      out.pix[j, i] == GrayPixel(img.pix[j, i])
  {
    out := MapPixels(img, GrayPixel);
  }

  /** ExtractRedChannelFilter.Apply: every pixel ends up opaque black. */
  method ExtractRedChannelFilter(img: Image<Color>) returns (out: Image<Rgba64>)
    requires img.Valid()
    ensures fresh(out) && fresh(out.pix) && out.Valid() && out.bounds == img.bounds
    ensures forall j, i :: 0 <= j < out.pix.Length0 && 0 <= i < out.pix.Length1 ==>
      out.pix[j, i] == RedPixel(img.pix[j, i]) == Rgba64(0, 0, 0, Opaque)
  {
    out := MapPixels(img, RedPixel);
  }

  /** ExtractGreenChannelFilter.Apply: every pixel ends up opaque black. */
  method ExtractGreenChannelFilter(img: Image<Color>) returns (out: Image<Rgba64>)
    requires img.Valid()
    ensures fresh(out) && fresh(out.pix) && out.Valid() && out.bounds == img.bounds
    ensures forall j, i :: 0 <= j < out.pix.Length0 && 0 <= i < out.pix.Length1 ==>
      out.pix[j, i] == GreenPixel(img.pix[j, i]) == Rgba64(0, 0, 0, Opaque)
  {
    out := MapPixels(img, GreenPixel);
  }

  /** ExtractBlueChannelFilter.Apply: every pixel ends up opaque black. */
  method ExtractBlueChannelFilter(img: Image<Color>) returns (out: Image<Rgba64>)
    requires img.Valid()
    ensures fresh(out) && fresh(out.pix) && out.Valid() && out.bounds == img.bounds
    ensures forall j, i :: 0 <= j < out.pix.Length0 && 0 <= i < out.pix.Length1 ==>
      out.pix[j, i] == BluePixel(img.pix[j, i]) == Rgba64(0, 0, 0, Opaque)
  {
    out := MapPixels(img, BluePixel);
  }

  /** SobelImageFilter.Apply: no edge detection, the input itself is returned. */
  method SobelImageFilter<P>(img: Image<P>) returns (out: Image<P>)
    ensures out == img
  {
    out := img;
  }

  // ---------------------------------------------------------------------
  // Registry

  /** The six entries of ImageFilterMap. */
  datatype Filter =
    | ExtractRed
    | ExtractGreen
    | ExtractBlue
    | HistogramEqualization
    | Sobel
    | Grayscale

  /** The key each filter is registered under. */
  function Name(f: Filter): string {
    match f
    case ExtractRed => "ExtractRedChannel"
    case ExtractGreen => "ExtractGreenChannel"
    case ExtractBlue => "ExtractBlueChannel"
    case HistogramEqualization => "HistogramNormalization"
    case Sobel => "FindEdgesWithSobel"
    case Grayscale => "ConvertToGrayscale"
  }

  /** ImageFilterMap[name]: the filter registered under `name`, or None for a
      name that is not a key. */
  function Lookup(name: string): (r: Option<Filter>)
    ensures r.Some? ==> Name(r.value) == name
    ensures r.None? <==> forall f: Filter :: Name(f) != name
  {
    if name == "ExtractRedChannel" then Some(ExtractRed)
    else if name == "ExtractGreenChannel" then Some(ExtractGreen)
    else if name == "ExtractBlueChannel" then Some(ExtractBlue)
    else if name == "HistogramNormalization" then Some(HistogramEqualization)
    else if name == "FindEdgesWithSobel" then Some(Sobel)
    else if name == "ConvertToGrayscale" then Some(Grayscale)
    else None
  }

  /** Every filter is found under its own key, so no two share a key. */
  lemma LookupName(f: Filter)
    ensures Lookup(Name(f)) == Some(f)
  {
    match f
    case ExtractRed =>
    case ExtractGreen =>
    case ExtractBlue =>
    case HistogramEqualization =>
    case Sobel =>
    case Grayscale =>
  }

  /** What a filter hands back: a freshly rendered image, or the input itself
      (Sobel). */
  datatype Output =
    | Rendered(image: Image<Rgba64>)
    | Unchanged(input: Image<Color>)

  /** ImageFilter.Apply, dispatched on the registry entry. `nonFinite` is the
      implementation-dependent remap table equalization uses for a pixel total
      of 0. */
  method Apply(f: Filter, img: Image<Color>, nonFinite: seq<int>) returns (out: Output)
    requires img.Valid()
    requires |nonFinite| == Levels && forall k :: 0 <= k < Levels ==> 0 <= nonFinite[k] <= MaxUint16
    ensures out.Unchanged? <==> f == Sobel
    ensures out.Unchanged? ==> out.input == img
    ensures out.Rendered? ==> fresh(out.image) && fresh(out.image.pix)
    ensures out.Rendered? ==> out.image.Valid() && out.image.bounds == img.bounds
    ensures out.Rendered? ==>
      forall j, i :: 0 <= j < img.pix.Length0 && 0 <= i < img.pix.Length1 ==> out.image.pix[j, i].a == Opaque
    ensures out.Rendered? && f == Grayscale ==>
      forall j, i :: 0 <= j < img.pix.Length0 && 0 <= i < img.pix.Length1 ==>
        out.image.pix[j, i] == GrayPixel(img.pix[j, i])
    ensures out.Rendered? && f in {ExtractRed, ExtractGreen, ExtractBlue} ==>
      forall j, i :: 0 <= j < img.pix.Length0 && 0 <= i < img.pix.Length1 ==>
        out.image.pix[j, i] == Rgba64(0, 0, 0, Opaque)
    ensures out.Rendered? && f == HistogramEqualization && TotalPixels(img.bounds) != 0 ==>
      forall j, i :: 0 <= j < img.pix.Length0 && 0 <= i < img.pix.Length1 ==>
        out.image.pix[j, i] == EqualizedPixel(img.pix[j, i],
          EqualizationTable(Histogram(img.Raster()), TotalPixels(img.bounds)))
    ensures out.Rendered? && f == HistogramEqualization && TotalPixels(img.bounds) == 0 ==>
      forall j, i :: 0 <= j < img.pix.Length0 && 0 <= i < img.pix.Length1 ==>
        out.image.pix[j, i] == EqualizedPixel(img.pix[j, i], nonFinite)
  {
    match f
    case ExtractRed =>
      var o := ExtractRedChannelFilter(img);
      out := Rendered(o);
    case ExtractGreen =>
      var o := ExtractGreenChannelFilter(img);
      out := Rendered(o);
    case ExtractBlue =>
      var o := ExtractBlueChannelFilter(img);
      out := Rendered(o);
    case HistogramEqualization =>
      var o := HistogramEqualizationFilter(img, nonFinite);
      out := Rendered(o);
    case Sobel =>
      var o := SobelImageFilter(img);
      out := Unchanged(o);
    case Grayscale =>
      var o := ConvertToGrayscale(img);
      out := Rendered(o);
  }
}
