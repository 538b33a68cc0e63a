/** Images as the filters see them: a bounds rectangle and a grid of pixels,
    read with `At` and written with `Set`, plus the per-pixel loop that every
    filter runs over its input. */
module Images {

  import opened ColorSpace

  /** image.Rectangle: Min is inclusive, Max exclusive. */
  datatype Rect = Rect(minX: int, minY: int, maxX: int, maxY: int) {

    /** Canonical bounds, as every decoded image has them. */
    predicate WellFormed() {
      minX <= maxX && minY <= maxY
    }

    function Width(): nat
      requires WellFormed()
    {
      maxX - minX
    }

    function Height(): nat
      requires WellFormed()
    {
      maxY - minY
    }

    predicate Contains(x: int, y: int) {
      minX <= x < maxX && minY <= y < maxY
    }
  }

  /** A color.RGBA64 as the filters pass it to `Set`. The channels are left
      unbounded so that a value that does not fit 16 bits stays visible. */
  datatype Rgba64 = Rgba64(r: int, g: int, b: int, a: int)

  /** The zero colour every pixel of a new image.NewRGBA starts with. */
  const Transparent: Rgba64 := Rgba64(0, 0, 0, 0)

  /** math.MaxUint16, the alpha every filter writes. */
  const Opaque: int := MaxUint16

  /** A colour as read from an input image: `RGBA()` returns four values that
      never exceed 0xffff. */
  type Color = c: Rgba64 | 0 <= c.r <= MaxUint16 && 0 <= c.g <= MaxUint16
                           && 0 <= c.b <= MaxUint16 && 0 <= c.a <= MaxUint16
    witness Transparent

  /** An image whose pixel at (x, y) is `pix[y - bounds.minY, x - bounds.minX]`. */
  class Image<P> {
    const bounds: Rect
    const pix: array2<P>

    predicate Valid() {
      bounds.WellFormed() && pix.Length0 == bounds.Height() && pix.Length1 == bounds.Width()
    }

    /** A new image of the given bounds with every pixel `fill` (image.NewRGBA
        with `fill` the zero colour). */
    constructor (r: Rect, fill: P)
      requires r.WellFormed()
      ensures Valid() && bounds == r && fresh(pix)
      ensures forall j, i :: 0 <= j < pix.Length0 && 0 <= i < pix.Length1 ==> pix[j, i] == fill
    {
      bounds := r;
      pix := new P[r.Height(), r.Width()]((_, _) => fill);
    }

    /** The pixel at (x, y), for a point inside the bounds: the one the row by
        row, left to right visit reaches at step (y - minY) * width + (x - minX). */
    function At(x: int, y: int): (c: P)
      reads pix
      requires Valid() && bounds.Contains(x, y)
      ensures var k := (y - bounds.minY) * bounds.Width() + (x - bounds.minX);
              0 <= k < |Raster()| && c == Raster()[k]
    {
      RasterIndex(x, y);
      pix[y - bounds.minY, x - bounds.minX]
    }

    /** Where the point (x, y) sits in the visiting order. */
    lemma RasterIndex(x: int, y: int)
      requires Valid() && bounds.Contains(x, y)
      ensures var k := (y - bounds.minY) * bounds.Width() + (x - bounds.minX);
              0 <= k < |Raster()| && Raster()[k] == pix[y - bounds.minY, x - bounds.minX]
    {
      var j, i := y - bounds.minY, x - bounds.minX;
      assert (y - bounds.minY) * bounds.Width() + (x - bounds.minX) == j * pix.Length1 + i;
      RasterRowsIndex(pix.Length0, j, i);
    }

    /** Stores `c` at (x, y); a point outside the bounds is ignored, as
        (*image.RGBA).Set ignores it. */
    method Set(x: int, y: int, c: P)
      requires Valid()
      modifies pix
      ensures forall j, i :: 0 <= j < pix.Length0 && 0 <= i < pix.Length1 ==>
        pix[j, i] == if bounds.Contains(x, y) && j == y - bounds.minY && i == x - bounds.minX
                     then c else old(pix[j, i])
    {
      if bounds.Contains(x, y) {
        pix[y - bounds.minY, x - bounds.minX] := c;
      }
    }

    /** Row j of the grid, left to right. */
    ghost function Row(j: int): (row: seq<P>)
      reads pix
      requires 0 <= j < pix.Length0
      ensures |row| == pix.Length1
      ensures forall i :: 0 <= i < pix.Length1 ==> row[i] == pix[j, i]
    {
      seq(pix.Length1, i requires 0 <= i < pix.Length1 reads pix => pix[j, i])
    }

    /** The first n rows in the order the filters visit them: top row first,
        each row left to right. */
    ghost function RasterRows(n: int): seq<P>
      reads pix
      requires 0 <= n <= pix.Length0
      decreases n
    {
      if n == 0 then [] else RasterRows(n - 1) + Row(n - 1)
    }

    /** Every pixel in visiting order. */
    ghost function Raster(): seq<P>
      reads pix
    {
      RasterRows(pix.Length0)
    }

    /** Every pixel is visited exactly once, so the raster has width * height
        entries. */
    lemma {:induction false} RasterRowsLength(n: int)
      requires 0 <= n <= pix.Length0
      ensures |RasterRows(n)| == n * pix.Length1
    {
      if n > 0 {
        RasterRowsLength(n - 1);
      }
    }

    /** The pixel at grid position (j, i) is visited at step j * width + i, so
        together with RasterRowsLength each point is counted exactly once. */
    lemma {:induction false} RasterRowsIndex(n: int, j: int, i: int)
      requires 0 <= j < n <= pix.Length0 && 0 <= i < pix.Length1
      ensures j * pix.Length1 + i < |RasterRows(n)|
      ensures RasterRows(n)[j * pix.Length1 + i] == pix[j, i]
    {
      RasterRowsLength(n - 1);
      RasterRowsLength(n);
      if j < n - 1 {
        RasterRowsIndex(n - 1, j, i);
        MulMonotoneNat(j + 1, n - 1, pix.Length1);
      } else {
        assert RasterRows(n) == RasterRows(n - 1) + Row(n - 1);
      }
    }

    /** A grid of one value visits only that value. */
    lemma {:induction false} RasterRowsUniform(n: int, c: P)
      requires 0 <= n <= pix.Length0
      requires forall j, i :: 0 <= j < pix.Length0 && 0 <= i < pix.Length1 ==> pix[j, i] == c
      ensures forall t :: 0 <= t < |RasterRows(n)| ==> RasterRows(n)[t] == c
    {
      if n > 0 {
        RasterRowsUniform(n - 1, c);
        var init, row := RasterRows(n - 1), Row(n - 1);
        assert RasterRows(n) == init + row;
        forall t | 0 <= t < |init + row|
          ensures (init + row)[t] == c
        {
          if t >= |init| {
            assert (init + row)[t] == row[t - |init|];
          }
        }
      }
    }
  }

  /** a * c <= b * c for a <= b and non-negative c. */
  lemma MulMonotoneNat(a: int, b: int, c: int)
    requires 0 <= a <= b && 0 <= c
    ensures a * c <= b * c
  {
    assert b * c == a * c + (b - a) * c;
  }

  /** The per-pixel loop of every filter: a fresh image of the input's bounds
      whose pixel at each point is `f` of the input's pixel there, written row
      by row, left to right, with `Set`. The input is only read. */
  method MapPixels<P>(img: Image<P>, f: P --> Rgba64) returns (out: Image<Rgba64>)
    requires img.Valid()
    requires forall j, i :: 0 <= j < img.pix.Length0 && 0 <= i < img.pix.Length1 ==> f.requires(img.pix[j, i])
    ensures fresh(out) && fresh(out.pix) && out.Valid() && out.bounds == img.bounds
    ensures forall j, i :: 0 <= j < out.pix.Length0 && 0 <= i < out.pix.Length1 ==>
      out.pix[j, i] == f(img.pix[j, i])
  {
    var b := img.bounds;
    out := new Image(b, Transparent);
    var y := b.minY;
    while y < b.maxY
      invariant b.minY <= y <= b.maxY
      invariant forall j, i :: 0 <= j < y - b.minY && 0 <= i < out.pix.Length1 ==>
        out.pix[j, i] == f(img.pix[j, i])
    {
      var x, row := b.minX, y - b.minY;
      while x < b.maxX
        invariant b.minX <= x <= b.maxX
        invariant forall j, i :: 0 <= j < y - b.minY && 0 <= i < out.pix.Length1 ==>
          out.pix[j, i] == f(img.pix[j, i])
        invariant forall i :: 0 <= i < x - b.minX ==> out.pix[row, i] == f(img.pix[row, i])
      {
        out.Set(x, y, f(img.At(x, y)));
        x := x + 1;
      }
      y := y + 1;
    }
  }
}
