/**
 * The page image as a pixel buffer, and the band redaction that paints
 * full-width rows of it in place (`redact_band`).
 *
 * Row convention: the rectangle that `redact_band` draws runs from row y0 to
 * row y1 with BOTH ends included, as the drawing library's rectangle does;
 * rows past the last row of the image are clipped away. So a band clamped to
 * (y0, y1) with y0 < y1 blackens rows y0 ..= y1, except that when y1 equals
 * the height the last row painted is height - 1.
 */
module Raster {

  /** One 8-bit colour channel. */
  newtype Channel = x: int | 0 <= x < 256

  /** A pixel of an image converted to RGB. */
  datatype Rgb = Rgb(r: Channel, g: Channel, b: Channel)

  /** The default fill colour of `redact_band`. */
  const Black: Rgb := Rgb(0, 0, 0)

  function Min(a: int, b: int): int { if a <= b then a else b }
  function Max(a: int, b: int): int { if a <= b then b else a }

  /** A pair of pixel rows (y0, y1) as `redact_band` computes them. */
  datatype Band = Band(lo: int, hi: int)

  /**
   * The two requested rows put in order, the low one clamped below at 0 and
   * the high one above at the image height.
   */
  function ClampBand(height: nat, yStart: int, yEnd: int): (band: Band)
    ensures 0 <= band.lo && band.hi <= height
    ensures band.lo == Max(0, Min(yStart, yEnd)) && band.hi == Min(height, Max(yStart, yEnd))
    ensures band.lo < band.hi <==> 0 < height && yStart != yEnd && (yStart > 0 || yEnd > 0) && (yStart < height || yEnd < height)
  {
    var y0 := if yStart <= yEnd then yStart else yEnd;
    var y1 := if yStart <= yEnd then yEnd else yStart;
    Band(if y0 < 0 then 0 else y0, if y1 > height then height else y1)
  }

  /** Row y is painted by `redact_band(img, yStart, yEnd)` on an image of this height. */
  predicate RowFilled(height: nat, yStart: int, yEnd: int, y: int)
    ensures RowFilled(height, yStart, yEnd, y) ==> 0 <= y < height && Min(yStart, yEnd) <= y <= Max(yStart, yEnd)
  {
    var band := ClampBand(height, yStart, yEnd);
    band.lo < band.hi && band.lo <= y <= band.hi && y < height
  }

  /** The painted rows as a half-open range [lo, hi) of existing rows (empty when nothing is drawn). */
  function FilledRows(height: nat, yStart: int, yEnd: int): (rows: Band)
    ensures 0 <= rows.lo <= rows.hi <= height
    ensures forall y :: rows.lo <= y < rows.hi <==> 0 <= y < height && RowFilled(height, yStart, yEnd, y)
  {
    var band := ClampBand(height, yStart, yEnd);
    if band.hi <= band.lo then Band(0, 0)
    else Band(band.lo, if band.hi < height then band.hi + 1 else height)
  }

  /** The buffer s with the indices in [from, to) set to c. */
  function FillRange(s: seq<Rgb>, from: nat, to: nat, c: Rgb): (r: seq<Rgb>)
    requires from <= to <= |s|
    ensures |r| == |s|
    ensures forall k :: 0 <= k < |s| ==> r[k] == if from <= k < to then c else s[k]
  {
    s[..from] + seq(to - from, _ => c) + s[to..]
  }

  /**
   * The row-major buffer of a width x height image after
   * `redact_band(img, yStart, yEnd, color)`.
   */
  function Redacted(s: seq<Rgb>, width: nat, height: nat, yStart: int, yEnd: int, color: Rgb): (r: seq<Rgb>)
    requires |s| == width * height
    ensures |r| == |s|
    ensures forall k :: 0 <= k < |s| && r[k] != s[k] ==> r[k] == color
  {
    var rows := FilledRows(height, yStart, yEnd);
    RowOffsetBounds(width, height, rows.lo, rows.hi);
    FillRange(s, rows.lo * width, rows.hi * width, color)
  }

  /** The offsets of whole rows lo and hi keep their order and stay inside the buffer. */
  lemma RowOffsetBounds(width: nat, height: nat, lo: nat, hi: nat)
    requires lo <= hi <= height
    ensures lo * width <= hi * width <= width * height
  {
    MulLeft(lo, hi, width);
    MulLeft(hi, height, width);
  }

  lemma MulLeft(a: nat, b: nat, w: nat)
    requires a <= b
    ensures a * w <= b * w
  {
    assert b * w - a * w == (b - a) * w;
  }

  /** Pixel (x, y) lies at offset y * width + x, inside the buffer. */
  lemma PixelOffset(width: nat, height: nat, x: nat, y: nat)
    requires x < width && y < height
    ensures y * width + x < width * height
  {
    MulLeft(y + 1, height, width);
  }

  /** The offset of pixel (x, y) falls in the rows [lo, hi) exactly when y does. */
  lemma OffsetInRows(width: nat, x: nat, y: nat, lo: nat, hi: nat)
    requires x < width
    ensures lo * width <= y * width + x < hi * width <==> lo <= y < hi
  {
    if lo <= y { MulLeft(lo, y, width); } else { MulLeft(y + 1, lo, width); }
    if y < hi { MulLeft(y + 1, hi, width); } else { MulLeft(hi, y, width); }
  }

  /**
   * What `redact_band` does to one pixel: a pixel in a painted row takes the
   * fill colour, every other pixel keeps its value.
   */
  lemma RedactedPixel(s: seq<Rgb>, width: nat, height: nat, yStart: int, yEnd: int, color: Rgb, x: nat, y: nat)
    requires |s| == width * height && x < width && y < height
    ensures y * width + x < |s|
    ensures Redacted(s, width, height, yStart, yEnd, color)[y * width + x]
            == if RowFilled(height, yStart, yEnd, y) then color else s[y * width + x]
  {
    PixelOffset(width, height, x, y);
    var rows := FilledRows(height, yStart, yEnd);
    OffsetInRows(width, x, y, rows.lo, rows.hi);
  }

  /** The order of the two row arguments does not matter. */
  lemma RedactedSymmetric(s: seq<Rgb>, width: nat, height: nat, yStart: int, yEnd: int, color: Rgb)
    requires |s| == width * height
    ensures ClampBand(height, yStart, yEnd) == ClampBand(height, yEnd, yStart)
    ensures Redacted(s, width, height, yStart, yEnd, color) == Redacted(s, width, height, yEnd, yStart, color)
  {
  }

  /** When the clamped band is empty the image is returned pixel for pixel. */
  lemma RedactedEmptyBand(s: seq<Rgb>, width: nat, height: nat, yStart: int, yEnd: int, color: Rgb)
    requires |s| == width * height
    requires ClampBand(height, yStart, yEnd).hi <= ClampBand(height, yStart, yEnd).lo
    ensures Redacted(s, width, height, yStart, yEnd, color) == s
  {
  }

  /**
   * The cases that make the band empty: both rows at or above the top edge,
   * both at or below the bottom edge, or the same row twice.
   */
  lemma RedactedNoOpCases(s: seq<Rgb>, width: nat, height: nat, yStart: int, yEnd: int, color: Rgb)
    requires |s| == width * height
    requires (yStart <= 0 && yEnd <= 0) || (yStart >= height && yEnd >= height) || yStart == yEnd
    ensures Redacted(s, width, height, yStart, yEnd, color) == s
  {
    RedactedEmptyBand(s, width, height, yStart, yEnd, color);
  }

  /** Redacting the same band twice gives the image that redacting it once gives. */
  lemma RedactedIdempotent(s: seq<Rgb>, width: nat, height: nat, yStart: int, yEnd: int, color: Rgb)
    requires |s| == width * height
    ensures var once := Redacted(s, width, height, yStart, yEnd, color);
            |once| == width * height && Redacted(once, width, height, yStart, yEnd, color) == once
  {
  }

  /** A rendered page: its size and its row-major pixel buffer, painted in place. */
  class Image {
    const width: nat
    const height: nat
    const pixels: array<Rgb>

    ghost predicate Valid()
    {
      pixels.Length == width * height
    }

    /** The pixel in column x of row y. */
    function Pixel(x: nat, y: nat): Rgb
      reads pixels
      requires Valid() && x < width && y < height
    {
      PixelOffset(width, height, x, y);
      pixels[y * width + x]
    }

    /**
     * A page image opened and converted to RGB: a fresh width x height image
     * holding the decoded pixels `content`, row by row. Decoding the PNG file
     * is not modelled; its result is the parameter.
     */
    constructor (width: nat, height: nat, content: seq<Rgb>)
      requires |content| == width * height
      ensures Valid() && fresh(pixels)
      ensures this.width == width && this.height == height
      ensures pixels[..] == content
    {
      this.width := width;
      this.height := height;
      pixels := new Rgb[width * height](k requires 0 <= k < width * height => content[k]);
    }

    /**
     * `redact_band`: order the two rows, clamp them to the image, and unless
     * the band is then empty paint the rows y0 ..= y1 (clipped) across the
     * whole width with color.
     */
    method RedactBand(yStart: int, yEnd: int, color: Rgb)
      requires Valid()
      modifies pixels
      ensures pixels[..] == Redacted(old(pixels[..]), width, height, yStart, yEnd, color)
      ensures forall x: nat, y: nat :: x < width && y < height ==>
                Pixel(x, y) == if RowFilled(height, yStart, yEnd, y) then color else old(Pixel(x, y))
    {
      var band := ClampBand(height, yStart, yEnd);
      if band.hi <= band.lo {
        return;
      }
      // The rectangle includes its end row y1 when that row exists.
      var stop := if band.hi < height then band.hi + 1 else height;
      FillRows(band.lo, stop, color);
      forall x: nat, y: nat | x < width && y < height
        ensures Pixel(x, y) == if RowFilled(height, yStart, yEnd, y) then color else old(Pixel(x, y))
      {
        RedactedPixel(old(pixels[..]), width, height, yStart, yEnd, color, x, y);
      }
    }

    /** Paint rows [first, stop) across the full width, one pixel at a time. */
    method FillRows(first: nat, stop: nat, color: Rgb)
      requires Valid() && first <= stop <= height
      modifies pixels
      ensures pixels[..] == FillRange(old(pixels[..]), first * width, stop * width, color)
    {
      RowOffsetBounds(width, height, first, stop);
      var k := first * width;
      while k < stop * width
        invariant first * width <= k <= stop * width
        invariant pixels[..] == FillRange(old(pixels[..]), first * width, k, color)
      {
        pixels[k] := color;
        k := k + 1;
      }
    }
  }
}
