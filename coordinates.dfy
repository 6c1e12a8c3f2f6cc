/**
 * Mapping a vertical coordinate reported by the text recognizer (in document
 * units) to a pixel row of the rendered page image (`y_to_px`).
 *
 * Coordinates are modelled as exact reals. Python multiplies binary floats and
 * then rounds; the model rounds the exact product half-to-even, which is what
 * Python's `round` does to the float it is given.
 */
module Coordinates {
  import opened Wrappers

  /** Python's `round` on a real value: to the nearest integer, ties to the even one. */
  function RoundHalfEven(x: real): (n: int)
    ensures -0.5 <= n as real - x <= 0.5
    ensures (n as real - x == 0.5 || n as real - x == -0.5) ==> n % 2 == 0
  {
    var f := x.Floor;
    var d := x - f as real;
    if d < 0.5 then f
    else if d > 0.5 then f + 1
    else if f % 2 == 0 then f
    else f + 1
  }

  /** An integer strictly closer than one half to x is what x rounds to. */
  lemma RoundNearest(x: real, n: int)
    requires -0.5 < n as real - x < 0.5
    ensures RoundHalfEven(x) == n
  {
    var r := RoundHalfEven(x);
    assert -1.0 < r as real - n as real < 1.0;
  }

  /** Rounding an integer gives it back. */
  lemma RoundInteger(n: int)
    ensures RoundHalfEven(n as real) == n
  {
    RoundNearest(n as real, n);
  }

  /** Rounding preserves order. */
  lemma RoundMonotone(x: real, x': real)
    requires x <= x'
    ensures RoundHalfEven(x) <= RoundHalfEven(x')
  {
  }

  /**
   * The factor from document units to pixel rows: image height over the page
   * height the recognizer reports, or 1.0 (units taken as pixels) when that
   * height is missing, zero or negative.
   */
  function Scale(imageHeight: int, ocrHeight: Option<real>): (s: real)
    ensures ocrHeight.Some? && ocrHeight.value > 0.0 ==> s * ocrHeight.value == imageHeight as real
    ensures !(ocrHeight.Some? && ocrHeight.value > 0.0) ==> s == 1.0
  {
    if ocrHeight.Some? && ocrHeight.value > 0.0 then imageHeight as real / ocrHeight.value else 1.0
  }

  /** The pixel row of document coordinate y: the scaled value, rounded. */
  function YToPx(y: real, imageHeight: int, ocrHeight: Option<real>): (row: int)
    ensures -0.5 <= row as real - y * Scale(imageHeight, ocrHeight) <= 0.5
  {
    RoundHalfEven(y * Scale(imageHeight, ocrHeight))
  }

  /** With no usable page height, a coordinate is rounded as it stands. */
  lemma YToPxUnscaled(y: real, imageHeight: int, ocrHeight: Option<real>)
    requires ocrHeight.None? || ocrHeight.value <= 0.0
    ensures YToPx(y, imageHeight, ocrHeight) == RoundHalfEven(y)
  {
  }

  /** Mapping keeps the order of rows, since the scale is never negative for a real image. */
  lemma YToPxMonotone(y: real, y': real, imageHeight: nat, ocrHeight: Option<real>)
    requires y <= y'
    ensures YToPx(y, imageHeight, ocrHeight) <= YToPx(y', imageHeight, ocrHeight)
  {
    ScaleNonNegative(imageHeight, ocrHeight);
    RoundScaledMonotone(y, y', Scale(imageHeight, ocrHeight));
    YToPxUnfold(y, imageHeight, ocrHeight);
    YToPxUnfold(y', imageHeight, ocrHeight);
  }

  /** An unfolding aid for the proofs below: `YToPx` is its body. It states no property of its own. */
  lemma YToPxUnfold(y: real, imageHeight: int, ocrHeight: Option<real>)
    ensures YToPx(y, imageHeight, ocrHeight) == RoundHalfEven(y * Scale(imageHeight, ocrHeight))
  {
  }

  lemma ScaleNonNegative(imageHeight: nat, ocrHeight: Option<real>)
    ensures Scale(imageHeight, ocrHeight) >= 0.0
  {
    if ocrHeight.Some? && ocrHeight.value > 0.0 {
      QuotientNonNegative(imageHeight as real, ocrHeight.value);
    }
  }

  lemma QuotientNonNegative(a: real, b: real)
    requires a >= 0.0 && b > 0.0
    ensures a / b >= 0.0
  {
  }

  lemma NonNegativeProduct(a: real, b: real)
    requires a >= 0.0 && b >= 0.0
    ensures a * b >= 0.0
  {
  }

  lemma RoundScaledMonotone(y: real, y': real, s: real)
    requires y <= y' && s >= 0.0
    ensures RoundHalfEven(y * s) <= RoundHalfEven(y' * s)
  {
    NonNegativeProduct(y' - y, s);
    assert y' * s - y * s == (y' - y) * s;
    RoundMonotone(y * s, y' * s);
  }

  /** A coordinate on the page (between 0 and its height) maps to a row between 0 and the image height. */
  lemma YToPxOnPage(y: real, imageHeight: nat, ocrHeight: real)
    requires ocrHeight > 0.0 && 0.0 <= y <= ocrHeight
    ensures 0 <= YToPx(y, imageHeight, Some(ocrHeight)) <= imageHeight
  {
    YToPxMonotone(0.0, y, imageHeight, Some(ocrHeight));
    YToPxMonotone(y, ocrHeight, imageHeight, Some(ocrHeight));
    RoundInteger(0);
    RoundInteger(imageHeight);
    assert ocrHeight * Scale(imageHeight, Some(ocrHeight)) == imageHeight as real;
  }
}
