/**
 * `Color`: an RGB triple with the contrast measures of the exercise. The
 * object is never changed after `initialize`, so it is a value here.
 */
module Contrast {

  datatype Color = Color(r: int, g: int, b: int)

  /** Components in the usual `0..255` range. */
  predicate InRange(c: Color) {
    0 <= c.r <= 255 && 0 <= c.g <= 255 && 0 <= c.b <= 255
  }

  function Abs(x: int): (y: nat)
    ensures y == x || y == -x
  {
    if x < 0 then -x else x
  }

  /**
   * `(299 * r + 587 * g + 114 * b) / 1000`. Ruby's integer `/` rounds toward
   * negative infinity, which for the positive divisor 1000 is what Dafny's
   * `/` does as well.
   */
  function BrightnessIndex(c: Color): (index: int)
    ensures 1000 * index <= 299 * c.r + 587 * c.g + 114 * c.b < 1000 * index + 1000
    ensures InRange(c) ==> 0 <= index <= 255
  {
    (299 * c.r + 587 * c.g + 114 * c.b) / 1000
  }

  function BrightnessDifference(c: Color, other: Color): (d: nat)
    ensures d == 0 <==> BrightnessIndex(c) == BrightnessIndex(other)
    ensures InRange(c) && InRange(other) ==> d <= 255
  {
    Abs(BrightnessIndex(c) - BrightnessIndex(other))
  }

  function HueDifference(c: Color, other: Color): (d: nat)
    ensures d == 0 <==> c == other
    ensures InRange(c) && InRange(other) ==> d <= 765
  {
    Abs(c.r - other.r) + Abs(c.g - other.g) + Abs(c.b - other.b)
  }

  /** `enough_contrast?`: brightness difference above 125 and hue difference above 500. */
  predicate EnoughContrast(c: Color, other: Color)
    ensures EnoughContrast(c, other) ==> c != other && BrightnessIndex(c) != BrightnessIndex(other)
  {
    BrightnessDifference(c, other) > 125 && HueDifference(c, other) > 500
  }

  /** Both differences, and so the contrast test, do not depend on the order of the colours. */
  lemma DifferencesSymmetric(c: Color, other: Color)
    ensures BrightnessDifference(c, other) == BrightnessDifference(other, c)
    ensures HueDifference(c, other) == HueDifference(other, c)
    ensures EnoughContrast(c, other) == EnoughContrast(other, c)
  {
  }

  /** A colour never has enough contrast with itself. */
  lemma NoContrastWithItself(c: Color)
    ensures BrightnessDifference(c, c) == 0 && HueDifference(c, c) == 0
    ensures !EnoughContrast(c, c)
  {
  }

  /** The hue difference is a distance: it obeys the triangle inequality. */
  lemma HueTriangle(a: Color, b: Color, c: Color)
    ensures HueDifference(a, c) <= HueDifference(a, b) + HueDifference(b, c)
  {
  }

  /** Black and white have enough contrast: brightness 0 against 255, hue 765. */
  lemma BlackWhiteContrast()
    ensures EnoughContrast(Color(0, 0, 0), Color(255, 255, 255))
  {
  }
}
