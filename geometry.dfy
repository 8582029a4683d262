/**
  The canvas geometry of expand_image: the height is kept, the width is the
  height times the target ratio truncated to an integer, and the source is
  placed at a horizontal offset that centres it (floor division by 2).
  The floating-point target ratio is modelled as an exact rational num/den.
 */
module Geometry {

  type Denominator = d: int | d > 0 witness 1

  /** An aspect ratio width:height, as the exact fraction num/den. */
  datatype Ratio = Ratio(num: int, den: Denominator)

  /** Python's int() on a quotient: division that truncates toward zero. */
  function TruncDiv(a: int, b: Denominator): (q: int)
    ensures 0 <= a ==> 0 <= q * b <= a < q * b + b
    ensures a < 0 ==> q * b - b < a <= q * b <= 0
  {
    if a >= 0 then
      DivBounds(a, b);
      a / b
    else
      DivBounds(-a, b);
      NegMul((-a) / b, b);
      -((-a) / b)
  }

  lemma DivBounds(a: nat, b: Denominator)
    ensures 0 <= (a / b) * b <= a < (a / b) * b + b
  {
    assert a == (a / b) * b + a % b;
  }

  lemma NegMul(x: int, b: int)
    ensures (-x) * b == -(x * b)
  {
  }

  /** Python's floor division `//` by 2. */
  function FloorHalf(a: int): (q: int)
    ensures 2 * q <= a <= 2 * q + 1
  {
    a / 2
  }

  /** new_width = int(new_height * target_ratio), with new_height the source height. */
  function NewWidth(height: nat, ratio: Ratio): int
  {
    TruncDiv(height * ratio.num, ratio.den)
  }

  /** x_offset = (new_width - original_width) // 2. */
  function XOffset(newWidth: int, width: int): int
  {
    FloorHalf(newWidth - width)
  }

  /** The width is the truncation of height * ratio, not its rounding: it never exceeds the exact product and falls short of it by less than one. */
  lemma NewWidthTruncates(height: nat, ratio: Ratio)
    requires ratio.num >= 0
    ensures var w := NewWidth(height, ratio);
      0 <= w && w * ratio.den <= height * ratio.num < (w + 1) * ratio.den
  {
  }

  /** A negative ratio truncates toward zero too, so the width is negative exactly when height * ratio <= -1. */
  lemma NewWidthNegativeIff(height: nat, ratio: Ratio)
    ensures NewWidth(height, ratio) < 0 <==> height * ratio.num <= -(ratio.den as int)
  {
  }

  /**
    When the canvas is at least as wide as the source, the source is padded:
    left padding x_offset, right padding the rest; both are non-negative,
    they add up with the source width to the canvas width, and the right one
    is the larger by at most one column.
   */
  lemma PaddingSplit(newWidth: int, width: nat)
    requires newWidth >= width
    ensures var left := XOffset(newWidth, width);
      var right := newWidth - width - left;
      0 <= left <= right <= left + 1 && left + width + right == newWidth
  {
  }

  /**
    When the canvas is narrower than the source, the offset is negative and
    the canvas shows the source columns from -x_offset on; the columns cut
    off on the left are at least as many as those cut off on the right, and
    at most one more.
   */
  lemma CropSplit(newWidth: nat, width: nat)
    requires newWidth < width
    ensures var off := XOffset(newWidth, width);
      var cutLeft := -off;
      var cutRight := width - newWidth - cutLeft;
      off < 0 && 0 <= cutRight <= cutLeft <= cutRight + 1 && cutLeft + newWidth + cutRight == width
  {
  }
}
