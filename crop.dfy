/**
 * The centre crop computed in `predict` before the frame is resized to the
 * classifier's input: the largest square centred in the frame, given as
 * fractions of the frame's height and width.
 */
module Crop {

  /** A crop box in normalised coordinates, in the order the resize call takes. */
  datatype Box = Box(top: real, left: real, bottom: real, right: real)

  function Min(a: nat, b: nat): (m: nat)
    ensures m <= a && m <= b && (m == a || m == b)
  {
    if a <= b then a else b
  }

  /** The whole image. */
  const FULL: Box := Box(0.0, 0.0, 1.0, 1.0)

  /** Every coordinate lies in [0, 1] and the box is not inverted. */
  predicate InUnitSquare(b: Box)
  {
    0.0 <= b.top <= b.bottom <= 1.0 && 0.0 <= b.left <= b.right <= 1.0
  }

  /** The box is centred on both axes. */
  predicate Centred(b: Box)
  {
    b.left + b.right == 1.0 && b.top + b.bottom == 1.0
  }

  /**
   * A frame whose crop edges are numbers: a square frame (0 x 0 included)
   * takes the shortcut, any other needs both sides above zero, since the
   * source divides by each of them.
   */
  predicate Croppable(imgHeight: nat, imgWidth: nat)
  {
    imgHeight == imgWidth || (imgHeight > 0 && imgWidth > 0)
  }

  /**
   * The crop of an `imgHeight` x `imgWidth` frame. A square frame (an empty
   * 0 x 0 one included) keeps the whole image; otherwise a centred square
   * of side min(height, width) is cut out.
   */
  function CropBox(imgHeight: nat, imgWidth: nat): (b: Box)
    requires Croppable(imgHeight, imgWidth)
    ensures imgHeight == imgWidth ==> b == FULL
    ensures Centred(b) && InUnitSquare(b)
    ensures (b.right - b.left) * imgWidth as real == Min(imgHeight, imgWidth) as real
    ensures (b.bottom - b.top) * imgHeight as real == Min(imgHeight, imgWidth) as real
    ensures imgHeight <= imgWidth ==> b.top == 0.0 && b.bottom == 1.0
    ensures imgWidth <= imgHeight ==> b.left == 0.0 && b.right == 1.0
  {
    if imgHeight == imgWidth then FULL
    else
      var b := GeneralBox(imgHeight, imgWidth);
      var size := Min(imgHeight, imgWidth) as real;
      AxisFacts(imgHeight as real, size, b.top, b.bottom);
      AxisFacts(imgWidth as real, size, b.left, b.right);
      b
  }

  /**
   * The edges the source computes for a frame that is not square: on each
   * axis a segment of min(height, width) pixels centred in the full
   * dimension, as fractions of that dimension.
   */
  function GeneralBox(imgHeight: nat, imgWidth: nat): Box
    requires imgHeight > 0 && imgWidth > 0
  {
    var h, w := imgHeight as real, imgWidth as real;
    var size := Min(imgHeight, imgWidth) as real;
    Box((h - size) / 2.0 / h, (w - size) / 2.0 / w,
        (h + size) / 2.0 / h, (w + size) / 2.0 / w)
  }

  /**
   * One axis of the crop: a segment of `size` pixels centred in `extent`
   * pixels, with edges `lo` and `hi` as fractions of `extent`.
   */
  lemma AxisFacts(extent: real, size: real, lo: real, hi: real)
    requires 0.0 < size <= extent
    requires lo == (extent - size) / 2.0 / extent && hi == (extent + size) / 2.0 / extent
    ensures lo + hi == 1.0 && (hi - lo) * extent == size
    ensures 0.0 <= lo <= hi <= 1.0
    ensures size == extent ==> lo == 0.0 && hi == 1.0
  {
    assert lo * extent == (extent - size) / 2.0;
    assert hi * extent == (extent + size) / 2.0;
    assert (lo + hi) * extent == lo * extent + hi * extent;
    assert (hi - lo) * extent == hi * extent - lo * extent;
  }

  /**
   * The general formula, applied to a square frame, already yields the
   * whole image: the square case in the source is a shortcut, not a
   * different answer.
   */
  lemma SquareShortcutAgrees(side: nat)
    requires side > 0
    ensures GeneralBox(side, side) == FULL
  {
    var b := GeneralBox(side, side);
    var s := side as real;
    AxisFacts(s, s, b.top, b.bottom);
    AxisFacts(s, s, b.left, b.right);
  }

  /** For every frame with both sides above zero, the crop is the general formula. */
  lemma CropBoxIsGeneralBox(imgHeight: nat, imgWidth: nat)
    requires imgHeight > 0 && imgWidth > 0
    ensures CropBox(imgHeight, imgWidth) == GeneralBox(imgHeight, imgWidth)
  {
    if imgHeight == imgWidth {
      SquareShortcutAgrees(imgHeight);
    }
  }

  /**
   * No box inside the frame that is square in pixels is larger than the
   * crop: its side is at most min(height, width).
   */
  lemma CropBoxIsLargest(imgHeight: nat, imgWidth: nat, b: Box)
    requires imgHeight > 0 && imgWidth > 0
    requires InUnitSquare(b)
    requires (b.right - b.left) * imgWidth as real == (b.bottom - b.top) * imgHeight as real
    ensures (b.right - b.left) * imgWidth as real <= Min(imgHeight, imgWidth) as real
  {
    var h, w := imgHeight as real, imgWidth as real;
    AtMostWhole(b.right - b.left, w);
    AtMostWhole(b.bottom - b.top, h);
    if imgHeight <= imgWidth {
      assert Min(imgHeight, imgWidth) as real == h;
    } else {
      assert Min(imgHeight, imgWidth) as real == w;
    }
  }

  /** A fraction of at most one of an extent is at most the extent. */
  lemma AtMostWhole(fraction: real, extent: real)
    requires fraction <= 1.0 && extent > 0.0
    ensures fraction * extent <= extent
  {
    assert (1.0 - fraction) * extent >= 0.0;
    assert (1.0 - fraction) * extent == extent - fraction * extent;
  }

  /**
   * A centred box that spans min(height, width) pixels on both axes is
   * unique: any two such boxes are equal. `CropBox` is one of them (its
   * postconditions), so it is the only one.
   */
  lemma CentredSquareIsUnique(imgHeight: nat, imgWidth: nat, b: Box, c: Box)
    requires imgHeight > 0 && imgWidth > 0
    requires Centred(b) && Centred(c)
    requires (b.right - b.left) * imgWidth as real == Min(imgHeight, imgWidth) as real
    requires (b.bottom - b.top) * imgHeight as real == Min(imgHeight, imgWidth) as real
    requires (c.right - c.left) * imgWidth as real == Min(imgHeight, imgWidth) as real
    requires (c.bottom - c.top) * imgHeight as real == Min(imgHeight, imgWidth) as real
    ensures b == c
  {
    var size := Min(imgHeight, imgWidth) as real;
    SameSpan(b.left, b.right, c.left, c.right, imgWidth as real, size);
    SameSpan(b.top, b.bottom, c.top, c.bottom, imgHeight as real, size);
  }

  /** Two centred segments spanning the same number of pixels coincide. */
  lemma SameSpan(lo: real, hi: real, lo': real, hi': real, extent: real, size: real)
    requires extent > 0.0
    requires lo + hi == 1.0 && lo' + hi' == 1.0
    requires (hi - lo) * extent == size && (hi' - lo') * extent == size
    ensures lo == lo' && hi == hi'
  {
    assert (hi - lo) * extent - (hi' - lo') * extent == ((hi - lo) - (hi' - lo')) * extent;
  }
}
