/**
 * What the sampling loop guarantees for an image with a sensible header:
 * the output size, sample coordinates inside the source, ramp positions
 * inside the ramp, and a rectangular grid of ramp characters.
 */
module RasterProperties {
  import opened Results
  import opened Numbers
  import Pgm
  import opened Raster

  /** Positive dimensions and max value, and no negative pixel. */
  predicate WellFormed(img: Pgm.Image) {
    && 0 < img.width && 0 < img.height && 0 < img.maxVal
    && forall k :: 0 <= k < |img.pixels| ==> 0 <= img.pixels[k]
  }

  /** The output height for a positive source width and non-negative budget, in floor arithmetic. */
  function DisplayHeight(width: int, height: int, maxWidth: int): int
    requires 0 < width
  {
    if width > maxWidth then maxWidth * height / (2 * width) else height / 2
  }

  /**
   * For a positive width and non-negative height and budget the size is
   * (min(width, maxWidth), DisplayHeight), both non-negative, and the
   * output is never more than half as tall as the source.
   */
  lemma ResizeBounds(width: int, height: int, maxWidth: int)
    requires 0 < width && 0 <= height && 0 <= maxWidth
    ensures ResizeForTerminal(width, height, maxWidth) == Ok((Min(width, maxWidth), DisplayHeight(width, height, maxWidth)))
    ensures 0 <= DisplayHeight(width, height, maxWidth) && 2 * DisplayHeight(width, height, maxWidth) <= height
  {
    if width > maxWidth {
      ScaledHalfHeight(width, height, maxWidth);
    }
  }

  /** Scaling a height by maxWidth / width < 1 and halving it gives at most half the height. */
  lemma ScaledHalfHeight(width: int, height: int, maxWidth: int)
    requires 0 <= maxWidth < width && 0 <= height
    ensures 0 <= maxWidth * height / (2 * width) && 2 * (maxWidth * height / (2 * width)) <= height
  {
    var a := maxWidth * height;
    MulMonotone(height, 0, maxWidth);
    MulMonotone(height, maxWidth, width);
    assert 0 <= a <= width * height;
    DivAtLeast(a, 2 * width, 0);
    HalfQuotientBound(a, width, height);
  }

  /** A quantity of at most width * height, divided by 2 * width, is at most half the height. */
  lemma HalfQuotientBound(a: int, width: int, height: int)
    requires 0 <= a <= width * height && 0 < width
    ensures 2 * (a / (2 * width)) <= height
  {
    var q, r := a / (2 * width), a % (2 * width);
    assert a == (2 * width) * q + r && 0 <= r;
    assert width * (2 * q) == (2 * width) * q;
    assert width * (height + 1) == width * height + width;
    MulCancel(width, 2 * q, height + 1);
  }

  /** `int(i * size / displaySize)` lands inside the source for every output coordinate. */
  lemma SourceCoordInRange(i: int, size: int, displaySize: int)
    requires 0 <= i < displaySize && 0 < size
    ensures 0 <= SourceCoord(i, size, displaySize) < size
  {
    MulMonotone(size, 0, i);
    MulMonotone(size, i, displaySize - 1);
    assert size * (displaySize - 1) == size * displaySize - size;
    DivBelow(i * size, displaySize, size);
    DivAtLeast(i * size, displaySize, 0);
  }

  /** Every output cell samples a flat index inside the width * height source. */
  lemma SampleIndexInImage(img: Pgm.Image, displayWidth: int, displayHeight: int, x: int, y: int)
    requires 0 < img.width && 0 < img.height
    requires 0 <= x < displayWidth && 0 <= y < displayHeight
    ensures 0 <= SampleIndex(img, displayWidth, displayHeight, x, y) < img.width * img.height
  {
    var sx := SourceCoord(x, img.width, displayWidth);
    var sy := SourceCoord(y, img.height, displayHeight);
    SourceCoordInRange(x, img.width, displayWidth);
    SourceCoordInRange(y, img.height, displayHeight);
    FlatIndexInRange(sx, sy, img.width, img.height);
  }

  /** Row-major position sy * w + sx of a point inside a w by h rectangle lies in 0 .. w * h - 1. */
  lemma FlatIndexInRange(sx: int, sy: int, w: int, h: int)
    requires 0 <= sx < w && 0 <= sy < h
    ensures 0 <= sy * w + sx < w * h
  {
    MulMonotone(w, 0, sy);
    MulMonotone(w, sy, h - 1);
    assert sy * w == w * sy;
    assert w * (h - 1) == w * h - w;
  }

  /**
   * A non-negative pixel lands inside a non-empty ramp: black (0) on the
   * first character, the max value or more on the last, and otherwise at
   * floor(pixel * (n - 1) / maxVal).
   */
  lemma RampIndexInRange(pixel: int, maxVal: int, rampLength: int)
    requires 0 <= pixel && 0 < maxVal && 0 < rampLength
    ensures RampIndex(pixel, maxVal, rampLength) == Min(pixel * (rampLength - 1) / maxVal, rampLength - 1)
    ensures 0 <= RampIndex(pixel, maxVal, rampLength) < rampLength
    ensures pixel == 0 ==> RampIndex(pixel, maxVal, rampLength) == 0
    ensures maxVal <= pixel ==> RampIndex(pixel, maxVal, rampLength) == rampLength - 1
  {
    var n1 := rampLength - 1;
    MulMonotone(n1, 0, pixel);
    DivAtLeast(pixel * n1, maxVal, 0);
    if maxVal <= pixel {
      MulMonotone(n1, maxVal, pixel);
      DivAtLeast(pixel * n1, maxVal, n1);
    }
  }

  /** A brighter pixel never lands earlier in the ramp. */
  lemma RampIndexMonotone(p: int, q: int, maxVal: int, rampLength: int)
    requires 0 <= p <= q && 0 < maxVal && 0 < rampLength
    ensures RampIndex(p, maxVal, rampLength) <= RampIndex(q, maxVal, rampLength)
  {
    var n1 := rampLength - 1;
    var a, b := p * n1, q * n1;
    RampIndexInRange(p, maxVal, rampLength);
    RampIndexInRange(q, maxVal, rampLength);
    assert a <= b by {
      MulMonotone(n1, p, q);
    }
    DivMonotone(a, b, maxVal);
  }

  /**
   * A reference definition of the character a cell should hold, in floor
   * arithmetic on non-negative numbers: sample (x * width / displayWidth,
   * y * height / displayHeight), give ' ' when that flat index is past the
   * pixels, and otherwise the ramp character at
   * min(pixel * (n - 1) / maxVal, n - 1).
   */
  function ExpectedCell(img: Pgm.Image, chars: string, displayWidth: int, displayHeight: int, x: int, y: int): (c: char)
    requires WellFormed(img) && 0 < |chars|
    requires 0 <= x && 0 <= y && 0 < displayWidth && 0 < displayHeight
    ensures c in chars || c == ' '
  {
    MulMonotone(img.width, 0, x);
    MulMonotone(img.height, 0, y);
    DivAtLeast(x * img.width, displayWidth, 0);
    DivAtLeast(y * img.height, displayHeight, 0);
    var sourceX := x * img.width / displayWidth;
    var sourceY := y * img.height / displayHeight;
    MulMonotone(img.width, 0, sourceY);
    var index := sourceY * img.width + sourceX;
    if index < |img.pixels| then
      var pixel := img.pixels[index];
      var n := |chars|;
      MulMonotone(n - 1, 0, pixel);
      DivAtLeast(pixel * (n - 1), img.maxVal, 0);
      chars[Min(pixel * (n - 1) / img.maxVal, n - 1)]
    else ' '
  }

  /**
   * For a well-formed image, a non-empty ramp and a positive display size,
   * no cell raises, and each holds the reference character.
   */
  lemma CellOfWellFormed(img: Pgm.Image, chars: string, displayWidth: int, displayHeight: int, x: int, y: int)
    requires WellFormed(img) && 0 < |chars|
    requires 0 <= x < displayWidth && 0 <= y < displayHeight
    ensures Cell(img, chars, displayWidth, displayHeight, x, y) == Ok(ExpectedCell(img, chars, displayWidth, displayHeight, x, y))
  {
    var index := SampleIndex(img, displayWidth, displayHeight, x, y);
    SampleIndexInImage(img, displayWidth, displayHeight, x, y);
    MulMonotone(img.width, 0, x);
    MulMonotone(img.height, 0, y);
    if index < |img.pixels| {
      RampIndexInRange(img.pixels[index], img.maxVal, |chars|);
    }
  }

  /**
   * pgm_to_ascii_array on a well-formed image with a non-empty ramp and a
   * positive budget succeeds exactly when the output height is positive
   * (otherwise the y-step division raises), and then yields a rectangular
   * grid of DisplayHeight rows of min(width, maxWidth) characters, each the
   * reference character of its cell.
   */
  lemma AsciiArrayOfWellFormed(img: Pgm.Image, chars: string, maxWidth: int)
    requires WellFormed(img) && 0 < |chars| && 0 < maxWidth
    ensures var displayWidth, displayHeight := Min(img.width, maxWidth), DisplayHeight(img.width, img.height, maxWidth);
      var r := AsciiArray(img, chars, maxWidth);
      && 0 < displayWidth
      && (r.Ok? <==> 0 < displayHeight)
      && (r.Err? ==> r.error == ZeroDivision)
      && (r.Ok? ==> |r.value| == displayHeight)
      && (r.Ok? ==> forall y :: 0 <= y < |r.value| ==> |r.value[y]| == displayWidth)
      && (r.Ok? ==> forall y, x :: 0 <= y < displayHeight && 0 <= x < displayWidth ==>
            r.value[y][x] == ExpectedCell(img, chars, displayWidth, displayHeight, x, y))
  {
    var displayWidth, displayHeight := Min(img.width, maxWidth), DisplayHeight(img.width, img.height, maxWidth);
    ResizeBounds(img.width, img.height, maxWidth);
    var r := AsciiArray(img, chars, maxWidth);
    assert r == SampleGrid(img, chars, displayWidth, displayHeight);
    if 0 < displayHeight {
      forall y, x | 0 <= y < displayHeight && 0 <= x < displayWidth
        ensures Cell(img, chars, displayWidth, displayHeight, x, y).Ok?
      {
        CellOfWellFormed(img, chars, displayWidth, displayHeight, x, y);
      }
      SampleGridSucceedsIff(img, chars, displayWidth, displayHeight);
      forall y, x | 0 <= y < displayHeight && 0 <= x < displayWidth
        ensures r.value[y][x] == ExpectedCell(img, chars, displayWidth, displayHeight, x, y)
      {
        CellOfWellFormed(img, chars, displayWidth, displayHeight, x, y);
        assert 0 <= y < |r.value| && 0 <= x < |r.value[y]|;
      }
    }
  }

  /**
   * When the pixels cover the whole width * height source, no cell takes the
   * ' ' fallback: every character of the grid comes from the ramp.
   */
  lemma GridDrawnFromRamp(img: Pgm.Image, chars: string, maxWidth: int)
    requires WellFormed(img) && 0 < |chars| && 0 < maxWidth
    requires img.width * img.height <= |img.pixels|
    ensures var r := AsciiArray(img, chars, maxWidth);
      r.Ok? ==> forall y, x :: 0 <= y < |r.value| && 0 <= x < |r.value[y]| ==> r.value[y][x] in chars
  {
    var displayWidth, displayHeight := Min(img.width, maxWidth), DisplayHeight(img.width, img.height, maxWidth);
    AsciiArrayOfWellFormed(img, chars, maxWidth);
    var r := AsciiArray(img, chars, maxWidth);
    if r.Ok? {
      forall y, x | 0 <= y < |r.value| && 0 <= x < |r.value[y]|
        ensures r.value[y][x] in chars
      {
        SampleIndexInImage(img, displayWidth, displayHeight, x, y);
        CellOfWellFormed(img, chars, displayWidth, displayHeight, x, y);
        var index := SampleIndex(img, displayWidth, displayHeight, x, y);
        RampIndexInRange(img.pixels[index], img.maxVal, |chars|);
      }
    }
  }

  /**
   * A source one row tall gets display height 0 (as does any source when the
   * budget is 0), so computing the y step raises ZeroDivisionError. Only a
   * budget of -2·width or less escapes: it gives a negative display height,
   * and the loop then builds no rows.
   */
  lemma SingleRowImageFails(img: Pgm.Image, chars: string, maxWidth: int)
    requires 0 < img.width && img.height == 1
    ensures AsciiArray(img, chars, maxWidth) == if -2 * img.width < maxWidth then Err(ZeroDivision) else Ok([])
  {
    if 0 <= maxWidth {
      ResizeBounds(img.width, img.height, maxWidth);
    } else {
      var displayHeight := TruncDiv(maxWidth * img.height, 2 * img.width);
      assert maxWidth * img.height == maxWidth;
      NegativeQuotient(maxWidth, 2 * img.width);
      assert ResizeForTerminal(img.width, img.height, maxWidth) == Ok((maxWidth, displayHeight));
      if displayHeight < 0 {
        assert SampleRows(img, chars, maxWidth, displayHeight, 0) == Ok([]);
      }
    }
  }

  /** `int(a / b)` of a negative a and a positive b is 0 exactly when a is above -b, and negative otherwise. */
  lemma NegativeQuotient(a: int, b: int)
    requires a < 0 < b
    ensures TruncDiv(a, b) == 0 <==> -b < a
    ensures TruncDiv(a, b) <= 0
  {
    assert Abs(TruncDiv(a, b)) == -a / b;
    if -b < a {
      assert -a < b;
    } else {
      assert 1 <= -a / b;
    }
  }

  /**
   * A max value of 0 passes the reader; the first cell that reads a pixel
   * then divides by it, so the conversion raises ZeroDivisionError.
   */
  lemma ZeroMaxValueFails(img: Pgm.Image, chars: string, maxWidth: int)
    requires 0 < img.width && 0 < img.height && img.maxVal == 0 && 0 < |img.pixels| && 0 < maxWidth
    ensures AsciiArray(img, chars, maxWidth) == Err(ZeroDivision)
  {
    var displayWidth, displayHeight := Min(img.width, maxWidth), DisplayHeight(img.width, img.height, maxWidth);
    ResizeBounds(img.width, img.height, maxWidth);
    var r := AsciiArray(img, chars, maxWidth);
    if 0 < displayHeight {
      SampleIndexInImage(img, displayWidth, displayHeight, 0, 0);
      assert Cell(img, chars, displayWidth, displayHeight, 0, 0) == Err(ZeroDivision);
      SampleGridSucceedsIff(img, chars, displayWidth, displayHeight);
      var y, x :| 0 <= y < displayHeight && 0 <= x < displayWidth &&
        Cell(img, chars, displayWidth, displayHeight, x, y) == Err(r.error);
      SampleIndexInImage(img, displayWidth, displayHeight, x, y);
    }
  }
}
