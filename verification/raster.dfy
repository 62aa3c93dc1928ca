/**
 * `resize_for_terminal` and the grid-building loop of `pgm_to_ascii_array`:
 * choose the output size, sample the source by nearest neighbour, and map
 * each sampled intensity to a character of the ramp.
 *
 * The source computes with floats; here every quotient is exact and `int()`
 * of it is truncation toward zero (`TruncDiv`). Python's negative sequence
 * indices are modelled too (`PyIndex`), so every input has a defined
 * outcome: a grid, or the exception the loop would raise.
 */
module Raster {
  import opened Results
  import opened Numbers
  import opened Text
  import Pgm

  /** An ASCII picture: a sequence of rows of characters. */
  type Grid = seq<seq<char>>

  datatype RasterError =
    | ZeroDivision     // ZeroDivisionError: a zero display size or a zero max value
    | IndexOutOfRange  // IndexError from pixels[...] or chars[...]

  /** The default ramp, darkest first. */
  const DefaultRamp: string := "@%#*+=-:. "

  /** The default column budget. */
  const DefaultMaxWidth: int := 80

  /**
   * resize_for_terminal: a source wider than the budget is scaled to the
   * budget, keeping the aspect ratio; the height is halved because terminal
   * cells are about twice as tall as wide. `height / width` raises when the
   * width is 0.
   */
  function ResizeForTerminal(width: int, height: int, maxWidth: int): (r: Result<(int, int), RasterError>)
    ensures r.Err? <==> width == 0
    ensures r.Err? ==> r.error == ZeroDivision
    ensures r.Ok? ==> r.value.0 <= maxWidth && r.value.0 <= width
    ensures r.Ok? ==> r.value.0 == if width > maxWidth then maxWidth else width
    ensures 0 <= maxWidth < width && 0 <= height ==> r == Ok((maxWidth, maxWidth * height / (2 * width)))
    ensures 0 < width <= maxWidth && 0 <= height ==> r == Ok((width, height / 2))
  {
    if width == 0 then Err(ZeroDivision)
    else if width > maxWidth then Ok((maxWidth, TruncDiv(maxWidth * height, 2 * width)))
    else Ok((width, TruncDiv(height, 2)))
  }

  /** Python's `s[i]`: a negative index counts from the end; out of range is an IndexError. */
  function PyIndex<T>(s: seq<T>, i: int): (r: Option<T>)
    ensures r.Some? <==> -|s| <= i < |s|
    ensures 0 <= i < |s| ==> r == Some(s[i])
    ensures -|s| <= i < 0 ==> r == Some(s[|s| + i])
  {
    if 0 <= i < |s| then Some(s[i])
    else if -|s| <= i < 0 then Some(s[|s| + i])
    else None
  }

  /**
   * The source coordinate sampled for output coordinate i: `int(i * step)`
   * with `step = size / displaySize`.
   */
  function SourceCoord(i: int, size: int, displaySize: int): int
    requires displaySize != 0
  {
    TruncDiv(i * size, displaySize)
  }

  /** The flat pixel index `src_y * width + src_x` sampled for output cell (x, y). */
  function SampleIndex(img: Pgm.Image, displayWidth: int, displayHeight: int, x: int, y: int): int
    requires displayWidth != 0 && displayHeight != 0
  {
    SourceCoord(y, img.height, displayHeight) * img.width + SourceCoord(x, img.width, displayWidth)
  }

  /**
   * The ramp position of a pixel: `int(pixel / max_val * (len(chars) - 1))`,
   * clamped above by `len(chars) - 1`.
   */
  function RampIndex(pixel: int, maxVal: int, rampLength: int): (k: int)
    requires maxVal != 0
    ensures k <= rampLength - 1
  {
    Min(TruncDiv(pixel * (rampLength - 1), maxVal), rampLength - 1)
  }

  /**
   * One output cell, with the loop body's order of effects: a flat index
   * past the pixels gives ' '; otherwise the pixel is read, divided by the
   * max value and looked up in the ramp, each of which may raise. Whatever
   * the image, a cell that succeeds is a ramp character or the blank, as
   * Python's negative indices still land inside the sequence.
   */
  function Cell(img: Pgm.Image, chars: string, displayWidth: int, displayHeight: int, x: int, y: int)
    : (r: Result<char, RasterError>)
    requires displayWidth != 0 && displayHeight != 0
    ensures r.Ok? ==> r.value == ' ' || r.value in chars
    ensures SampleIndex(img, displayWidth, displayHeight, x, y) >= |img.pixels| ==> r == Ok(' ')
    ensures r == Err(ZeroDivision) ==> img.maxVal == 0
    ensures var index := SampleIndex(img, displayWidth, displayHeight, x, y);
      0 <= index < |img.pixels| && 0 <= img.pixels[index] && 0 < img.maxVal && 0 < |chars| ==>
        r.Ok? && r.value in chars
  {
    var index := SampleIndex(img, displayWidth, displayHeight, x, y);
    if index < |img.pixels| then
      match PyIndex(img.pixels, index)
      case None => Err(IndexOutOfRange)
      case Some(pixel) =>
        if img.maxVal == 0 then Err(ZeroDivision)
        else
          match PyIndex(chars, RampIndex(pixel, img.maxVal, |chars|))
          case None => Err(IndexOutOfRange)
          case Some(c) => Ok(c)
    else Ok(' ')
  }

  /** The inner loop: cells x, x + 1, ..., displayWidth - 1 of row y, stopping at the first exception. */
  function SampleRow(img: Pgm.Image, chars: string, displayWidth: int, displayHeight: int, y: int, x: int)
    : (r: Result<seq<char>, RasterError>)
    requires displayWidth != 0 && displayHeight != 0
    ensures r.Ok? <==> forall i :: x <= i < displayWidth ==> Cell(img, chars, displayWidth, displayHeight, i, y).Ok?
    ensures r.Ok? ==> |r.value| == Max(displayWidth - x, 0)
    ensures r.Ok? ==> forall k :: 0 <= k < |r.value| ==>
      Cell(img, chars, displayWidth, displayHeight, x + k, y) == Ok(r.value[k])
    ensures r.Err? ==> exists i :: (
      && x <= i < displayWidth
      && Cell(img, chars, displayWidth, displayHeight, i, y) == Err(r.error)
      && forall j :: x <= j < i ==> Cell(img, chars, displayWidth, displayHeight, j, y).Ok?)
    decreases displayWidth - x
  {
    if displayWidth <= x then Ok([])
    else
      var cell := Cell(img, chars, displayWidth, displayHeight, x, y);
      if cell.Err? then Err(cell.error)
      else
        var rest := SampleRow(img, chars, displayWidth, displayHeight, y, x + 1);
        if rest.Err? then
          RowFailureLater(img, chars, displayWidth, displayHeight, y, x, rest.error);
          Err(rest.error)
        else
          var row := [cell.value] + rest.value;
          assert forall k :: 1 <= k < |row| ==> row[k] == rest.value[k - 1];
          Ok(row)
  }

  /** When cell x of row y succeeds, the first failure from column x + 1 on is the first from column x on. */
  lemma RowFailureLater(img: Pgm.Image, chars: string, displayWidth: int, displayHeight: int, y: int, x: int, e: RasterError)
    requires displayWidth != 0 && displayHeight != 0
    requires Cell(img, chars, displayWidth, displayHeight, x, y).Ok?
    requires exists i :: (
      && x + 1 <= i < displayWidth
      && Cell(img, chars, displayWidth, displayHeight, i, y) == Err(e)
      && forall j :: x + 1 <= j < i ==> Cell(img, chars, displayWidth, displayHeight, j, y).Ok?)
    ensures exists i :: (
      && x <= i < displayWidth
      && Cell(img, chars, displayWidth, displayHeight, i, y) == Err(e)
      && forall j :: x <= j < i ==> Cell(img, chars, displayWidth, displayHeight, j, y).Ok?)
  {
    var i :| && x + 1 <= i < displayWidth
      && Cell(img, chars, displayWidth, displayHeight, i, y) == Err(e)
      && forall j :: x + 1 <= j < i ==> Cell(img, chars, displayWidth, displayHeight, j, y).Ok?;
    assert forall j :: x <= j < i ==> Cell(img, chars, displayWidth, displayHeight, j, y).Ok?;
  }

  /**
   * Every cell the loops visit before cell (x, y), starting from row y0, succeeds:
   * all cells of rows y0 .. y - 1 and the cells of row y left of x.
   */
  predicate CellsOkBefore(img: Pgm.Image, chars: string, displayWidth: int, displayHeight: int, y0: int, y: int, x: int)
    requires displayWidth != 0 && displayHeight != 0
  {
    && (forall j, i :: y0 <= j < y && 0 <= i < displayWidth ==> Cell(img, chars, displayWidth, displayHeight, i, j).Ok?)
    && (forall i :: 0 <= i < x ==> Cell(img, chars, displayWidth, displayHeight, i, y).Ok?)
  }

  /**
   * e is what the first failing cell raises, in the loops' row-major order
   * from row y0 on: some cell (x, y) raises e and every cell visited before it succeeds.
   */
  predicate FirstFailure(img: Pgm.Image, chars: string, displayWidth: int, displayHeight: int, y0: int, e: RasterError)
    requires displayWidth != 0 && displayHeight != 0
  {
    exists y, x :: (
      && y0 <= y < displayHeight && 0 <= x < displayWidth
      && Cell(img, chars, displayWidth, displayHeight, x, y) == Err(e)
      && CellsOkBefore(img, chars, displayWidth, displayHeight, y0, y, x))
  }

  /** A failure in row y itself is the first failure from row y on. */
  lemma FirstFailureInRow(img: Pgm.Image, chars: string, displayWidth: int, displayHeight: int, y: int, e: RasterError)
    requires displayWidth != 0 && displayHeight != 0 && y < displayHeight
    requires exists i :: (
      && 0 <= i < displayWidth
      && Cell(img, chars, displayWidth, displayHeight, i, y) == Err(e)
      && forall j :: 0 <= j < i ==> Cell(img, chars, displayWidth, displayHeight, j, y).Ok?)
    ensures FirstFailure(img, chars, displayWidth, displayHeight, y, e)
  {
    var i :| && 0 <= i < displayWidth
      && Cell(img, chars, displayWidth, displayHeight, i, y) == Err(e)
      && forall j :: 0 <= j < i ==> Cell(img, chars, displayWidth, displayHeight, j, y).Ok?;
    assert CellsOkBefore(img, chars, displayWidth, displayHeight, y, y, i);
  }

  /** When every cell of row y succeeds, the first failure from row y + 1 on is the first from row y on. */
  lemma FirstFailureLater(img: Pgm.Image, chars: string, displayWidth: int, displayHeight: int, y: int, e: RasterError)
    requires displayWidth != 0 && displayHeight != 0
    requires forall i :: 0 <= i < displayWidth ==> Cell(img, chars, displayWidth, displayHeight, i, y).Ok?
    requires FirstFailure(img, chars, displayWidth, displayHeight, y + 1, e)
    ensures FirstFailure(img, chars, displayWidth, displayHeight, y, e)
  {
    var j, i :| && y + 1 <= j < displayHeight && 0 <= i < displayWidth
      && Cell(img, chars, displayWidth, displayHeight, i, j) == Err(e)
      && CellsOkBefore(img, chars, displayWidth, displayHeight, y + 1, j, i);
    assert CellsOkBefore(img, chars, displayWidth, displayHeight, y, j, i);
  }

  /** The outer loop: rows y, y + 1, ..., displayHeight - 1, stopping at the first exception. */
  function SampleRows(img: Pgm.Image, chars: string, displayWidth: int, displayHeight: int, y: int)
    : (r: Result<Grid, RasterError>)
    requires displayWidth != 0 && displayHeight != 0
    ensures r.Ok? ==> |r.value| == Max(displayHeight - y, 0)
    ensures r.Ok? ==> forall k :: 0 <= k < |r.value| ==> |r.value[k]| == Max(displayWidth, 0)
    ensures r.Ok? ==> forall k, i :: 0 <= k < |r.value| && 0 <= i < |r.value[k]| ==>
      Cell(img, chars, displayWidth, displayHeight, i, y + k) == Ok(r.value[k][i])
    ensures r.Err? ==> FirstFailure(img, chars, displayWidth, displayHeight, y, r.error)
    decreases displayHeight - y
  {
    if displayHeight <= y then Ok([])
    else
      var row := SampleRow(img, chars, displayWidth, displayHeight, y, 0);
      if row.Err? then
        FirstFailureInRow(img, chars, displayWidth, displayHeight, y, row.error);
        Err(row.error)
      else
        var rest := SampleRows(img, chars, displayWidth, displayHeight, y + 1);
        if rest.Err? then
          FirstFailureLater(img, chars, displayWidth, displayHeight, y, rest.error);
          Err(rest.error)
        else
          var grid := [row.value] + rest.value;
          assert forall k :: 1 <= k < |grid| ==> grid[k] == rest.value[k - 1];
          Ok(grid)
  }

  /**
   * The sampling loop of pgm_to_ascii_array for a given display size. Both
   * steps are computed before the loop, so a zero display width or height
   * raises even when the loop would not run; a negative one gives no rows
   * (or empty rows), as `range` of a negative number is empty.
   */
  function SampleGrid(img: Pgm.Image, chars: string, displayWidth: int, displayHeight: int)
    : (r: Result<Grid, RasterError>)
    ensures displayWidth == 0 || displayHeight == 0 ==> r == Err(ZeroDivision)
    ensures r.Ok? ==> |r.value| == Max(displayHeight, 0)
    ensures r.Ok? ==> forall y :: 0 <= y < |r.value| ==> |r.value[y]| == Max(displayWidth, 0)
    ensures r.Ok? ==> forall y, x :: 0 <= y < |r.value| && 0 <= x < |r.value[y]| ==>
      Cell(img, chars, displayWidth, displayHeight, x, y) == Ok(r.value[y][x])
    ensures r.Err? && displayWidth != 0 && displayHeight != 0 ==>
      FirstFailure(img, chars, displayWidth, displayHeight, 0, r.error)
  {
    if displayWidth == 0 || displayHeight == 0 then Err(ZeroDivision)
    else SampleRows(img, chars, displayWidth, displayHeight, 0)
  }

  /** The loop completes exactly when the display size is non-zero and no cell raises. */
  lemma SampleGridSucceedsIff(img: Pgm.Image, chars: string, displayWidth: int, displayHeight: int)
    ensures SampleGrid(img, chars, displayWidth, displayHeight).Ok? <==>
      && displayWidth != 0 && displayHeight != 0
      && forall y, x :: 0 <= y < displayHeight && 0 <= x < displayWidth ==>
        Cell(img, chars, displayWidth, displayHeight, x, y).Ok?
  {
    var r := SampleGrid(img, chars, displayWidth, displayHeight);
    if r.Ok? {
      forall y, x | 0 <= y < displayHeight && 0 <= x < displayWidth
        ensures Cell(img, chars, displayWidth, displayHeight, x, y).Ok?
      {
        assert 0 <= y < |r.value| && 0 <= x < |r.value[y]|;
      }
    } else if displayWidth != 0 && displayHeight != 0 {
      var y, x :| 0 <= y < displayHeight && 0 <= x < displayWidth &&
        Cell(img, chars, displayWidth, displayHeight, x, y) == Err(r.error);
    }
  }

  /** pgm_to_ascii_array after the file has been read: resize, then sample. */
  function AsciiArray(img: Pgm.Image, chars: string, maxWidth: int): (r: Result<Grid, RasterError>)
    ensures img.width == 0 ==> r == Err(ZeroDivision)
    ensures r.Ok? ==> forall y :: 0 <= y < |r.value| ==>
      |r.value[y]| <= Max(img.width, 0) && |r.value[y]| <= Max(maxWidth, 0)
    ensures r.Ok? ==> forall y, x :: 0 <= y < |r.value| && 0 <= x < |r.value[y]| ==>
      r.value[y][x] == ' ' || r.value[y][x] in chars
  {
    var size :- ResizeForTerminal(img.width, img.height, maxWidth);
    SampleGrid(img, chars, size.0, size.1)
  }

  datatype ConvertError =
    | ReadFailed(readError: Pgm.PgmError)
    | RasterFailed(rasterError: RasterError)

  /**
   * pgm_to_ascii_array over the bytes of the file: a file the reader refuses
   * fails with the reader's error before any sampling; a picture it returns
   * is no wider than the budget and drawn from the ramp and the blank.
   */
  function PgmToAsciiArray(data: seq<Byte>, chars: string, maxWidth: int): (r: Result<Grid, ConvertError>)
    ensures Pgm.ReadPgm(data).Err? ==> r == Err(ReadFailed(Pgm.ReadPgm(data).error))
    ensures r.Err? && r.error.RasterFailed? ==> Pgm.ReadPgm(data).Ok?
    ensures r.Ok? ==> Pgm.ReadPgm(data).Ok? && AsciiArray(Pgm.ReadPgm(data).value, chars, maxWidth) == Ok(r.value)
    ensures r.Ok? ==> forall y :: 0 <= y < |r.value| ==> |r.value[y]| <= Max(maxWidth, 0)
    ensures r.Ok? ==> forall y, x :: 0 <= y < |r.value| && 0 <= x < |r.value[y]| ==>
      r.value[y][x] == ' ' || r.value[y][x] in chars
  {
    match Pgm.ReadPgm(data)
    case Err(e) => Err(ReadFailed(e))
    case Ok(img) =>
      match AsciiArray(img, chars, maxWidth)
      case Ok(grid) => Ok(grid)
      case Err(e) => Err(RasterFailed(e))
  }
}
