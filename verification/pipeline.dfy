/**
 * The converter's main flow after the file is read: pgm_to_ascii_array,
 * then the generator on its result. For a well-formed image and a ramp of
 * plain characters the generated program reproduces the picture. The
 * generator used is the corrected one, which refuses empty pictures; a
 * well-formed image never yields one.
 */
module Pipeline {
  import opened Results
  import opened Numbers
  import opened Raster
  import opened RasterProperties
  import opened CodeGen
  import opened CodeGenProperties
  import opened GeneratedProgram
  import opened GeneratedProgramProperties
  import Pgm
  import PgmRoundTrip

  /** No ramp character ends a Python source line or is a NUL. */
  predicate PlainRamp(chars: string) {
    forall i :: 0 <= i < |chars| ==> PlainChar(chars[i])
  }

  /**
   * The grid pgm_to_ascii_array builds from a well-formed image is one
   * generate_if_else_code accepts: it is rectangular, so no row is shorter
   * than row 0, it has at least one row, its width is the display width,
   * which is positive, and with a plain ramp every cell is plain.
   */
  lemma AsciiGridIsGeneratable(img: Pgm.Image, chars: string, maxWidth: int)
    requires WellFormed(img) && 0 < |chars| && 0 < maxWidth && PlainRamp(chars)
    ensures var r := AsciiArray(img, chars, maxWidth);
      r.Ok? ==>
        && GenerateLines(r.value).Ok?
        && GenerateCheckedCode(r.value).Ok?
        && 0 < GridWidth(r.value) == Min(img.width, maxWidth)
        && 0 < |r.value| == DisplayHeight(img.width, img.height, maxWidth)
        && PlainCells(r.value)
  {
    var displayWidth, displayHeight := Min(img.width, maxWidth), DisplayHeight(img.width, img.height, maxWidth);
    AsciiArrayOfWellFormed(img, chars, maxWidth);
    var r := AsciiArray(img, chars, maxWidth);
    if r.Ok? {
      var grid := r.value;
      forall y, x | 0 <= y < |grid| && 0 <= x < |grid[y]|
        ensures PlainChar(grid[y][x])
      {
        assert grid[y][x] == ExpectedCell(img, chars, displayWidth, displayHeight, x, y);
      }
    }
  }

  /**
   * The generated `print_ascii_art(x, y)` for a converted image returns the
   * reference character of cell (x, y) inside the display size, and a space
   * for every other pair of integers.
   */
  lemma ConvertedProgramPrintsCell(img: Pgm.Image, chars: string, maxWidth: int, x: int, y: int)
    requires WellFormed(img) && 0 < |chars| && 0 < maxWidth && PlainRamp(chars)
    ensures var r := AsciiArray(img, chars, maxWidth);
      var displayWidth, displayHeight := Min(img.width, maxWidth), DisplayHeight(img.width, img.height, maxWidth);
      r.Ok? ==>
        && GenerateCheckedCode(r.value).Ok?
        && PrintAsciiArt(GenerateCheckedCode(r.value).value, x, y)
          == Some(if 0 <= y < displayHeight && 0 <= x < displayWidth
                  then ExpectedCell(img, chars, displayWidth, displayHeight, x, y) else ' ')
  {
    AsciiGridIsGeneratable(img, chars, maxWidth);
    AsciiArrayOfWellFormed(img, chars, maxWidth);
    var r := AsciiArray(img, chars, maxWidth);
    if r.Ok? {
      GeneratedProgramReturnsCell(r.value, x, y);
    }
  }

  /**
   * Running the generated program for a converted image prints every row of
   * the grid in full, each followed by a newline.
   */
  lemma ConvertedProgramDisplaysGrid(img: Pgm.Image, chars: string, maxWidth: int)
    requires WellFormed(img) && 0 < |chars| && 0 < maxWidth && PlainRamp(chars)
    ensures var r := AsciiArray(img, chars, maxWidth);
      r.Ok? ==>
        && GenerateCheckedCode(r.value).Ok?
        && DisplayAsciiArt(GenerateCheckedCode(r.value).value) == Some(Picture(r.value, |r.value|, GridWidth(r.value)))
        && forall y :: 0 <= y < |r.value| ==> r.value[y][..GridWidth(r.value)] == r.value[y]
  {
    AsciiGridIsGeneratable(img, chars, maxWidth);
    AsciiArrayOfWellFormed(img, chars, maxWidth);
    var r := AsciiArray(img, chars, maxWidth);
    if r.Ok? {
      GeneratedProgramDisplaysGrid(r.value);
    }
  }

  /** `int("-4")` is -4: a header may give a negative size. */
  lemma NegativeTokenParses()
    ensures ParseInt("-4") == Some(-4)
  {
    assert "-4"[1..] == "4" && AllDigits("4");
  }

  /**
   * The converter does reach the degenerate case: `int()` accepts the
   * header's "-4", the display height is then -2 and `range(-2)` is empty,
   * so the grid has no rows. The program generate_if_else_code writes for
   * it as written runs nothing; the corrected generator refuses it.
   */
  lemma EmptyPictureReachable(x: int, y: int)
    ensures ParseInt("-4") == Some(-4)
    ensures AsciiArray(Pgm.Image(4, -4, 255, []), DefaultRamp, DefaultMaxWidth) == Ok([])
    ensures GenerateIfElseCode([]).Ok?
    ensures PrintAsciiArt(GenerateIfElseCode([]).value, x, y) == None
    ensures DisplayAsciiArt(GenerateIfElseCode([]).value) == None
    ensures GenerateCheckedCode([]) == Err(EmptyPicture)
  {
    NegativeTokenParses();
    assert ResizeForTerminal(4, -4, DefaultMaxWidth) == Ok((4, -2));
    DegenerateGridProgramRejected([], x, y);
  }

  /**
   * Not every negative height gives an empty grid: when the display height
   * truncates to 0, as for a height of -1, or for a height of -3 squeezed
   * from 200 columns into 80, the y-step division raises first.
   */
  lemma SmallNegativeHeightFails()
    ensures ResizeForTerminal(4, -1, DefaultMaxWidth) == Ok((4, 0))
    ensures AsciiArray(Pgm.Image(4, -1, 255, []), DefaultRamp, DefaultMaxWidth) == Err(ZeroDivision)
    ensures ResizeForTerminal(200, -3, DefaultMaxWidth) == Ok((80, 0))
    ensures AsciiArray(Pgm.Image(200, -3, 255, []), DefaultRamp, DefaultMaxWidth) == Err(ZeroDivision)
  {
  }

  /** ASCII-art conversion of an image, with a sampling exception wrapped as the converter reports it. */
  function Converted(img: Pgm.Image, chars: string, maxWidth: int): Result<Grid, ConvertError> {
    match AsciiArray(img, chars, maxWidth)
    case Ok(grid) => Ok(grid)
    case Err(e) => Err(RasterFailed(e))
  }

  /**
   * pgm_to_ascii_array on a file holding an image gives the grid sampled
   * from that image, whether the file is plain or raw and whatever comments
   * it carries.
   */
  lemma ConvertFileOfImage(img: Pgm.Image, comments: seq<string>, chars: string, maxWidth: int)
    requires forall k :: 0 <= k < |comments| ==> PgmRoundTrip.IsComment(comments[k])
    ensures PgmRoundTrip.Writable(img) ==>
      PgmToAsciiArray(PgmRoundTrip.EncodeP2(img, comments), chars, maxWidth) == Converted(img, chars, maxWidth)
    ensures PgmRoundTrip.RawWritable(img) ==>
      PgmToAsciiArray(PgmRoundTrip.EncodeP5(img, comments), chars, maxWidth) == Converted(img, chars, maxWidth)
  {
    if PgmRoundTrip.Writable(img) {
      PgmRoundTrip.P2RoundTrip(img, comments);
    }
    if PgmRoundTrip.RawWritable(img) {
      PgmRoundTrip.P5RoundTrip(img, comments);
    }
  }
}
