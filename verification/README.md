# PGM to if/else ASCII-art generator, modelled in Dafny

`pgm_to_output_loops_conditional.py` turns a grey-map image into a Python
program. It works in three steps:

1. `read_pgm` reads a Netpbm PGM file. The plain variant `P2` holds decimal pixels and the raw variant `P5` holds one byte per pixel.
2. `pgm_to_ascii_array` samples the picture down to terminal size (`resize_for_terminal`). It maps every sampled intensity to a character of a ramp, `"@%#*+=-:. "` by default.
3. `generate_if_else_code` writes the text of a program. In that program, `print_ascii_art(x, y)` returns the character at (x, y) through nested `if`/`elif` chains, and `display_ascii_art()` prints the whole picture.

This project models the three steps as pure functions over bytes, integers
and strings:

- **Results, Numbers, Text.** Python's `Option`/exception outcomes as
  `Result` values, plus the pieces of Python the program relies on:
  - `int()` on a token, including sign and underscores;
  - `str()` of a natural number;
  - `int()` of a quotient, truncating toward zero;
  - `bytes.readline`, `decode('ascii')`, `split()` and `strip()`.
- **Pgm.** `read_pgm` over the file's bytes. **PgmRoundTrip** adds a writer for both variants and the round trips that tie the reader to it.
- **Raster.** `resize_for_terminal` and the sampling loop. The two exceptions the loop raises on integers of any size, `ZeroDivisionError` and `IndexError`, become error values, and the first cell to raise decides which. The `OverflowError` of a float quotient too large for a double is not modelled (see "Left out"). Python's negative indices are modelled too. **RasterProperties** gives a reference definition of each cell and the bounds the sampling keeps.
- **CodeGen.** The line list and text that `generate_if_else_code` returns. **CodeGenProperties** states where every generated line sits.
- **GeneratedProgram.** A small evaluator for programs of exactly the shape the generator writes. It first checks that `print_ascii_art` compiles: no NUL or carriage return in the text, every chain opened by an `if`, every test and `else` followed by its `return`. It then splits the text into lines, runs the `if`/`elif` chains of `print_ascii_art` (skipping branch bodies by indentation), and runs the two loops of `display_ascii_art`. **GeneratedProgramProperties** proves that the generated program returns every cell and prints the whole grid.
- **Pipeline.** Reading, sampling and generation together. For a well-formed image, a positive budget and a non-empty ramp, the program written for the sampled grid reproduces that grid. A negative display height, which a header height of -2 or less gives for a source no wider than the budget, yields an empty grid, for which `generate_if_else_code` writes a program that does not compile (see "Findings"). The pipeline therefore uses a corrected generator that refuses empty pictures.

Floating-point quotients (`height / width`, `* 0.5`, `x * x_step`,
`pixel / max_val * (n - 1)`) are computed exactly and then truncated,
as `int()` does. The source does not check everything that a reader might
expect. The model follows the code in each case:

- Pixels may be fewer or more than `width * height`. A cell whose sample index is past the end of the pixels becomes `' '`.
- A source of height 1 gives a display height of 0, and `height / display_height` then raises `ZeroDivisionError`, unless the budget is -2·width or less. Such a budget gives a negative display height and so an empty grid; any other negative budget still gives 0 and raises.
- A max value of 0 raises as soon as a pixel is read.
- Width, height and max value are not required to be positive. A display height of 0 raises `ZeroDivisionError`, and only a negative display height gives an empty grid. A height of -1, or a short negative height squeezed into the budget (width 200, height -3), truncates to 0 and raises.
- The heights are truncated, not rounded.

## Model

| member | source | states |
|---|---|---|
| Numbers.TruncDiv | pgm_to_output_loops_conditional.py:38 | `int()` of an exact quotient: its magnitude is ⌊\|a\| / \|b\|⌋ and its sign is the sign of the true quotient, so it is floor division for non-negative operands |
| Numbers.NatToString | pgm_to_output_loops_conditional.py:91 | the decimal text written into `if y == {y}:` is all digits, has no leading zero and reads back as the number |
| Numbers.ParseInt | pgm_to_output_loops_conditional.py:16 | `int()` of a token succeeds exactly on digit groups joined by single underscores, optionally signed, with no limit on the number of digits; the value is the decimal value of the digits, negated after a `-` |
| Text.ReadLine | pgm_to_output_loops_conditional.py:7 | `readline()` splits the bytes into a first line and the rest: the line ends at the first newline, or takes everything when there is none |
| Text.SplitAppend | pgm_to_output_loops_conditional.py:24-25 | splitting on whitespace commutes with concatenation at a whitespace boundary |
| Pgm.SkipComments | pgm_to_output_loops_conditional.py:9-13 | the line the comment loop stops at does not start with `#` (it may be the empty line at end of file), the bytes left are a suffix of the input, and the only failure is a decode error |
| Pgm.SkipCommentsReadsLines | pgm_to_output_loops_conditional.py:9-13 | what the comment loop skips is a run of whole lines that each start with `#`; the line it stops at is the next line of the file after them, and the bytes it leaves are exactly those after that line |
| Pgm.ParseTokens | pgm_to_output_loops_conditional.py:25 | `map(int, tokens)` succeeds exactly when every token parses, and gives one value per token, in order |
| Pgm.ReadPgm | pgm_to_output_loops_conditional.py:3-31 | a malformed header fails with a parse error whatever the magic token is; a readable header fails as unsupported exactly when the magic token is neither P2 nor P5; the size and max value are the header's; for P2 the pixels are the integers of all whitespace-separated tokens after the header, and for P5 the remaining bytes |
| Pgm.ParseTokensAppend | pgm_to_output_loops_conditional.py:24-25 | parsing two token lists in a row succeeds exactly when both succeed, and their values are concatenated |
| Pgm.ReadHeader | pgm_to_output_loops_conditional.py:5-19 | every way the header can fail is a parse error; the magic token has no surrounding whitespace; the bytes left for the pixels are a suffix of the file |
| Pgm.ParseP2 | pgm_to_output_loops_conditional.py:22-25 | the P2 line-by-line loop gives the integers of all whitespace-separated tokens of the remaining bytes, in order, and fails exactly when one of them is not an integer |
| PgmRoundTrip.CommentLinesSkipped | pgm_to_output_loops_conditional.py:9-13 | any number of `#` lines is skipped, and the first other line is returned with exactly the bytes after it |
| PgmRoundTrip.DimensionsRoundTrip | pgm_to_output_loops_conditional.py:16 | the line `"<w> <h>\n"` reads back as (w, h) |
| PgmRoundTrip.ParseDimensionsOfTokens | pgm_to_output_loops_conditional.py:16 | a dimension line of two whitespace-free tokens, with any whitespace around and between them, gives the two tokens' integer values, and fails as a parse error when either is not an integer |
| PgmRoundTrip.HeaderRoundTrip | pgm_to_output_loops_conditional.py:5-19 | a written header with any comments reads back as its magic token, width, height and max value, and leaves exactly the body unread |
| PgmRoundTrip.P2PixelsRoundTrip | pgm_to_output_loops_conditional.py:22-25 | non-negative pixels written one per line are read back unchanged |
| PgmRoundTrip.P2RoundTrip | pgm_to_output_loops_conditional.py:3-31 | a plain PGM written from any non-negative image, with any comments, reads back as that image |
| PgmRoundTrip.P5RoundTrip | pgm_to_output_loops_conditional.py:3-31 | a raw PGM written from any image with byte-sized pixels reads back as that image |
| PgmRoundTrip.PlainAndRawAgree | pgm_to_output_loops_conditional.py:22-27 | the plain and the raw encoding of the same image read back identically |
| PgmRoundTrip.OtherMagicRejected | pgm_to_output_loops_conditional.py:28-29 | a well-formed header with a magic token other than P2 or P5 is rejected as unsupported, naming the token |
| Raster.ResizeForTerminal | pgm_to_output_loops_conditional.py:33-42 | fails exactly when the width is 0; the new width is the budget when the source is wider and the source width otherwise; it never exceeds either; for non-negative height and budget the new height is ⌊budget·height / (2·width)⌋ or ⌊height / 2⌋ |
| Raster.Cell | pgm_to_output_loops_conditional.py:61-73 | for every image and ramp, a cell that succeeds is a ramp character or a space; a sample index past the pixels gives a space; a `ZeroDivisionError` comes only from a max value of 0; a pixel inside the list, non-negative, under a positive max value and a non-empty ramp always gives a ramp character |
| Raster.PyIndex | pgm_to_output_loops_conditional.py:67 | Python indexing succeeds exactly for -len ≤ i < len; a non-negative index is the ordinary one and a negative index i reads element len + i |
| Raster.SampleRow | pgm_to_output_loops_conditional.py:59-73 | the inner loop succeeds exactly when every cell of the row does; it has one character per column, each the cell's value; a failure is the exception of the leftmost failing cell |
| Raster.SampleRows | pgm_to_output_loops_conditional.py:58-74 | the outer loop gives one row per display row, each of display width, every character the value of its cell; a failure is the exception of the first failing cell in row-major order |
| Raster.SampleGrid | pgm_to_output_loops_conditional.py:53-76 | a zero display width or height raises before the loop; otherwise the grid is rectangular with the display size and every character is its cell's value, and a failure is the exception of the first failing cell in row-major order |
| Raster.SampleGridSucceedsIff | pgm_to_output_loops_conditional.py:53-74 | the loop completes exactly when the display size is non-zero and no cell raises |
| Raster.AsciiArray | pgm_to_output_loops_conditional.py:47-76 | a width of 0 raises; for every image, budget and ramp, each row of a returned picture is no wider than the source or the budget, and each character is a ramp character or a space |
| Raster.PgmToAsciiArray | pgm_to_output_loops_conditional.py:44-76 | a file the reader refuses fails with the reader's error before any sampling; a returned picture is the sampling of the image read, its rows fit the budget, and its characters come from the ramp or are spaces |
| RasterProperties.ResizeBounds | pgm_to_output_loops_conditional.py:33-42 | for a positive width the size is (min(width, budget), display height), and the display height is at most half the source height |
| RasterProperties.SourceCoordInRange | pgm_to_output_loops_conditional.py:62-63 | the sampled source coordinate of an output coordinate inside the display lies inside the source |
| RasterProperties.SampleIndexInImage | pgm_to_output_loops_conditional.py:62-64 | the flat index `src_y * width + src_x` of every output cell lies in 0 .. width·height - 1 |
| RasterProperties.RampIndexInRange | pgm_to_output_loops_conditional.py:68-70 | for a non-negative pixel the ramp index is ⌊pixel·(n-1)/max⌋ clamped to n-1, a valid index; pixel 0 maps to index 0 and any pixel ≥ max to n-1 |
| RasterProperties.RampIndexMonotone | pgm_to_output_loops_conditional.py:68-70 | a brighter pixel never maps to an earlier ramp character |
| RasterProperties.ExpectedCell | pgm_to_output_loops_conditional.py:62-73 | the reference character of a cell of a well-formed image, for a non-empty ramp, is a ramp character or a space |
| RasterProperties.CellOfWellFormed | pgm_to_output_loops_conditional.py:62-73 | for a well-formed image and a non-empty ramp, every cell inside the display succeeds with its reference character |
| RasterProperties.AsciiArrayOfWellFormed | pgm_to_output_loops_conditional.py:44-76 | for a well-formed image, a positive budget and a non-empty ramp, the sampling succeeds exactly when the display height is positive and otherwise raises `ZeroDivisionError`; the grid has display-height rows of display-width characters, each the reference character of its cell |
| RasterProperties.GridDrawnFromRamp | pgm_to_output_loops_conditional.py:66-71 | with at least width·height pixels no cell takes the blank fallback: every character comes from the ramp |
| RasterProperties.SingleRowImageFails | pgm_to_output_loops_conditional.py:36-58 | for a source of height 1 and positive width, a budget above -2·width gives display height 0 and a step division raises `ZeroDivisionError`; a budget of -2·width or less gives a negative display height and an empty grid |
| RasterProperties.ZeroMaxValueFails | pgm_to_output_loops_conditional.py:66-68 | with max value 0, the first cell reads pixel 0 and the intensity division raises |
| CodeGen.RowBlock | pgm_to_output_loops_conditional.py:89-110 | a row's lines are its `if`/`elif y` test, then a test and an escaped `return` per column, then `else:` and `return ' '` |
| CodeGen.Blocks | pgm_to_output_loops_conditional.py:89-110 | the row loop succeeds exactly when no row is shorter than the width; otherwise it fails at the first short row; on success it has BlockSize lines per row |
| CodeGen.GenerateLines | pgm_to_output_loops_conditional.py:81-125 | the line list is the header, the row blocks and the fourteen-line footer; it fails exactly when some row is shorter than row 0, naming the first such row |
| CodeGen.GeneratedBlockLine | pgm_to_output_loops_conditional.py:84-110 | line j of row y's block is line 2 + Offset(y) + j of the program |
| CodeGenProperties.GeneratedLineCount | pgm_to_output_loops_conditional.py:84-125 | the program has 2 + height·(3 + 2·width) + 14 lines |
| CodeGen.SplitJoinLines | pgm_to_output_loops_conditional.py:131 | joining newline-free lines with `'\n'` and splitting the text at newlines gives the lines back |
| CodeGen.GenerateIfElseCode | pgm_to_output_loops_conditional.py:78-131 | a text is returned exactly when the line list is built; for a grid of plain cells (no `'\n'`, `'\r'` or NUL), the returned text splits back into exactly the generated line list and holds no NUL or carriage return |
| CodeGenProperties.GeneratedLayout | pgm_to_output_loops_conditional.py:84-125 | every line of the program is where the layout puts it: each row's test, each column's test and return, each `else`, and the footer's range lines |
| GeneratedProgramProperties.UnescapeEscape | pgm_to_output_loops_conditional.py:97-107 | the escaped character between quotes, read back as a Python literal, is the original character |
| GeneratedProgramProperties.RowTestOfBranch | pgm_to_output_loops_conditional.py:90-93 | the test line of row y compares y with exactly that number |
| GeneratedProgramProperties.ColumnTestOfBranch | pgm_to_output_loops_conditional.py:103-106 | the test line of column x compares x with exactly that number |
| GeneratedProgramProperties.ColumnsFrom | pgm_to_output_loops_conditional.py:95-110 | the column chain of row y, entered at column x0, returns the grid's character for x0 ≤ x < width and a space for any other x |
| GeneratedProgramProperties.RowsFrom | pgm_to_output_loops_conditional.py:89-113 | the row chain, entered at row y0, runs row y's column chain for y0 ≤ y < height and returns a space for any other y |
| GeneratedProgramProperties.ColumnChainFrom | pgm_to_output_loops_conditional.py:95-110 | the column chain of a row with at least one column opens with `if x == 0`, continues with `elif`s, gives every test its `return` and ends with an `else` and its `return`, right where the next row begins |
| GeneratedProgramProperties.RowChainFrom | pgm_to_output_loops_conditional.py:89-113 | for a grid with at least one row and a non-empty row 0, the row chain opens with `if y == 0`, continues with `elif`s, each with a well-formed column chain, and ends with the outer `else` and its `return` |
| CodeGen.GenerateCheckedCode | pgm_to_output_loops_conditional.py:84-131 | the corrected generator writes a program exactly when the grid has a row, row 0 is non-empty and no row is shorter than row 0, and then writes what `generate_if_else_code` writes; it reports an empty picture exactly for no rows or an empty row 0 |
| GeneratedProgramProperties.GeneratedProgramReturnsCell | pgm_to_output_loops_conditional.py:84-131 | for a grid of plain cells with at least one row and a non-empty row 0 that the generator accepts, the generated `print_ascii_art` compiles and `print_ascii_art(x, y)` returns `grid[y][x]` inside the grid and `' '` for every other pair of integers |
| GeneratedProgramProperties.ScreenOfCells | pgm_to_output_loops_conditional.py:118-121 | the display loops print each row's first `width` characters followed by a newline, when every call returns its cell |
| GeneratedProgramProperties.LayoutBounds | pgm_to_output_loops_conditional.py:116-119 | in a text with the generated layout, the first `def display_ascii_art():` line is the one after the row chain, and its two `range` lines give the loops the grid's height and the width |
| GeneratedProgramProperties.GeneratedProgramDisplaysGrid | pgm_to_output_loops_conditional.py:84-131 | for the same grids, running `display_ascii_art()` of the generated program prints the grid row by row, each row followed by a newline |
| GeneratedProgramProperties.DegenerateGridProgramRejected | pgm_to_output_loops_conditional.py:84-113 | as written, the generator accepts a grid with no rows or an empty row 0, and the program it writes for it does not compile: neither `print_ascii_art` nor `display_ascii_art` runs |
| GeneratedProgramProperties.CheckedProgramDisplaysGrid | pgm_to_output_loops_conditional.py:81-131 | the corrected generator refuses a plain grid exactly when it has no rows, an empty row 0 or a row shorter than row 0; whatever it writes compiles, returns every cell and a space elsewhere, and displays the grid |
| Pipeline.AsciiGridIsGeneratable | pgm_to_output_loops_conditional.py:57-82 | the grid sampled from a well-formed image, with a positive budget and a non-empty ramp, is always accepted by the corrected generator: it has at least one row, its width min(width, budget) is positive, no row is short, and its cells are plain when the ramp is |
| Pipeline.ConvertedProgramPrintsCell | pgm_to_output_loops_conditional.py:44-131 | for a well-formed image, a positive budget and a non-empty ramp of plain characters, the program generated for the converted image returns each cell's reference character inside the display, and `' '` elsewhere |
| Pipeline.ConvertedProgramDisplaysGrid | pgm_to_output_loops_conditional.py:44-131 | for a well-formed image, a positive budget and a non-empty ramp of plain characters, the program generated for the converted image displays exactly the sampled grid, row by row |
| Pipeline.EmptyPictureReachable | pgm_to_output_loops_conditional.py:33-58 | `int()` reads the header token "-4"; an image 4 wide and -4 high gives display height -2 and an empty grid; the as-written generator writes a program for it that does not run, and the corrected generator refuses it |
| Pipeline.SmallNegativeHeightFails | pgm_to_output_loops_conditional.py:41-54 | a header height of -1, or of -3 at width 200 and budget 80, gives display height 0, so the y-step division raises `ZeroDivisionError` instead of giving an empty grid |
| Pipeline.ConvertFileOfImage | pgm_to_output_loops_conditional.py:44-76 | `pgm_to_ascii_array` on a plain or raw file written from an image, with any comments, gives exactly the conversion of that image |

## Left out

- Opening and reading the file. `read_pgm` takes the file's bytes. The output file write of `generate_if_else_code` is left out, and only its returned text is modelled.
- The `__main__` block: argument defaults, messages, and the handlers that turn exceptions into messages.
- `jpg_to_pgm_converter.py` is not part of this model. It is a thin wrapper over an image library whose behaviour is not visible.
- IEEE floating point. Every quotient is exact before truncation. Python computes `height / width`, `width / display_width`, `height / display_height` and `pixel_val / max_val` as doubles, and the products `x * x_step` and `y * y_step` are doubles too, so rounding can differ at any size. When the exact product is an integer, the double product can land just below it and `int()` then gives one less: for a 164-pixel-wide image at a budget of 80, Python samples source column 122 for output column 60, where the model samples 123. A cell can therefore sample a neighbouring pixel. Large pixel values can likewise round to a different ramp character. A quotient beyond the double range (a height or a P2 pixel of `10**400`, say) raises `OverflowError`, which the model does not have: there it gives an ordinary size or ramp character.
- `int()` also accepts non-ASCII digits and surrounding Unicode whitespace. Tokens here are ASCII, because the reader decodes as ASCII. Every `int()` failure is one `ParseError`, like every other `ValueError` of `read_pgm`.
- Numbers.ParseInt: rejects surrounding whitespace inside a token. Tokens produced by `split()`/`strip()` never carry any, so this does not matter here.
- Numbers.ParseInt: does not model CPython's limit on integer string conversion. Under the default `sys.get_int_max_str_digits()` of 4300, CPython 3.11 and later (and the 3.7-3.10 security releases) raise `ValueError` for a token of more than 4300 digits, where the model parses it. So ReadPgm accepts a header or P2 pixel that long where the source raises a parse error. PgmRoundTrip.P2PixelsRoundTrip, PgmRoundTrip.P2RoundTrip and Pipeline.ConvertFileOfImage hold for Python only when every pixel, and the width, height and max value, has at most 4300 digits. Pixels of a raw (P5) file are bytes and never reach `int()`.
- The evaluator in GeneratedProgram covers only programs of the generated shape. It does not parse Python in general. Its compile check covers the NUL and carriage-return characters and the `if`/`elif`/`else` chains of `print_ascii_art`; the fixed lines are taken as written. It has no limit on how deep the chains go, while CPython refuses source nested too deeply (see the lines below). It reads only `\\` and `\'` escapes, which are the only ones the generator writes. It takes the bodies of the two display loops as the calls they are.
- The output file: `generate_if_else_code` also writes the text to a file in the platform's default encoding. A character that encoding cannot represent would make the write fail; the model returns the text only.
- GeneratedProgramProperties.GeneratedProgramReturnsCell: requires plain cells, none of them `'\n'`, `'\r'` or NUL (PlainCells). Python ends a line at either line break, even inside a quoted literal, and refuses source holding a NUL. The evaluator's compile check rejects such a text; beyond that, the model does not describe what Python would report.
- GeneratedProgramProperties.GeneratedProgramReturnsCell: does not model CPython's limit on nesting. Each row adds one `elif` to the row chain, which CPython's parser and compiler handle by recursion, and a chain of some thousands of rows makes CPython refuse the source. The evaluator has no such limit, so the lemma holds only for pictures short enough to compile.
- GeneratedProgramProperties.GeneratedProgramDisplaysGrid: does not model CPython's nesting limit, as for GeneratedProgramReturnsCell; it holds only for pictures short enough to compile.
- GeneratedProgramProperties.CheckedProgramDisplaysGrid: "compiles" means the evaluator's compile check, which has no nesting limit; a tall picture's program can still be refused by CPython.
- Pipeline.ConvertedProgramDisplaysGrid: inherits the missing nesting limit; a tall image (5000 display rows from an 80×10000 source, say) gives a program CPython may refuse.
- Pipeline.ConvertedProgramPrintsCell: requires a well-formed image (positive width, height and max value, and no negative pixel), a positive budget and a non-empty ramp. A budget of 0 raises, a negative budget either raises or gives an empty grid with no positive display height, and an empty ramp raises `IndexError` at the first pixel read. Other images may raise during sampling, as ZeroMaxValueFails shows, or a negative pixel may index the ramp from its end. That behaviour is modelled by Raster.Cell and not restated here. The lemma also inherits the missing nesting limit of GeneratedProgramReturnsCell.

## Findings

| source | as written | input that shows it | evidently intended | confidence | as-written member | corrected member |
|---|---|---|---|---|---|---|
| pgm_to_output_loops_conditional.py:84-113 | for a grid with no rows, the row chain starts with `    else:` right after the docstring; for an empty row 0, row 0's column chain starts with `        else:`; both are syntax errors, yet the text is returned and written | a P2 header `4 -4` with max value 255: display height -2, empty grid (Pipeline.EmptyPictureReachable) | write a program only for a picture with at least one row and one column, and report an empty picture instead; GeneratedProgramProperties.CheckedProgramDisplaysGrid proves every program written then compiles and displays the picture | high; not executed | GeneratedProgramProperties.DegenerateGridProgramRejected | CodeGen.GenerateCheckedCode |
