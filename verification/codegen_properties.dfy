/**
 * What the program text that generate_if_else_code writes does: split into
 * lines it gives back the generated line list, and its `print_ascii_art(x, y)`
 * returns the grid's character at (x, y) inside the grid and a space outside.
 */
module CodeGenProperties {
  import opened Results
  import opened Numbers
  import opened CodeGen
  import opened GeneratedProgram
  import Raster

  // ---------------------------------------------------------------------
  // Where each kind of line sits
  // ---------------------------------------------------------------------

  /** Every row is long enough for the generator's width. */
  predicate RowsFit(grid: Raster.Grid, width: nat) {
    forall k :: 0 <= k < |grid| ==> width <= |grid[k]|
  }

  /** The test of every row, the tests and returns of every column, and every row's `else` pair. */
  predicate BlockLinesPlaced(grid: Raster.Grid, width: nat, lines: seq<string>)
    requires RowsFit(grid, width)
  {
    && (forall y {:trigger LineOf(y, 0, width)} :: 0 <= y < |grid| ==>
          LineOf(y, 0, width) < |lines| && lines[LineOf(y, 0, width)] == YBranch(y))
    && (forall y {:trigger TestLine(y, width, width)} {:trigger CellLine(y, width, width)} :: 0 <= y < |grid| ==>
          && TestLine(y, width, width) < CellLine(y, width, width) < |lines|
          && lines[TestLine(y, width, width)] == RowElse
          && lines[CellLine(y, width, width)] == RowDefault)
    && (forall y, x {:trigger TestLine(y, x, width)} {:trigger CellLine(y, x, width)} :: 0 <= y < |grid| && 0 <= x < width ==>
          && TestLine(y, x, width) < CellLine(y, x, width) < |lines|
          && lines[TestLine(y, x, width)] == XBranch(x)
          && lines[CellLine(y, x, width)] == ReturnLine(grid[y][x]))
  }

  /** The header lines and the footer lines the generated program's behaviour depends on. */
  predicate EndLinesPlaced(grid: Raster.Grid, width: nat, lines: seq<string>)
    requires |lines| == 16 + Offset(|grid|, width)
  {
    var end := 2 + Offset(|grid|, width);
    && lines[0] == DefLine && lines[1] == DocLine
    && lines[end] == OuterElseLine && lines[end + 1] == OuterDefault
    && lines[end + 2] == "" && lines[end + 3] == ""
    && lines[end + 4] == DisplayDefLine
    && lines[end + 6] == RangeLine(RangeYPrefix, |grid|)
    && lines[end + 7] == RangeLine(RangeXPrefix, width)
  }

  /** The row blocks of generate_if_else_code's line list, for a grid whose rows are at least `width` long. */
  predicate BlockLayout(grid: Raster.Grid, width: nat, lines: seq<string>) {
    && RowsFit(grid, width)
    && |lines| == 16 + Offset(|grid|, width)
    && BlockLinesPlaced(grid, width, lines)
  }

  /** The shape of generate_if_else_code's line list: its row blocks and the lines around them. */
  predicate Layout(grid: Raster.Grid, width: nat, lines: seq<string>) {
    && BlockLayout(grid, width, lines)
    && EndLinesPlaced(grid, width, lines)
  }

  lemma FooterLines(height: nat, width: nat)
    ensures Footer(height, width)[0] == OuterElseLine && Footer(height, width)[1] == OuterDefault
    ensures Footer(height, width)[2] == "" && Footer(height, width)[3] == ""
    ensures Footer(height, width)[4] == DisplayDefLine
    ensures Footer(height, width)[6] == RangeLine(RangeYPrefix, height)
    ensures Footer(height, width)[7] == RangeLine(RangeXPrefix, width)
  {
  }

  lemma GeneratedEndLines(grid: Raster.Grid)
    requires GenerateLines(grid).Ok?
    ensures EndLinesPlaced(grid, GridWidth(grid), GenerateLines(grid).value)
  {
    var lines := GenerateLines(grid).value;
    var end := 2 + Offset(|grid|, GridWidth(grid));
    FooterLines(|grid|, GridWidth(grid));
    assert lines[..2][0] == lines[0] && lines[..2][1] == lines[1];
    forall k | 0 <= k < 14
      ensures lines[end + k] == Footer(|grid|, GridWidth(grid))[k]
    {
      assert lines[end..][k] == lines[end + k];
    }
  }

  lemma GeneratedRowLines(grid: Raster.Grid, y: nat)
    requires GenerateLines(grid).Ok? && y < |grid|
    ensures TestLine(y, GridWidth(grid), GridWidth(grid)) < CellLine(y, GridWidth(grid), GridWidth(grid)) < |GenerateLines(grid).value|
    ensures GenerateLines(grid).value[LineOf(y, 0, GridWidth(grid))] == YBranch(y)
    ensures GenerateLines(grid).value[TestLine(y, GridWidth(grid), GridWidth(grid))] == RowElse
    ensures GenerateLines(grid).value[CellLine(y, GridWidth(grid), GridWidth(grid))] == RowDefault
  {
    var width := GridWidth(grid);
    GeneratedBlockLine(grid, y, 0);
    GeneratedBlockLine(grid, y, 1 + 2 * width);
    GeneratedBlockLine(grid, y, 2 + 2 * width);
  }

  lemma GeneratedCellLines(grid: Raster.Grid, y: nat, x: nat)
    requires GenerateLines(grid).Ok? && y < |grid| && x < GridWidth(grid)
    ensures TestLine(y, x, GridWidth(grid)) < CellLine(y, x, GridWidth(grid)) < |GenerateLines(grid).value|
    ensures GenerateLines(grid).value[TestLine(y, x, GridWidth(grid))] == XBranch(x)
    ensures GenerateLines(grid).value[CellLine(y, x, GridWidth(grid))] == ReturnLine(grid[y][x])
  {
    var width := GridWidth(grid);
    var block := RowBlock(y, grid[y], width);
    GeneratedBlockLine(grid, y, 1 + 2 * x);
    GeneratedBlockLine(grid, y, 2 + 2 * x);
    assert block[1 + 2 * x] == XBranch(x);
    assert block[2 + 2 * x] == ReturnLine(grid[y][x]);
  }

  lemma GeneratedBlockLines(grid: Raster.Grid, lines: seq<string>)
    requires GenerateLines(grid) == Ok(lines)
    requires RowsFit(grid, GridWidth(grid))
    ensures BlockLinesPlaced(grid, GridWidth(grid), lines)
  {
    var width := GridWidth(grid);
    forall y | 0 <= y < |grid|
      ensures LineOf(y, 0, width) < |lines| && lines[LineOf(y, 0, width)] == YBranch(y)
      ensures TestLine(y, width, width) < CellLine(y, width, width) < |lines|
      ensures lines[TestLine(y, width, width)] == RowElse
      ensures lines[CellLine(y, width, width)] == RowDefault
    {
      GeneratedRowLines(grid, y);
    }
    forall y, x | 0 <= y < |grid| && 0 <= x < width
      ensures TestLine(y, x, width) < CellLine(y, x, width) < |lines|
      ensures lines[TestLine(y, x, width)] == XBranch(x)
      ensures lines[CellLine(y, x, width)] == ReturnLine(grid[y][x])
    {
      GeneratedCellLines(grid, y, x);
    }
  }

  /** Every line list generate_if_else_code returns has the layout above, at the width of row 0. */
  lemma GeneratedLayout(grid: Raster.Grid)
    requires GenerateLines(grid).Ok?
    ensures Layout(grid, GridWidth(grid), GenerateLines(grid).value)
  {
    GeneratedBlockLines(grid, GenerateLines(grid).value);
    GeneratedEndLines(grid);
  }

  /** Offset counts whole blocks: n rows take n * (3 + 2 * width) lines. */
  lemma {:induction false} OffsetIsProduct(n: nat, width: nat)
    ensures Offset(n, width) == n * (3 + 2 * width)
  {
    if n > 0 {
      OffsetIsProduct(n - 1, width);
      assert n * (3 + 2 * width) == (3 + 2 * width) + (n - 1) * (3 + 2 * width);
    }
  }

  /**
   * The generated program has two header lines, 3 + 2 * width lines per row
   * and fourteen footer lines.
   */
  lemma GeneratedLineCount(grid: Raster.Grid)
    requires GenerateLines(grid).Ok?
    ensures |GenerateLines(grid).value| == 2 + |grid| * (3 + 2 * GridWidth(grid)) + 14
  {
    OffsetIsProduct(|grid|, GridWidth(grid));
  }
}
