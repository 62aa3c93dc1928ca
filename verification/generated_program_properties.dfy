/**
 * The program generate_if_else_code writes does what its name promises:
 * `print_ascii_art(x, y)` returns the grid's character at column x of row y
 * for every (x, y) inside the grid, and a space for every other pair of
 * integers.
 */
module GeneratedProgramProperties {
  import opened Results
  import opened Numbers
  import opened CodeGen
  import opened GeneratedProgram
  import opened CodeGenProperties
  import Raster

  // ---------------------------------------------------------------------
  // Reading single generated lines
  // ---------------------------------------------------------------------

  lemma BetweenOfNumber(prefix: string, n: nat, suffix: string)
    ensures Between(prefix + NatToString(n) + suffix, prefix, suffix) == Some(n)
  {
    var digits := NatToString(n);
    var line := prefix + digits + suffix;
    assert line[..|prefix|] == prefix;
    assert line[|line| - |suffix|..] == suffix;
    assert line[|prefix|..|line| - |suffix|] == digits;
  }

  /** The test line of row y compares y with y. */
  lemma RowTestOfBranch(y: nat)
    ensures RowTest(YBranch(y)) == Some(y)
  {
    if y == 0 {
      BetweenOfNumber("    if y == ", 0, ":");
    } else {
      var line := YBranch(y);
      assert line[..12] != "    if y == " by {
        assert line[..12][4] == 'e';
      }
      BetweenOfNumber("    elif y == ", y, ":");
    }
  }

  /** The test line of column x compares x with x. */
  lemma ColumnTestOfBranch(x: nat)
    ensures ColumnTest(XBranch(x)) == Some(x)
  {
    if x == 0 {
      BetweenOfNumber("        if x == ", 0, ":");
    } else {
      var line := XBranch(x);
      assert line[..16] != "        if x == " by {
        assert line[..16][8] == 'e';
      }
      BetweenOfNumber("        elif x == ", x, ":");
    }
  }

  /** Every character survives the escaping of the generator and the reading of the literal. */
  lemma UnescapeEscape(c: char)
    ensures Unescape(Escape(c)) == Some(c)
  {
  }

  lemma ReturnLineReturns(c: char)
    ensures ReturnValue(ReturnLine(c), InnerReturn) == Some(c)
  {
    var line := ReturnLine(c);
    assert ReturnPrefix == InnerReturn;
    assert line[..|InnerReturn|] == InnerReturn;
    assert line[|InnerReturn|..|line| - 1] == Escape(c);
    UnescapeEscape(c);
  }

  lemma DefaultLinesReturnSpace()
    ensures ReturnValue(RowDefault, InnerReturn) == Some(' ')
    ensures ReturnValue(OuterDefault, OuterReturn) == Some(' ')
    ensures RowElse == InnerElse && OuterElseLine == OuterElse
  {
    assert RowDefault == InnerReturn + " " + "'";
    assert OuterDefault == OuterReturn + " " + "'";
    assert RowDefault[|InnerReturn|..|RowDefault| - 1] == " ";
    assert OuterDefault[|OuterReturn|..|OuterDefault| - 1] == " ";
  }

  lemma IndentedBy(line: string, n: nat, m: nat)
    requires m <= n <= |line|
    requires forall k :: 0 <= k < n ==> line[k] == ' '
    ensures Indented(line, n) && Indented(line, m)
  {
    assert line[..n] == Spaces(n);
    assert line[..m] == Spaces(m);
  }

  lemma NotIndentedAt(line: string, n: nat, k: nat)
    requires k < n && k < |line| && line[k] != ' '
    ensures !Indented(line, n)
  {
    if n <= |line| {
      assert line[..n][k] != Spaces(n)[k];
    }
  }

  lemma RowTestIndentation(y: nat)
    ensures !Indented(YBranch(y), 8) && !Indented(OuterElseLine, 8)
  {
    NotIndentedAt(YBranch(y), 8, 4);
    NotIndentedAt(OuterElseLine, 8, 4);
  }

  lemma ColumnTestIndentation(x: nat)
    ensures Indented(XBranch(x), 8) && !Indented(XBranch(x), 12)
  {
    IndentedBy(XBranch(x), 8, 8);
    NotIndentedAt(XBranch(x), 12, 8);
  }

  lemma ColumnElseIndentation()
    ensures Indented(RowElse, 8) && !Indented(RowElse, 12)
    ensures Indented(RowDefault, 12) && Indented(RowDefault, 8)
  {
    IndentedBy(RowElse, 8, 8);
    NotIndentedAt(RowElse, 12, 8);
    IndentedBy(RowDefault, 12, 8);
  }

  lemma ReturnLineIndentation(c: char)
    ensures Indented(ReturnLine(c), 12) && Indented(ReturnLine(c), 8)
  {
    IndentedBy(ReturnLine(c), 12, 8);
  }

  /** Which lines sit inside a row's body (indented by 8) and a column's body (indented by 12). */
  lemma Indentation(y: nat, x: nat, c: char)
    ensures !Indented(YBranch(y), 8) && !Indented(OuterElseLine, 8)
    ensures Indented(XBranch(x), 8) && !Indented(XBranch(x), 12)
    ensures Indented(RowElse, 8) && !Indented(RowElse, 12)
    ensures Indented(ReturnLine(c), 12) && Indented(ReturnLine(c), 8)
    ensures Indented(RowDefault, 12) && Indented(RowDefault, 8)
  {
    RowTestIndentation(y);
    ColumnTestIndentation(x);
    ColumnElseIndentation();
    ReturnLineIndentation(c);
  }

  // ---------------------------------------------------------------------
  // Skipping block bodies
  // ---------------------------------------------------------------------

  /** Skipping a block body: the first line at or after i that is not indented by n. */
  lemma {:induction false} SkipIndented(lines: seq<string>, i: nat, m: nat, n: nat)
    requires i + m < |lines|
    requires forall k :: i <= k < i + m ==> Indented(lines[k], n)
    requires !Indented(lines[i + m], n)
    ensures SkipBlock(lines, i, n) == i + m
    decreases m
  {
    if 0 < m {
      SkipIndented(lines, i + 1, m - 1, n);
    }
  }

  /** Every line of row y's block after its test is part of the row's body. */
  lemma RowBodyIndented(grid: Raster.Grid, width: nat, lines: seq<string>, y: nat, j: nat)
    requires BlockLayout(grid, width, lines) && y < |grid|
    requires 1 <= j < BlockSize(width)
    ensures LineOf(y, j, width) < |lines|
    ensures Indented(lines[LineOf(y, j, width)], 8)
  {
    var x := (j - 1) / 2;
    if j == 1 + 2 * x {
      assert LineOf(y, j, width) == TestLine(y, x, width);
      if x < width {
        Indentation(y, x, grid[y][x]);
      } else {
        Indentation(y, x, ' ');
      }
    } else {
      assert LineOf(y, j, width) == CellLine(y, x, width);
      if x < width {
        Indentation(y, x, grid[y][x]);
      } else {
        Indentation(y, x, ' ');
      }
    }
  }

  /** Skipping the body of row y lands on the test of row y + 1, or on the final `else`. */
  lemma SkipRowBody(grid: Raster.Grid, width: nat, lines: seq<string>, y: nat)
    requires Layout(grid, width, lines) && y < |grid|
    ensures SkipBlock(lines, LineOf(y, 1, width), 8) == LineOf(y + 1, 0, width)
  {
    var i, next := LineOf(y, 1, width), LineOf(y + 1, 0, width);
    RowBodyLinesIndented(grid, width, lines, y);
    NextRowNotIndented(grid, width, lines, y);
    SkipIndented(lines, i, next - i, 8);
  }

  /** The lines from row y's first column test up to row y + 1's test are all inside row y's branch. */
  lemma RowBodyLinesIndented(grid: Raster.Grid, width: nat, lines: seq<string>, y: nat)
    requires BlockLayout(grid, width, lines) && y < |grid|
    ensures LineOf(y, 1, width) < LineOf(y + 1, 0, width) < |lines|
    ensures forall k :: LineOf(y, 1, width) <= k < LineOf(y + 1, 0, width) ==> Indented(lines[k], 8)
  {
    var i := LineOf(y, 1, width);
    assert i + BlockSize(width) - 1 == LineOf(y + 1, 0, width);
    forall k | i <= k < LineOf(y + 1, 0, width)
      ensures Indented(lines[k], 8)
    {
      RowBodyIndented(grid, width, lines, y, k - i + 1);
      assert LineOf(y, k - i + 1, width) == k;
    }
  }

  /** The line after row y's block, the next row's test or the outer `else`, is not inside a row branch. */
  lemma NextRowNotIndented(grid: Raster.Grid, width: nat, lines: seq<string>, y: nat)
    requires Layout(grid, width, lines) && y < |grid|
    ensures LineOf(y + 1, 0, width) < |lines| && !Indented(lines[LineOf(y + 1, 0, width)], 8)
  {
    Indentation(y + 1, 0, ' ');
  }

  // ---------------------------------------------------------------------
  // The chains have the shape Python compiles
  // ---------------------------------------------------------------------

  /** The test line of column x is an `if` for column 0 and an `elif` after it. */
  lemma ColumnTestForm(x: nat)
    ensures Between(XBranch(x), if x == 0 then ColumnIf else ColumnElif, ":") == Some(x)
    ensures XBranch(x) != InnerElse
  {
    BetweenOfNumber(if x == 0 then ColumnIf else ColumnElif, x, ":");
    XBranchIsNotElse(x);
  }

  /** The test line of row y is an `if` for row 0 and an `elif` after it. */
  lemma RowTestForm(y: nat)
    ensures Between(YBranch(y), if y == 0 then RowIf else RowElif, ":") == Some(y)
    ensures YBranch(y) != OuterElse
  {
    BetweenOfNumber(if y == 0 then RowIf else RowElif, y, ":");
    assert |YBranch(y)| != |OuterElse|;
  }

  /** A column test followed by its `return` continues the column chain two lines on. */
  lemma ColumnChainStep(lines: seq<string>, i: nat, x: nat, c: char)
    requires i + 1 < |lines| && lines[i] == XBranch(x) && lines[i + 1] == ReturnLine(c)
    ensures ColumnChainEnd(lines, i, x == 0) == ColumnChainEnd(lines, i + 2, false)
  {
    ColumnTestForm(x);
    ReturnLineReturns(c);
  }

  /** The `else` pair after at least one column test closes the column chain. */
  lemma ColumnChainLast(lines: seq<string>, i: nat)
    requires i + 1 < |lines| && lines[i] == RowElse && lines[i + 1] == RowDefault
    ensures ColumnChainEnd(lines, i, false) == Some(i + 2)
  {
    DefaultLinesReturnSpace();
  }

  /**
   * The column lines of one row, from line i on: column x's test and its
   * `return` at i + 2x and i + 2x + 1, then the `else` pair.
   */
  predicate ColumnsPlaced(lines: seq<string>, i: nat, row: seq<char>, width: nat) {
    && width <= |row| && i + 2 * width + 1 < |lines|
    && (forall x {:trigger PairStart(i, x)} :: 0 <= x < width ==>
          lines[PairStart(i, x)] == XBranch(x) && lines[PairStart(i, x) + 1] == ReturnLine(row[x]))
    && lines[i + 2 * width] == RowElse && lines[i + 2 * width + 1] == RowDefault
  }

  /** The line of column x's test in a column chain that starts at line i. */
  function PairStart(i: nat, x: nat): nat {
    i + 2 * x
  }

  lemma BlockColumnsPlaced(grid: Raster.Grid, width: nat, lines: seq<string>, y: nat)
    requires BlockLayout(grid, width, lines) && y < |grid|
    ensures ColumnsPlaced(lines, TestLine(y, 0, width), grid[y], width)
  {
    var i, row := TestLine(y, 0, width), grid[y];
    assert width <= |row|;
    ColumnPairAt(grid, width, lines, y, width);
    forall x | 0 <= x < width
      ensures lines[PairStart(i, x)] == XBranch(x) && lines[PairStart(i, x) + 1] == ReturnLine(row[x])
    {
      ColumnPairAt(grid, width, lines, y, x);
    }
  }

  /** Column x's pair of lines in row y's block, or the row's `else` pair when x is the width. */
  lemma ColumnPairAt(grid: Raster.Grid, width: nat, lines: seq<string>, y: nat, x: nat)
    requires BlockLayout(grid, width, lines) && y < |grid| && x <= width
    ensures TestLine(y, 0, width) + 2 * x + 1 < |lines|
    ensures x < width ==>
      && lines[TestLine(y, 0, width) + 2 * x] == XBranch(x)
      && lines[TestLine(y, 0, width) + 2 * x + 1] == ReturnLine(grid[y][x])
    ensures x == width ==>
      && lines[TestLine(y, 0, width) + 2 * x] == RowElse
      && lines[TestLine(y, 0, width) + 2 * x + 1] == RowDefault
  {
    assert TestLine(y, x, width) == TestLine(y, 0, width) + 2 * x;
    assert CellLine(y, x, width) == TestLine(y, 0, width) + 2 * x + 1;
  }

  /** The line after column x0's pair is another test or the `else`, neither inside a branch body. */
  lemma NextColumnLine(lines: seq<string>, i: nat, row: seq<char>, width: nat, x0: nat)
    requires ColumnsPlaced(lines, i, row, width) && x0 < width
    ensures x0 < |row| && i + 2 * x0 + 2 < |lines|
    ensures lines[i + 2 * x0] == XBranch(x0) && lines[i + 2 * x0 + 1] == ReturnLine(row[x0])
    ensures !Indented(lines[i + 2 * x0 + 2], 12)
  {
    assert PairStart(i, x0) == i + 2 * x0;
    if x0 + 1 < width {
      assert PairStart(i, x0 + 1) == i + 2 * x0 + 2;
      ColumnTestIndentation(x0 + 1);
    } else {
      ColumnElseIndentation();
    }
  }

  /** A column chain placed at line i, from column x0's test on, is well shaped and ends after its `else` pair. */
  lemma {:induction false} ColumnChainOf(lines: seq<string>, i: nat, row: seq<char>, width: nat, x0: nat)
    requires ColumnsPlaced(lines, i, row, width) && x0 <= width && 0 < width
    ensures ColumnChainEnd(lines, i + 2 * x0, x0 == 0) == Some(i + 2 * width + 2)
    decreases width - x0
  {
    var j := i + 2 * x0;
    if x0 == width {
      ColumnChainLast(lines, j);
    } else {
      assert i + 2 * (x0 + 1) == j + 2;
      NextColumnLine(lines, i, row, width, x0);
      ColumnChainStep(lines, j, x0, row[x0]);
      ColumnChainOf(lines, i, row, width, x0 + 1);
    }
  }

  /** A column chain placed at line i with at least one column is well shaped and ends after its `else` pair. */
  lemma PlacedColumnChain(lines: seq<string>, i: nat, row: seq<char>, width: nat)
    requires ColumnsPlaced(lines, i, row, width) && 0 < width
    ensures ColumnChainEnd(lines, i, true) == Some(i + 2 * width + 2)
  {
    ColumnChainOf(lines, i, row, width, 0);
    assert i + 2 * 0 == i;
  }

  /** Row y + 1 starts right after the `else` pair of row y's column chain. */
  lemma NextRowAfterColumns(y: nat, width: nat)
    ensures TestLine(y, 0, width) + 2 * width + 2 == LineOf(y + 1, 0, width)
  {
  }

  /** Row y's column chain is well shaped and ends where row y + 1 begins. */
  lemma ColumnChainFrom(grid: Raster.Grid, width: nat, lines: seq<string>, y: nat)
    requires BlockLayout(grid, width, lines) && y < |grid| && 0 < width
    ensures ColumnChainEnd(lines, TestLine(y, 0, width), true) == Some(LineOf(y + 1, 0, width))
  {
    NextRowAfterColumns(y, width);
    BlockColumnsPlaced(grid, width, lines, y);
    PlacedColumnChain(lines, TestLine(y, 0, width), grid[y], width);
  }

  /** A row test followed by a well-shaped column chain continues the row chain after that chain. */
  lemma RowChainStep(lines: seq<string>, i: nat, y: nat, next: nat)
    requires i + 1 < |lines| && lines[i] == YBranch(y) && ColumnChainEnd(lines, i + 1, true) == Some(next)
    ensures RowChainEnd(lines, i, y == 0) == RowChainEnd(lines, next, false)
  {
    RowTestForm(y);
  }

  /** The outer `else` pair after at least one row test closes the row chain. */
  lemma RowChainLast(lines: seq<string>, i: nat)
    requires i + 1 < |lines| && lines[i] == OuterElseLine && lines[i + 1] == OuterDefault
    ensures RowChainEnd(lines, i, false) == Some(i + 2)
  {
    DefaultLinesReturnSpace();
  }

  /** Row y's test and column chain hand the row chain on to row y + 1's test. */
  lemma RowChainAt(grid: Raster.Grid, width: nat, lines: seq<string>, y: nat)
    requires Layout(grid, width, lines) && y < |grid| && 0 < width
    ensures RowChainEnd(lines, LineOf(y, 0, width), y == 0) == RowChainEnd(lines, LineOf(y + 1, 0, width), false)
  {
    var i := LineOf(y, 0, width);
    assert TestLine(y, 0, width) == i + 1;
    ColumnChainFrom(grid, width, lines, y);
    RowChainStep(lines, i, y, LineOf(y + 1, 0, width));
  }

  /** Each of the first n row tests hands the row chain on to the next. */
  predicate RowsChained(lines: seq<string>, n: nat, width: nat) {
    forall y :: 0 <= y < n ==>
      RowChainEnd(lines, LineOf(y, 0, width), y == 0) == RowChainEnd(lines, LineOf(y + 1, 0, width), false)
  }

  /** A chain of n row tests followed by a closing `else` ends where that `else` pair ends. */
  lemma {:induction false} RowChainOf(lines: seq<string>, n: nat, width: nat, y0: nat, end: nat)
    requires RowsChained(lines, n, width) && 0 < n && y0 <= n
    requires RowChainEnd(lines, LineOf(n, 0, width), false) == Some(end)
    ensures RowChainEnd(lines, LineOf(y0, 0, width), y0 == 0) == Some(end)
    decreases n - y0
  {
    if y0 < n {
      RowChainOf(lines, n, width, y0 + 1, end);
    }
  }

  /** The row chain, from row y0's test on, is well shaped and ends after the final `else` pair. */
  lemma RowChainFrom(grid: Raster.Grid, width: nat, lines: seq<string>, y0: nat)
    requires Layout(grid, width, lines) && y0 <= |grid| && 0 < |grid| && 0 < width
    ensures RowChainEnd(lines, LineOf(y0, 0, width), y0 == 0) == Some(LineOf(|grid|, 0, width) + 2)
  {
    forall y | 0 <= y < |grid|
      ensures RowChainEnd(lines, LineOf(y, 0, width), y == 0) == RowChainEnd(lines, LineOf(y + 1, 0, width), false)
    {
      RowChainAt(grid, width, lines, y);
    }
    var end := LineOf(|grid|, 0, width);
    RowChainLast(lines, end);
    RowChainOf(lines, |grid|, width, y0, end + 2);
  }

  /** A text with the generated layout for a non-empty grid with a non-empty row 0 compiles. */
  lemma LayoutCompiles(code: string, grid: Raster.Grid, width: nat, lines: seq<string>)
    requires SplitLines(code) == lines && Layout(grid, width, lines)
    requires 0 < |grid| && 0 < width && '\0' !in code && '\r' !in code
    ensures PrintDefinitionCompiles(lines, code)
  {
    assert LineOf(0, 0, width) == 2;
    RowChainFrom(grid, width, lines, 0);
    assert DefLine == PrintDef;
  }

  // ---------------------------------------------------------------------
  // Evaluating the chains
  // ---------------------------------------------------------------------

  /** A column test: the matching column returns its character, any other goes on two lines down. */
  lemma ColumnTestStep(lines: seq<string>, i: nat, x0: nat, c: char, x: int)
    requires i + 2 < |lines| && lines[i] == XBranch(x0) && lines[i + 1] == ReturnLine(c)
    requires !Indented(lines[i + 2], 12)
    ensures EvalColumns(lines, i, x) == if x == x0 then Some(c) else EvalColumns(lines, i + 2, x)
  {
    ColumnTestOfBranch(x0);
    XBranchIsNotElse(x0);
    if x == x0 {
      ReturnLineReturns(c);
    } else {
      ReturnLineIndentation(c);
      SkipIndented(lines, i + 1, 1, 12);
    }
  }

  lemma XBranchIsNotElse(x0: nat)
    ensures XBranch(x0) != InnerElse
  {
    assert |XBranch(x0)| != |InnerElse|;
  }

  lemma ColumnElseStep(lines: seq<string>, i: nat, x: int)
    requires i + 1 < |lines| && lines[i] == RowElse && lines[i + 1] == RowDefault
    ensures EvalColumns(lines, i, x) == Some(' ')
  {
    DefaultLinesReturnSpace();
  }

  /** A row test: the matching row enters its column chain, any other skips the row's body. */
  lemma RowTestStep(lines: seq<string>, i: nat, y0: nat, x: int, y: int)
    requires i < |lines| && lines[i] == YBranch(y0)
    ensures EvalRows(lines, i, x, y)
      == if y == y0 then EvalColumns(lines, i + 1, x) else EvalRows(lines, SkipBlock(lines, i + 1, 8), x, y)
  {
    RowTestOfBranch(y0);
    assert |YBranch(y0)| != |OuterElse|;
  }

  lemma RowElseStep(lines: seq<string>, i: nat, x: int, y: int)
    requires i + 1 < |lines| && lines[i] == OuterElseLine && lines[i + 1] == OuterDefault
    ensures EvalRows(lines, i, x, y) == Some(' ')
  {
    DefaultLinesReturnSpace();
  }

  /**
   * What each test of a column chain placed at line i does for column x:
   * column k's test answers row[k] when x == k and otherwise hands on to
   * the next test, and the `else` answers a space.
   */
  predicate ColumnAnswers(lines: seq<string>, i: nat, row: seq<char>, width: nat, x: int) {
    && width <= |row|
    && (forall k {:trigger PairStart(i, k)} :: 0 <= k < width ==>
          EvalColumns(lines, PairStart(i, k), x) == if x == k then Some(row[k]) else EvalColumns(lines, PairStart(i, k) + 2, x))
    && EvalColumns(lines, PairStart(i, width), x) == Some(' ')
  }

  /** Every test of a placed column chain answers its own column and hands the others on. */
  lemma PlacedColumnsAnswer(lines: seq<string>, i: nat, row: seq<char>, width: nat, x: int)
    requires ColumnsPlaced(lines, i, row, width)
    ensures ColumnAnswers(lines, i, row, width, x)
  {
    forall k | 0 <= k < width
      ensures EvalColumns(lines, PairStart(i, k), x) == if x == k then Some(row[k]) else EvalColumns(lines, PairStart(i, k) + 2, x)
    {
      var j := PairStart(i, k);
      assert j == i + 2 * k;
      NextColumnLine(lines, i, row, width, k);
      ColumnTestStep(lines, j, k, row[k], x);
    }
    ColumnElseStep(lines, i + 2 * width, x);
  }

  /** The column chain at line i, entered at column x0's test, answers row[x] for x0 <= x < width and a space otherwise. */
  lemma {:induction false} ColumnsOf(lines: seq<string>, i: nat, row: seq<char>, width: nat, x0: nat, x: int)
    requires ColumnAnswers(lines, i, row, width, x) && x0 <= width
    ensures EvalColumns(lines, i + 2 * x0, x) == Some(if x0 <= x < width then row[x] else ' ')
    decreases width - x0
  {
    assert PairStart(i, x0) == i + 2 * x0;
    if x0 < width && x != x0 {
      ColumnsOf(lines, i, row, width, x0 + 1, x);
      assert i + 2 * (x0 + 1) == i + 2 * x0 + 2;
      assert (x0 + 1 <= x < width) == (x0 <= x < width);
    }
  }

  /** The column chain of row y, entered at column x0's test. */
  lemma ColumnsFrom(grid: Raster.Grid, width: nat, lines: seq<string>, y: nat, x0: nat, x: int)
    requires BlockLayout(grid, width, lines) && y < |grid| && x0 <= width
    ensures EvalColumns(lines, TestLine(y, x0, width), x) == Some(if x0 <= x < width then grid[y][x] else ' ')
  {
    var i := TestLine(y, 0, width);
    assert TestLine(y, x0, width) == i + 2 * x0;
    BlockColumnsPlaced(grid, width, lines, y);
    PlacedColumnsAnswer(lines, i, grid[y], width, x);
    ColumnsOf(lines, i, grid[y], width, x0, x);
  }

  /** The final `else` of the row chain returns a space. */
  lemma RowsEnd(grid: Raster.Grid, width: nat, lines: seq<string>, x: int, y: int)
    requires |lines| == 16 + Offset(|grid|, width) && EndLinesPlaced(grid, width, lines)
    ensures EvalRows(lines, LineOf(|grid|, 0, width), x, y) == Some(' ')
  {
    RowElseStep(lines, LineOf(|grid|, 0, width), x, y);
  }

  /** Row y0's test: row y0 runs its column chain, any other row goes on to the next test. */
  lemma RowStep(grid: Raster.Grid, width: nat, lines: seq<string>, y0: nat, x: int, y: int)
    requires Layout(grid, width, lines) && y0 < |grid|
    ensures EvalRows(lines, LineOf(y0, 0, width), x, y)
      == if y == y0 then Some(if 0 <= x < width then grid[y][x] else ' ')
         else EvalRows(lines, LineOf(y0 + 1, 0, width), x, y)
  {
    if y == y0 {
      RowTestHit(grid, width, lines, y0, x);
    } else {
      RowTestMiss(grid, width, lines, y0, x, y);
    }
  }

  /** Row y0's test, for y == y0, enters row y0's column chain. */
  lemma RowTestHit(grid: Raster.Grid, width: nat, lines: seq<string>, y0: nat, x: int)
    requires Layout(grid, width, lines) && y0 < |grid|
    ensures EvalRows(lines, LineOf(y0, 0, width), x, y0) == Some(if 0 <= x < width then grid[y0][x] else ' ')
  {
    var i := LineOf(y0, 0, width);
    RowTestLine(grid, width, lines, y0);
    assert TestLine(y0, 0, width) == i + 1;
    ColumnsFrom(grid, width, lines, y0, 0, x);
    RowHit(lines, i, y0, x, if 0 <= x < width then grid[y0][x] else ' ');
  }

  /** Row y's test line, read off the layout. */
  lemma RowTestLine(grid: Raster.Grid, width: nat, lines: seq<string>, y: nat)
    requires BlockLayout(grid, width, lines) && y < |grid|
    ensures LineOf(y, 0, width) < |lines| && lines[LineOf(y, 0, width)] == YBranch(y)
  {
  }

  /** A row test whose number matches answers what its column chain answers. */
  lemma RowHit(lines: seq<string>, i: nat, y0: nat, x: int, c: char)
    requires i < |lines| && lines[i] == YBranch(y0) && EvalColumns(lines, i + 1, x) == Some(c)
    ensures EvalRows(lines, i, x, y0) == Some(c)
  {
    RowTestStep(lines, i, y0, x, y0);
  }

  /** Row y0's test, for any other y, skips row y0's body. */
  lemma RowTestMiss(grid: Raster.Grid, width: nat, lines: seq<string>, y0: nat, x: int, y: int)
    requires Layout(grid, width, lines) && y0 < |grid| && y != y0
    ensures EvalRows(lines, LineOf(y0, 0, width), x, y) == EvalRows(lines, LineOf(y0 + 1, 0, width), x, y)
  {
    RowTestStep(lines, LineOf(y0, 0, width), y0, x, y);
    SkipRowBody(grid, width, lines, y0);
  }

  /** The row chain, entered at row y0's test. */
  lemma {:induction false} RowsFrom(grid: Raster.Grid, width: nat, lines: seq<string>, y0: nat, x: int, y: int)
    requires Layout(grid, width, lines) && y0 <= |grid|
    ensures EvalRows(lines, LineOf(y0, 0, width), x, y)
      == Some(if y0 <= y < |grid| && 0 <= x < width then grid[y][x] else ' ')
    decreases |grid| - y0
  {
    if y0 == |grid| {
      RowsEnd(grid, width, lines, x, y);
    } else {
      RowStep(grid, width, lines, y0, x, y);
      if y != y0 {
        RowsFrom(grid, width, lines, y0 + 1, x, y);
      }
    }
  }

  /** What GenerateIfElseCode promises for a grid of plain cells, as one step of the proofs below. */
  lemma TextOfGrid(grid: Raster.Grid)
    requires GenerateLines(grid).Ok? && PlainCells(grid)
    ensures GenerateIfElseCode(grid).Ok?
    ensures SplitLines(GenerateIfElseCode(grid).value) == GenerateLines(grid).value
    ensures '\0' !in GenerateIfElseCode(grid).value && '\r' !in GenerateIfElseCode(grid).value
  {
  }

  /**
   * For a grid with at least one row, a non-empty row 0 and plain cells, the
   * generated `print_ascii_art(x, y)` compiles and returns row y's character
   * at column x inside the grid, and a space for any other integers x and y.
   */
  lemma GeneratedProgramReturnsCell(grid: Raster.Grid, x: int, y: int)
    requires GenerateLines(grid).Ok? && PlainCells(grid) && 0 < |grid| && 0 < GridWidth(grid)
    ensures GenerateIfElseCode(grid).Ok?
    ensures PrintAsciiArt(GenerateIfElseCode(grid).value, x, y)
      == Some(if 0 <= y < |grid| && 0 <= x < GridWidth(grid) then grid[y][x] else ' ')
  {
    var code, lines := GenerateIfElseCode(grid).value, GenerateLines(grid).value;
    TextOfGrid(grid);
    GeneratedLayout(grid);
    LayoutCompiles(code, grid, GridWidth(grid), lines);
    PrintFromLayout(code, grid, GridWidth(grid), lines, x, y);
  }

  /** `print_ascii_art(x, y)` of a text whose lines have the generated layout. */
  lemma PrintFromLayout(code: string, grid: Raster.Grid, width: nat, lines: seq<string>, x: int, y: int)
    requires SplitLines(code) == lines && Layout(grid, width, lines) && PrintDefinitionCompiles(lines, code)
    ensures PrintAsciiArt(code, x, y) == Some(if 0 <= y < |grid| && 0 <= x < width then grid[y][x] else ' ')
  {
    assert LineOf(0, 0, width) == 2;
    RowsFrom(grid, width, lines, 0, x, y);
  }

  // ---------------------------------------------------------------------
  // display_ascii_art
  // ---------------------------------------------------------------------

  /** The grid as display_ascii_art draws it: each of the first `height` rows cut to `width` characters and ended by a newline. */
  function Picture(grid: Raster.Grid, height: nat, width: nat): string
    requires height <= |grid| && forall k :: 0 <= k < |grid| ==> width <= |grid[k]|
  {
    if height == 0 then "" else Picture(grid, height - 1, width) + grid[height - 1][..width] + "\n"
  }

  /** Where line i of the row blocks sits: line j of row y's block. */
  lemma {:induction false} Locate(n: nat, width: nat, i: nat) returns (y: nat, j: nat)
    requires i < Offset(n, width)
    ensures y < n && j < BlockSize(width) && i == Offset(y, width) + j
    decreases n
  {
    if i < Offset(n - 1, width) {
      y, j := Locate(n - 1, width, i);
    } else {
      y, j := n - 1, i - Offset(n - 1, width);
    }
  }

  lemma NotDisplayDef(line: string)
    requires (0 < |line| && line[0] == ' ') || |line| != |DisplayDef|
    ensures line != DisplayDef
  {
    assert DisplayDef[0] == 'd';
  }

  lemma HeaderNotDisplayDef()
    ensures DefLine != DisplayDef && DocLine != DisplayDef
  {
    assert |DefLine| != |DisplayDef|;
    assert DocLine[0] == ' ';
    NotDisplayDef(DocLine);
  }

  lemma FooterHeadNotDisplayDef()
    ensures OuterElseLine != DisplayDef && OuterDefault != DisplayDef && "" != DisplayDef
  {
    NotDisplayDef(OuterElseLine);
    NotDisplayDef(OuterDefault);
    NotDisplayDef("");
  }

  lemma YBranchNotDisplayDef(y: nat)
    ensures YBranch(y) != DisplayDef
  {
    assert YBranch(y)[0] == ' ';
    NotDisplayDef(YBranch(y));
  }

  /** Every line of a row block is indented, so none is `def display_ascii_art():`. */
  lemma BlockLineNotDisplayDef(grid: Raster.Grid, width: nat, lines: seq<string>, y: nat, j: nat)
    requires BlockLayout(grid, width, lines) && y < |grid| && j < BlockSize(width)
    ensures LineOf(y, j, width) < |lines| && lines[LineOf(y, j, width)] != DisplayDef
  {
    if j == 0 {
      YBranchNotDisplayDef(y);
    } else {
      RowBodyIndented(grid, width, lines, y, j);
      var line := lines[LineOf(y, j, width)];
      assert line[..8][0] == ' ';
      NotDisplayDef(line);
    }
  }

  lemma FooterHeadAt(grid: Raster.Grid, width: nat, lines: seq<string>, k: nat)
    requires |lines| == 16 + Offset(|grid|, width) && EndLinesPlaced(grid, width, lines)
    requires 2 + Offset(|grid|, width) <= k < 6 + Offset(|grid|, width)
    ensures lines[k] != DisplayDef
  {
    FooterHeadNotDisplayDef();
    var i := k - (2 + Offset(|grid|, width));
    if i == 0 {
      assert lines[k] == OuterElseLine;
    } else if i == 1 {
      assert lines[k] == OuterDefault;
    } else {
      assert lines[k] == "";
    }
  }

  /** No line before the footer's `def display_ascii_art():` is that line. */
  lemma NotDisplayDefBefore(grid: Raster.Grid, width: nat, lines: seq<string>, k: nat)
    requires Layout(grid, width, lines) && k < 6 + Offset(|grid|, width)
    ensures lines[k] != DisplayDef
  {
    if k < 2 {
      HeaderNotDisplayDef();
    } else if k < 2 + Offset(|grid|, width) {
      var y, j := Locate(|grid|, width, k - 2);
      BlockLineNotDisplayDef(grid, width, lines, y, j);
      assert k == LineOf(y, j, width);
    } else {
      FooterHeadAt(grid, width, lines, k);
    }
  }

  /** The first line equal to `def display_ascii_art():` is the footer's. */
  lemma DisplayDefIsFound(grid: Raster.Grid, width: nat, lines: seq<string>)
    requires Layout(grid, width, lines)
    ensures FindLine(lines, DisplayDef, 0) == 6 + Offset(|grid|, width)
  {
    var d := 6 + Offset(|grid|, width);
    forall k | 0 <= k < d
      ensures lines[k] != DisplayDef
    {
      NotDisplayDefBefore(grid, width, lines, k);
    }
    assert DisplayDefLine == DisplayDef;
    assert lines[d] == DisplayDef;
  }

  /** display_ascii_art() finds its bounds on the two lines after its `def` line. */
  lemma BoundsFound(lines: seq<string>, d: nat, height: nat, width: nat)
    requires d + 3 < |lines|
    requires Between(lines[d + 2], RangeY, "):") == Some(height)
    requires Between(lines[d + 3], RangeX, "):") == Some(width)
    ensures BoundsAfter(lines, d) == Some((height, width))
  {
  }

  lemma RangeLinesRead(height: nat, width: nat)
    ensures Between(RangeLine(RangeYPrefix, height), RangeY, "):") == Some(height)
    ensures Between(RangeLine(RangeXPrefix, width), RangeX, "):") == Some(width)
  {
    assert RangeYPrefix == RangeY;
    assert RangeXPrefix == RangeX;
    BetweenOfNumber(RangeY, height, "):");
    BetweenOfNumber(RangeX, width, "):");
  }

  /** The inner loop prints row y's first `width` characters when every call returns its cell. */
  lemma {:induction false} RowTextOfCells(code: string, grid: Raster.Grid, y: nat, width: nat)
    requires y < |grid| && width <= |grid[y]|
    requires forall x :: 0 <= x < width ==> PrintAsciiArt(code, x, y) == Some(grid[y][x])
    ensures RowText(code, y, width) == Some(grid[y][..width])
    decreases width
  {
    if 0 < width {
      RowTextOfCells(code, grid, y, width - 1);
      assert grid[y][..width] == grid[y][..width - 1] + [grid[y][width - 1]];
    }
  }

  /** The outer loop prints the first `height` rows, each ended by a newline, when every call returns its cell. */
  lemma {:induction false} ScreenOfCells(code: string, grid: Raster.Grid, height: nat, width: nat)
    requires height <= |grid| && forall k :: 0 <= k < |grid| ==> width <= |grid[k]|
    requires forall y, x :: 0 <= y < height && 0 <= x < width ==> PrintAsciiArt(code, x, y) == Some(grid[y][x])
    ensures Screen(code, height, width) == Some(Picture(grid, height, width))
    decreases height
  {
    if 0 < height {
      ScreenOfCells(code, grid, height - 1, width);
      RowTextOfCells(code, grid, height - 1, width);
    }
  }

  /** display_ascii_art() of the generated layout loops over the grid's height and the width. */
  lemma LayoutBounds(grid: Raster.Grid, width: nat, lines: seq<string>)
    requires Layout(grid, width, lines)
    ensures DisplayBounds(lines) == Some((|grid|, width))
  {
    DisplayDefIsFound(grid, width, lines);
    RangeLinesRead(|grid|, width);
    BoundsFound(lines, 6 + Offset(|grid|, width), |grid|, width);
  }

  /** Every cell of the grid, inside the width, is what print_ascii_art returns for it. */
  lemma CellsFromLayout(code: string, grid: Raster.Grid, width: nat, lines: seq<string>)
    requires SplitLines(code) == lines && Layout(grid, width, lines) && PrintDefinitionCompiles(lines, code)
    ensures forall k :: 0 <= k < |grid| ==> width <= |grid[k]|
    ensures forall y, x :: 0 <= y < |grid| && 0 <= x < width ==> PrintAsciiArt(code, x, y) == Some(grid[y][x])
  {
    forall y, x | 0 <= y < |grid| && 0 <= x < width
      ensures PrintAsciiArt(code, x, y) == Some(grid[y][x])
    {
      PrintFromLayout(code, grid, width, lines, x, y);
    }
  }

  /** display_ascii_art() of a text whose lines have the generated layout. */
  lemma DisplayFromLayout(code: string, grid: Raster.Grid, width: nat, lines: seq<string>)
    requires SplitLines(code) == lines && Layout(grid, width, lines) && PrintDefinitionCompiles(lines, code)
    ensures DisplayAsciiArt(code) == Some(Picture(grid, |grid|, width))
  {
    LayoutBounds(grid, width, lines);
    CellsFromLayout(code, grid, width, lines);
    ScreenOfCells(code, grid, |grid|, width);
  }

  /**
   * For a grid with at least one row, a non-empty row 0 and plain cells,
   * running the generated `display_ascii_art()` prints the grid: every row
   * cut to the width of row 0, each followed by a newline.
   */
  lemma GeneratedProgramDisplaysGrid(grid: Raster.Grid)
    requires GenerateLines(grid).Ok? && PlainCells(grid) && 0 < |grid| && 0 < GridWidth(grid)
    ensures GenerateIfElseCode(grid).Ok?
    ensures DisplayAsciiArt(GenerateIfElseCode(grid).value) == Some(Picture(grid, |grid|, GridWidth(grid)))
  {
    var code, lines := GenerateIfElseCode(grid).value, GenerateLines(grid).value;
    TextOfGrid(grid);
    GeneratedLayout(grid);
    LayoutCompiles(code, grid, GridWidth(grid), lines);
    DisplayFromLayout(code, grid, GridWidth(grid), lines);
  }

  // ---------------------------------------------------------------------
  // Degenerate grids
  // ---------------------------------------------------------------------

  /**
   * As written, generate_if_else_code accepts a grid with no rows, or with an
   * empty row 0, and writes a program Python refuses: the first statement of
   * the row chain (no rows) or of row 0's column chain (empty row 0) is an
   * `else:` with no test before it. Neither function of that program runs.
   */
  lemma DegenerateGridProgramRejected(grid: Raster.Grid, x: int, y: int)
    requires GenerateLines(grid).Ok? && PlainCells(grid)
    requires |grid| == 0 || GridWidth(grid) == 0
    ensures GenerateIfElseCode(grid).Ok?
    ensures PrintAsciiArt(GenerateIfElseCode(grid).value, x, y) == None
    ensures DisplayAsciiArt(GenerateIfElseCode(grid).value) == None
  {
    var width, lines := GridWidth(grid), GenerateLines(grid).value;
    TextOfGrid(grid);
    GeneratedLayout(grid);
    assert LineOf(0, 0, width) == 2;
    DefaultLinesReturnSpace();
    if 0 < |grid| {
      RowTestForm(0);
      assert TestLine(0, 0, width) == 3;
      assert lines[3] == InnerElse;
      assert ColumnChainEnd(lines, 3, true) == None;
    }
    assert RowChainEnd(lines, 2, true) == None;
  }

  /**
   * The corrected generator keeps its promise for every grid of plain cells:
   * it refuses exactly the grids with no rows, an empty row 0 or a row
   * shorter than row 0, and whatever program it writes compiles, returns
   * each cell of the grid and a space elsewhere, and displays the grid.
   */
  lemma CheckedProgramDisplaysGrid(grid: Raster.Grid)
    requires PlainCells(grid)
    ensures GenerateCheckedCode(grid).Err? <==>
      |grid| == 0 || GridWidth(grid) == 0 || exists k :: 0 <= k < |grid| && |grid[k]| < GridWidth(grid)
    ensures GenerateCheckedCode(grid).Ok? ==>
      && (forall x: int, y: int :: PrintAsciiArt(GenerateCheckedCode(grid).value, x, y)
            == Some(if 0 <= y < |grid| && 0 <= x < GridWidth(grid) then grid[y][x] else ' '))
      && DisplayAsciiArt(GenerateCheckedCode(grid).value) == Some(Picture(grid, |grid|, GridWidth(grid)))
  {
    if GenerateCheckedCode(grid).Ok? {
      forall x: int, y: int
        ensures PrintAsciiArt(GenerateCheckedCode(grid).value, x, y)
          == Some(if 0 <= y < |grid| && 0 <= x < GridWidth(grid) then grid[y][x] else ' ')
      {
        GeneratedProgramReturnsCell(grid, x, y);
      }
      GeneratedProgramDisplaysGrid(grid);
    }
  }
}
