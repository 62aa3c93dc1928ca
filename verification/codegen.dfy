/**
 * `generate_if_else_code`: the text of a Python program whose function
 * `print_ascii_art(x, y)` returns the grid's character at (x, y) through a
 * chain of `if`/`elif` branches, one per row and, inside it, one per column.
 * The file write is left out; the returned text is `'\n'.join(lines)`.
 */
module CodeGen {
  import opened Results
  import opened Numbers
  import Raster
  import GeneratedProgram

  datatype GenError =
    | RowTooShort(row: nat)  // IndexError: `ascii_array[y][x]` past the end of row y
    | EmptyPicture           // refused by the corrected generator: no rows, or row 0 is empty

  /** The width the generator uses: the length of row 0, or 0 for an empty grid. */
  function GridWidth(grid: Raster.Grid): nat {
    if 0 < |grid| then |grid[0]| else 0
  }

  /** The text between the quotes of `return '...'`: backslash and quote are escaped, nothing else is. */
  function Escape(c: char): string {
    if c == '\\' then "\\\\"
    else if c == '\'' then "\\'"
    else [c]
  }

  function YBranch(y: nat): string {
    (if y == 0 then "    if y == " else "    elif y == ") + NatToString(y) + ":"
  }

  function XBranch(x: nat): string {
    (if x == 0 then "        if x == " else "        elif x == ") + NatToString(x) + ":"
  }

  const ReturnPrefix: string := "            return '"

  function ReturnLine(c: char): string {
    ReturnPrefix + Escape(c) + "'"
  }

  const RowElse: string := "        else:"
  const RowDefault: string := "            return ' '"
  const RangeYPrefix: string := "    for y in range("
  const RangeXPrefix: string := "        for x in range("

  /** A docstring literal: the text between triple double quotes. */
  function DocString(text: string): string {
    "\"\"\"" + text + "\"\"\""
  }

  const DefLine: string := "def print_ascii_art(x, y):"
  const DocLine: string := "    " + DocString("Print ASCII character at position (x, y).")
  const OuterElseLine: string := "    else:"
  const OuterDefault: string := "        return ' '"
  const DisplayDefLine: string := "def display_ascii_art():"
  const DisplayDocLine: string := "    " + DocString("Display the complete ASCII art.")
  const PrintCallLine: string := "            " + "print(print_ascii_art(x, y), end='')"
  const PrintNewlineLine: string := "        print()  # New line"
  const MainGuardLine: string := "if __name__ == '__main__':"
  const MainCallLine: string := "    display_ascii_art()"

  const Header: seq<string> := [DefLine, DocLine]

  function RangeLine(prefix: string, n: nat): string {
    prefix + NatToString(n) + "):"
  }

  /** The end of print_ascii_art and all of display_ascii_art and the main guard. */
  function Footer(height: nat, width: nat): (lines: seq<string>)
    ensures |lines| == 14
  {
    [ OuterElseLine,
      OuterDefault,
      "",
      "",
      DisplayDefLine,
      DisplayDocLine,
      RangeLine(RangeYPrefix, height),
      RangeLine(RangeXPrefix, width),
      PrintCallLine,
      PrintNewlineLine,
      "",
      "",
      MainGuardLine,
      MainCallLine ]
  }

  /** Lines per row: its `if`/`elif`, two per column, and the closing `else` pair. */
  function BlockSize(width: nat): nat {
    3 + 2 * width
  }

  /** Lines taken by n whole row blocks: n * BlockSize(width), written as a sum. */
  function Offset(n: nat, width: nat): nat {
    if n == 0 then 0 else BlockSize(width) + Offset(n - 1, width)
  }

  /** Index of line j of row y's block in the generated program. */
  function LineOf(y: nat, j: nat, width: nat): nat {
    2 + Offset(y, width) + j
  }

  /** Index of column x's `if`/`elif` line in row y's block; column `width` is the row's `else`. */
  function TestLine(y: nat, x: nat, width: nat): nat {
    LineOf(y, 1 + 2 * x, width)
  }

  /** Index of the `return` line under column x's test. */
  function CellLine(y: nat, x: nat, width: nat): nat {
    LineOf(y, 2 + 2 * x, width)
  }

  /** The column branches for columns x .. width - 1 of one row. */
  function CellLines(row: seq<char>, x: nat, width: nat): (r: seq<string>)
    requires width <= |row|
    ensures x <= width ==> |r| == 2 * (width - x)
    ensures forall i :: x <= i < width ==> r[2 * (i - x)] == XBranch(i) && r[2 * (i - x) + 1] == ReturnLine(row[i])
    decreases width - x
  {
    if width <= x then []
    else
      var rest := CellLines(row, x + 1, width);
      PairsPrepended(row, x, width, rest);
      [XBranch(x), ReturnLine(row[x])] + rest
  }

  /** Column x's test and `return`, put before the pairs of columns x + 1 .. width - 1, give the pairs of x .. width - 1. */
  lemma PairsPrepended(row: seq<char>, x: nat, width: nat, rest: seq<string>)
    requires x < width <= |row| && |rest| == 2 * (width - (x + 1))
    requires forall i :: x + 1 <= i < width ==>
      rest[2 * (i - (x + 1))] == XBranch(i) && rest[2 * (i - (x + 1)) + 1] == ReturnLine(row[i])
    ensures var r := [XBranch(x), ReturnLine(row[x])] + rest;
      forall i :: x <= i < width ==> r[2 * (i - x)] == XBranch(i) && r[2 * (i - x) + 1] == ReturnLine(row[i])
  {
    var r := [XBranch(x), ReturnLine(row[x])] + rest;
    forall i | x < i < width
      ensures r[2 * (i - x)] == XBranch(i) && r[2 * (i - x) + 1] == ReturnLine(row[i])
    {
      assert r[2 * (i - x)] == rest[2 * (i - (x + 1))];
      assert r[2 * (i - x) + 1] == rest[2 * (i - (x + 1)) + 1];
    }
  }

  /** The lines generated for row y. */
  function RowBlock(y: nat, row: seq<char>, width: nat): (r: seq<string>)
    requires width <= |row|
    ensures |r| == BlockSize(width)
    ensures r[0] == YBranch(y)
    ensures forall x :: 0 <= x < width ==> r[1 + 2 * x] == XBranch(x) && r[2 + 2 * x] == ReturnLine(row[x])
    ensures r[1 + 2 * width] == RowElse && r[2 + 2 * width] == RowDefault
  {
    [YBranch(y)] + CellLines(row, 0, width) + [RowElse, RowDefault]
  }

  /** The row loop from row y on; a row shorter than `width` raises at its first missing column. */
  function Blocks(grid: Raster.Grid, y: nat, width: nat): (r: Result<seq<string>, GenError>)
    requires y <= |grid|
    ensures r.Ok? <==> forall k :: y <= k < |grid| ==> width <= |grid[k]|
    ensures r.Err? ==> r.error.RowTooShort? && var bad := r.error.row;
      && y <= bad < |grid| && |grid[bad]| < width
      && forall k :: y <= k < bad ==> width <= |grid[k]|
    ensures r.Ok? ==> |r.value| == Offset(|grid| - y, width)
    decreases |grid| - y
  {
    if y == |grid| then Ok([])
    else if |grid[y]| < width then Err(RowTooShort(y))
    else
      var rest :- Blocks(grid, y + 1, width);
      Ok(RowBlock(y, grid[y], width) + rest)
  }

  lemma BlocksSplit(grid: Raster.Grid, y: nat, width: nat)
    requires y < |grid| && Blocks(grid, y, width).Ok?
    ensures Blocks(grid, y + 1, width).Ok?
    ensures Blocks(grid, y, width).value == RowBlock(y, grid[y], width) + Blocks(grid, y + 1, width).value
  {
  }

  /** No row from y on is shorter than width. */
  predicate RowsFitFrom(grid: Raster.Grid, y: nat, width: nat) {
    forall k :: y <= k < |grid| ==> width <= |grid[k]|
  }

  /** The row blocks for rows y and after, when none of them is too short: what a successful row loop builds. */
  function RowBlocks(grid: Raster.Grid, y: nat, width: nat): (r: seq<string>)
    requires y <= |grid| && RowsFitFrom(grid, y, width)
    ensures |r| == Offset(|grid| - y, width)
    decreases |grid| - y
  {
    if y == |grid| then [] else RowBlock(y, grid[y], width) + RowBlocks(grid, y + 1, width)
  }

  /** A successful row loop gives the row blocks, one after another. */
  lemma {:induction false} BlocksAreRowBlocks(grid: Raster.Grid, y: nat, width: nat)
    requires y <= |grid| && Blocks(grid, y, width).Ok?
    ensures RowsFitFrom(grid, y, width) && Blocks(grid, y, width).value == RowBlocks(grid, y, width)
    decreases |grid| - y
  {
    if y < |grid| {
      BlocksSplit(grid, y, width);
      BlocksAreRowBlocks(grid, y + 1, width);
    }
  }

  /** Line j of row k's block sits at offset Offset(k - y, width) + j of the blocks for rows y and after. */
  lemma {:induction false} BlockLine(grid: Raster.Grid, y: nat, width: nat, k: nat, j: nat)
    requires y <= k < |grid| && j < BlockSize(width) && RowsFitFrom(grid, y, width)
    ensures Offset(k - y, width) + j < |RowBlocks(grid, y, width)|
    ensures RowBlocks(grid, y, width)[Offset(k - y, width) + j] == RowBlock(k, grid[k], width)[j]
    decreases k - y
  {
    var block := RowBlock(y, grid[y], width);
    assert RowBlocks(grid, y, width) == block + RowBlocks(grid, y + 1, width);
    if k > y {
      BlockLine(grid, y + 1, width, k, j);
      var i := Offset(k - (y + 1), width) + j;
      assert Offset(k - y, width) + j == |block| + i;
      AppendIndex(block, RowBlocks(grid, y + 1, width), i);
    } else {
      assert Offset(k - y, width) + j == j;
      PrefixIndex(block, RowBlocks(grid, y + 1, width), j);
    }
  }

  /** Index |a| + i of a + b is index i of b. */
  lemma AppendIndex<T>(a: seq<T>, b: seq<T>, i: nat)
    requires i < |b|
    ensures |a| + i < |a + b| && (a + b)[|a| + i] == b[i]
  {
  }

  /** Index i of a + b is index i of a when it lies within a. */
  lemma PrefixIndex<T>(a: seq<T>, b: seq<T>, i: nat)
    requires i < |a|
    ensures i < |a + b| && (a + b)[i] == a[i]
  {
  }

  /**
   * The line list of generate_if_else_code: a two-line header, one block per
   * row, and a fourteen-line footer that names the height and width. It fails
   * exactly when some row is shorter than row 0, naming the first such row.
   */
  function GenerateLines(grid: Raster.Grid): (r: Result<seq<string>, GenError>)
    ensures r.Ok? <==> forall k :: 0 <= k < |grid| ==> GridWidth(grid) <= |grid[k]|
    ensures r.Err? ==> r.error.RowTooShort? && var bad := r.error.row;
      && bad < |grid| && |grid[bad]| < GridWidth(grid)
      && forall k :: 0 <= k < bad ==> GridWidth(grid) <= |grid[k]|
    ensures r.Ok? ==> |r.value| == 16 + Offset(|grid|, GridWidth(grid))
    ensures r.Ok? ==> r.value[..2] == Header
    ensures r.Ok? ==> r.value[2 + Offset(|grid|, GridWidth(grid))..] == Footer(|grid|, GridWidth(grid))
  {
    var width := GridWidth(grid);
    match Blocks(grid, 0, width)
    case Err(e) => Err(e)
    case Ok(body) =>
      var lines := Header + body + Footer(|grid|, width);
      assert lines[..2] == Header;
      assert lines[2 + |body|..] == Footer(|grid|, width);
      Ok(lines)
  }

  /** Line j of row y's block is line LineOf(y, j, width) of the generated program. */
  lemma GeneratedBlockLine(grid: Raster.Grid, y: nat, j: nat)
    requires GenerateLines(grid).Ok? && y < |grid| && j < BlockSize(GridWidth(grid))
    ensures LineOf(y, j, GridWidth(grid)) < |GenerateLines(grid).value|
    ensures GenerateLines(grid).value[LineOf(y, j, GridWidth(grid))] == RowBlock(y, grid[y], GridWidth(grid))[j]
  {
    var width := GridWidth(grid);
    var i := Offset(y, width) + j;
    assert RowsFitFrom(grid, 0, width);
    BlockLine(grid, 0, width, y, j);
    assert y - 0 == y && |grid| - 0 == |grid|;
    assert i < Offset(|grid|, width);
    GeneratedBodyLine(grid, i);
    assert LineOf(y, j, width) == 2 + i;
  }

  /** Line i of the row loop's output is line 2 + i of the program, after the two header lines. */
  lemma GeneratedBodyLine(grid: Raster.Grid, i: nat)
    requires GenerateLines(grid).Ok? && i < Offset(|grid|, GridWidth(grid))
    ensures RowsFitFrom(grid, 0, GridWidth(grid))
    ensures 2 + i < |GenerateLines(grid).value|
    ensures GenerateLines(grid).value[2 + i] == RowBlocks(grid, 0, GridWidth(grid))[i]
  {
    var width := GridWidth(grid);
    var body := Blocks(grid, 0, width).value;
    assert GenerateLines(grid).value == Header + body + Footer(|grid|, width);
    MiddleIndex(Header, body, Footer(|grid|, width), i);
    BlocksAreRowBlocks(grid, 0, width);
  }

  /** Index |h| + i of h + b + f is index i of the middle part b. */
  lemma MiddleIndex<T>(h: seq<T>, b: seq<T>, f: seq<T>, i: nat)
    requires i < |b|
    ensures (h + b + f)[|h| + i] == b[i]
  {
  }

  /**
   * generate_if_else_code's return value, `'\n'.join(code)`. For a grid of
   * plain cells the text, split at its newlines, gives back the generated
   * line list, and it holds no NUL and no carriage return.
   */
  function GenerateIfElseCode(grid: Raster.Grid): (r: Result<string, GenError>)
    ensures r.Ok? <==> GenerateLines(grid).Ok?
    ensures r.Ok? && PlainCells(grid) ==> GeneratedProgram.SplitLines(r.value) == GenerateLines(grid).value
    ensures r.Ok? && PlainCells(grid) ==> '\0' !in r.value && '\r' !in r.value
  {
    var lines :- GenerateLines(grid);
    GeneratedTextPlain(grid);
    Ok(JoinLines(lines))
  }

  /**
   * generate_if_else_code with the degenerate pictures refused: a grid with
   * no rows, or with an empty row 0, would be written as an `else` with no
   * test before it, which Python does not compile.
   */
  function GenerateCheckedCode(grid: Raster.Grid): (r: Result<string, GenError>)
    ensures r.Ok? <==> 0 < |grid| && 0 < |grid[0]| && forall k :: 0 <= k < |grid| ==> |grid[0]| <= |grid[k]|
    ensures r.Err? ==> (r.error == EmptyPicture <==> |grid| == 0 || |grid[0]| == 0)
    ensures r.Ok? ==> r == GenerateIfElseCode(grid)
  {
    if |grid| == 0 || GridWidth(grid) == 0 then Err(EmptyPicture)
    else GenerateIfElseCode(grid)
  }

  /** `'\n'.join(lines)`. */
  function JoinLines(lines: seq<string>): string {
    if |lines| == 0 then ""
    else if |lines| == 1 then lines[0]
    else lines[0] + "\n" + JoinLines(lines[1..])
  }

  // ---------------------------------------------------------------------
  // Plain text: what a one-line string literal may hold
  // ---------------------------------------------------------------------

  /**
   * A character Python accepts inside a one-line string literal of the
   * generated file: not a newline or a carriage return, either of which ends
   * the source line, and not NUL, which Python refuses anywhere in source.
   */
  predicate PlainChar(c: char) {
    c != '\n' && c != '\r' && c != '\0'
  }

  predicate PlainText(s: string) {
    forall i :: 0 <= i < |s| ==> PlainChar(s[i])
  }

  /** Every cell of the grid can be written into a `return '...'` line. */
  predicate PlainCells(grid: Raster.Grid) {
    forall y, x :: 0 <= y < |grid| && 0 <= x < |grid[y]| ==> PlainChar(grid[y][x])
  }

  // ---------------------------------------------------------------------
  // Splitting the joined text
  // ---------------------------------------------------------------------

  lemma NewlineIndexOfLine(a: string, b: string)
    requires '\n' !in a
    ensures GeneratedProgram.NewlineIndex(a + "\n" + b) == |a|
  {
    var s := a + "\n" + b;
    assert s[|a|] == '\n';
    assert forall j :: 0 <= j < |a| ==> s[j] == a[j];
  }

  lemma NewlineIndexOfLast(a: string)
    requires '\n' !in a
    ensures GeneratedProgram.NewlineIndex(a) == |a|
  {
  }

  /** A first line without a newline, then a newline, splits into that line and the split of the rest. */
  lemma SplitAtNewline(a: string, b: string)
    requires '\n' !in a
    ensures GeneratedProgram.SplitLines(a + "\n" + b) == [a] + GeneratedProgram.SplitLines(b)
  {
    var text := a + "\n" + b;
    NewlineIndexOfLine(a, b);
    assert text[..|a|] == a;
    assert text[|a| + 1..] == b;
  }

  /** Splitting `'\n'.join(lines)` at its newlines gives back the lines, when none holds a newline. */
  lemma {:induction false} SplitJoinLines(lines: seq<string>)
    requires 0 < |lines|
    requires forall k :: 0 <= k < |lines| ==> '\n' !in lines[k]
    ensures GeneratedProgram.SplitLines(JoinLines(lines)) == lines
    decreases |lines|
  {
    if |lines| == 1 {
      NewlineIndexOfLast(lines[0]);
    } else {
      var rest := JoinLines(lines[1..]);
      assert JoinLines(lines) == lines[0] + "\n" + rest;
      SplitAtNewline(lines[0], rest);
      SplitJoinLines(lines[1..]);
      assert lines == [lines[0]] + lines[1..];
    }
  }

  /** Joining lines free of NUL and carriage returns adds only newlines. */
  lemma {:induction false} JoinLinesPlain(lines: seq<string>)
    requires forall k :: 0 <= k < |lines| ==> PlainText(lines[k])
    ensures '\0' !in JoinLines(lines) && '\r' !in JoinLines(lines)
    decreases |lines|
  {
    if |lines| == 1 {
      assert PlainText(lines[0]);
    } else if |lines| > 1 {
      JoinLinesPlain(lines[1..]);
      assert PlainText(lines[0]);
      assert JoinLines(lines) == lines[0] + "\n" + JoinLines(lines[1..]);
    }
  }

  // ---------------------------------------------------------------------
  // Every generated line is plain text
  // ---------------------------------------------------------------------

  lemma PlainAppend(a: string, b: string)
    requires PlainText(a) && PlainText(b)
    ensures PlainText(a + b)
  {
    assert forall i :: |a| <= i < |a + b| ==> (a + b)[i] == b[i - |a|];
  }

  lemma DigitsArePlain(s: string)
    requires AllDigits(s)
    ensures PlainText(s)
  {
    assert forall i :: 0 <= i < |s| ==> IsDigit(s[i]);
  }

  lemma NumberLinePlain(prefix: string, n: nat, suffix: string)
    requires PlainText(prefix) && PlainText(suffix)
    ensures PlainText(prefix + NatToString(n) + suffix)
  {
    DigitsArePlain(NatToString(n));
    PlainAppend(prefix, NatToString(n));
    PlainAppend(prefix + NatToString(n), suffix);
  }

  lemma ReturnLinePlain(c: char)
    requires PlainChar(c)
    ensures PlainText(ReturnLine(c))
  {
    assert PlainText(Escape(c));
    PlainAppend(ReturnPrefix, Escape(c));
    PlainAppend(ReturnPrefix + Escape(c), "'");
  }

  lemma BranchLinesPlain(n: nat)
    ensures PlainText(XBranch(n)) && PlainText(YBranch(n))
  {
    NumberLinePlain(if n == 0 then "        if x == " else "        elif x == ", n, ":");
    NumberLinePlain(if n == 0 then "    if y == " else "    elif y == ", n, ":");
  }

  lemma {:induction false} CellLinesPlain(row: seq<char>, x: nat, width: nat)
    requires width <= |row|
    requires forall i :: 0 <= i < |row| ==> PlainChar(row[i])
    ensures forall k :: 0 <= k < |CellLines(row, x, width)| ==> PlainText(CellLines(row, x, width)[k])
    decreases width - x
  {
    if x < width {
      CellLinesPlain(row, x + 1, width);
      BranchLinesPlain(x);
      ReturnLinePlain(row[x]);
      var rest := CellLines(row, x + 1, width);
      assert CellLines(row, x, width) == [XBranch(x), ReturnLine(row[x])] + rest;
    }
  }

  lemma RowBlockPlain(y: nat, row: seq<char>, width: nat)
    requires width <= |row|
    requires forall i :: 0 <= i < |row| ==> PlainChar(row[i])
    ensures forall k :: 0 <= k < |RowBlock(y, row, width)| ==> PlainText(RowBlock(y, row, width)[k])
  {
    CellLinesPlain(row, 0, width);
    BranchLinesPlain(y);
    var cells := CellLines(row, 0, width);
    var block := RowBlock(y, row, width);
    assert block == [YBranch(y)] + cells + [RowElse, RowDefault];
    forall k | 0 <= k < |block|
      ensures PlainText(block[k])
    {
      if 0 < k <= |cells| {
        assert block[k] == cells[k - 1];
      }
    }
  }

  lemma {:induction false} BlocksPlain(grid: Raster.Grid, y: nat, width: nat)
    requires y <= |grid| && Blocks(grid, y, width).Ok?
    requires PlainCells(grid)
    ensures forall k :: 0 <= k < |Blocks(grid, y, width).value| ==> PlainText(Blocks(grid, y, width).value[k])
    decreases |grid| - y
  {
    if y < |grid| {
      BlocksSplit(grid, y, width);
      BlocksPlain(grid, y + 1, width);
      RowBlockPlain(y, grid[y], width);
      var first := RowBlock(y, grid[y], width);
      var rest := Blocks(grid, y + 1, width).value;
      forall k | 0 <= k < |first + rest|
        ensures PlainText((first + rest)[k])
      {
        if k >= |first| {
          assert (first + rest)[k] == rest[k - |first|];
        }
      }
    }
  }

  lemma DocStringPlain(indent: string, text: string)
    requires PlainText(indent) && PlainText(text)
    ensures PlainText(indent + DocString(text))
  {
    PlainAppend("\"\"\"", text);
    PlainAppend("\"\"\"" + text, "\"\"\"");
    PlainAppend(indent, DocString(text));
  }

  lemma HeaderPlain()
    ensures forall k :: 0 <= k < |Header| ==> PlainText(Header[k])
  {
    DocStringPlain("    ", "Print ASCII character at position (x, y).");
  }

  lemma FooterTextPlain()
    ensures PlainText(OuterElseLine) && PlainText(OuterDefault) && PlainText(DisplayDefLine)
    ensures PlainText(DisplayDocLine)
  {
    DocStringPlain("    ", "Display the complete ASCII art.");
  }

  lemma FooterCallsPlain()
    ensures PlainText(PrintCallLine) && PlainText(PrintNewlineLine)
    ensures PlainText(MainGuardLine) && PlainText(MainCallLine)
  {
    PlainAppend("            ", "print(print_ascii_art(x, y), end='')");
  }

  lemma FooterPlain(height: nat, width: nat)
    ensures forall k :: 0 <= k < 14 ==> PlainText(Footer(height, width)[k])
  {
    FooterTextPlain();
    FooterCallsPlain();
    NumberLinePlain(RangeYPrefix, height, "):");
    NumberLinePlain(RangeXPrefix, width, "):");
    assert PlainText("");
  }

  lemma GeneratedLinesPlain(grid: Raster.Grid)
    requires GenerateLines(grid).Ok? && PlainCells(grid)
    ensures forall k :: 0 <= k < |GenerateLines(grid).value| ==> PlainText(GenerateLines(grid).value[k])
  {
    var width := GridWidth(grid);
    var body := Blocks(grid, 0, width).value;
    var footer := Footer(|grid|, width);
    var lines := GenerateLines(grid).value;
    assert lines == Header + body + footer;
    BlocksPlain(grid, 0, width);
    FooterPlain(|grid|, width);
    HeaderPlain();
    forall k | 0 <= k < |lines|
      ensures PlainText(lines[k])
    {
      if k < 2 {
        assert lines[k] == Header[k];
      } else if k < 2 + |body| {
        assert lines[k] == body[k - 2];
      } else {
        assert lines[k] == footer[k - 2 - |body|];
      }
    }
  }

  /**
   * For a grid of plain cells, the joined line list, split at its newlines,
   * is the line list again, and it holds no NUL and no carriage return.
   */
  lemma GeneratedTextPlain(grid: Raster.Grid)
    requires GenerateLines(grid).Ok?
    ensures PlainCells(grid) ==>
      GeneratedProgram.SplitLines(JoinLines(GenerateLines(grid).value)) == GenerateLines(grid).value
    ensures PlainCells(grid) ==>
      '\0' !in JoinLines(GenerateLines(grid).value) && '\r' !in JoinLines(GenerateLines(grid).value)
  {
    if PlainCells(grid) {
      var lines := GenerateLines(grid).value;
      GeneratedLinesPlain(grid);
      forall k | 0 <= k < |lines|
        ensures '\n' !in lines[k]
      {
        assert PlainText(lines[k]);
      }
      SplitJoinLines(lines);
      JoinLinesPlain(lines);
    }
  }
}
