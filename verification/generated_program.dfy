/**
 * What the text produced by generate_if_else_code does when Python runs it,
 * for the one shape of program the generator writes: `print_ascii_art(x, y)`
 * is an `if`/`elif` chain on y whose branches hold an `if`/`elif` chain on x,
 * each branch a single `return '<c>'`, and `display_ascii_art()` loops over
 * `range(height)` and `range(width)`. A text whose `print_ascii_art` body is
 * not of that shape, or that holds a NUL or a carriage return, evaluates to
 * None: Python refuses to compile such a generated file.
 */
module GeneratedProgram {
  import opened Results
  import opened Numbers

  /** Index of the first newline in s, or |s| when there is none. */
  function NewlineIndex(s: string): (i: nat)
    ensures i <= |s|
    ensures forall j :: 0 <= j < i ==> s[j] != '\n'
    ensures i < |s| ==> s[i] == '\n'
  {
    if |s| == 0 || s[0] == '\n' then 0 else 1 + NewlineIndex(s[1..])
  }

  /** The source lines of a program text: the pieces between newlines, always at least one. */
  function SplitLines(text: string): (lines: seq<string>)
    ensures 0 < |lines|
    ensures forall k :: 0 <= k < |lines| ==> '\n' !in lines[k]
    decreases |text|
  {
    var i := NewlineIndex(text);
    if i == |text| then [text] else [text[..i]] + SplitLines(text[i + 1..])
  }

  function Spaces(n: nat): (s: string)
    ensures |s| == n && forall k :: 0 <= k < n ==> s[k] == ' '
  {
    seq(n, _ => ' ')
  }

  /** The line belongs to a block indented by at least n columns. */
  predicate Indented(line: string, n: nat) {
    n <= |line| && line[..n] == Spaces(n)
  }

  /** The first line at or after i that is not indented by n: the end of the block body starting at i. */
  function SkipBlock(lines: seq<string>, i: nat, n: nat): (r: nat)
    ensures i <= r
    ensures i <= |lines| ==> r <= |lines|
    ensures forall k :: i <= k < r ==> k < |lines| && Indented(lines[k], n)
    ensures r < |lines| ==> !Indented(lines[r], n)
    decreases |lines| - i
  {
    if i < |lines| && Indented(lines[i], n) then SkipBlock(lines, i + 1, n) else i
  }

  /** A decimal integer literal made only of digits. */
  function ParseLiteral(s: string): (r: Option<nat>)
    ensures r.Some? <==> 0 < |s| && AllDigits(s)
    ensures r.Some? ==> r.value == DecimalValue(s)
  {
    if 0 < |s| && AllDigits(s) then Some(DecimalValue(s)) else None
  }

  /** The value n of a line `prefix + n + suffix`, when it has that form. */
  function Between(line: string, prefix: string, suffix: string): (r: Option<nat>)
    ensures r.Some? ==>
      && |prefix| + |suffix| < |line|
      && line[..|prefix|] == prefix && line[|line| - |suffix|..] == suffix
      && r == ParseLiteral(line[|prefix|..|line| - |suffix|])
  {
    if |prefix| + |suffix| < |line| && line[..|prefix|] == prefix && line[|line| - |suffix|..] == suffix
    then ParseLiteral(line[|prefix|..|line| - |suffix|])
    else None
  }

  /** The character a single-quoted literal body denotes, for the escapes the generator writes. */
  function Unescape(body: string): (r: Option<char>)
    ensures r.Some? ==> 0 < |body| <= 2 && r.value == body[|body| - 1]
  {
    if |body| == 1 && body[0] != '\\' && body[0] != '\'' then Some(body[0])
    else if |body| == 2 && body[0] == '\\' && (body[1] == '\\' || body[1] == '\'') then Some(body[1])
    else None
  }

  /** The character a line `prefix + '<literal>'` returns. */
  function ReturnValue(line: string, prefix: string): (r: Option<char>)
    ensures r.Some? ==> |prefix| < |line| && line[..|prefix|] == prefix && line[|line| - 1] == '\''
  {
    if |prefix| < |line| && line[..|prefix|] == prefix && line[|line| - 1] == '\''
    then Unescape(line[|prefix|..|line| - 1])
    else None
  }

  const OuterReturn: string := "        return '"
  const InnerReturn: string := "            return '"
  const OuterElse: string := "    else:"
  const InnerElse: string := "        else:"

  /** The value a test `if y == n:` or `elif y == n:` compares y with. */
  function RowTest(line: string): Option<nat> {
    match Between(line, "    if y == ", ":")
    case Some(n) => Some(n)
    case None => Between(line, "    elif y == ", ":")
  }

  /** The value a test `if x == n:` or `elif x == n:` compares x with. */
  function ColumnTest(line: string): Option<nat> {
    match Between(line, "        if x == ", ":")
    case Some(n) => Some(n)
    case None => Between(line, "        elif x == ", ":")
  }

  function ReturnAt(lines: seq<string>, i: nat, prefix: string): Option<char> {
    if i < |lines| then ReturnValue(lines[i], prefix) else None
  }

  /** The row chain from line i on: the first test equal to y runs its column chain, the `else` returns. */
  function EvalRows(lines: seq<string>, i: nat, x: int, y: int): Option<char>
    decreases |lines| - i
  {
    if |lines| <= i then None
    else if lines[i] == OuterElse then ReturnAt(lines, i + 1, OuterReturn)
    else match RowTest(lines[i])
      case None => None
      case Some(n) =>
        if n == y then EvalColumns(lines, i + 1, x)
        else EvalRows(lines, SkipBlock(lines, i + 1, 8), x, y)
  }

  /** The column chain from line i on: the first test equal to x returns its character, the `else` a space. */
  function EvalColumns(lines: seq<string>, i: nat, x: int): Option<char>
    decreases |lines| - i
  {
    if |lines| <= i then None
    else if lines[i] == InnerElse then ReturnAt(lines, i + 1, InnerReturn)
    else match ColumnTest(lines[i])
      case None => None
      case Some(n) =>
        if n == x then ReturnAt(lines, i + 1, InnerReturn)
        else EvalColumns(lines, SkipBlock(lines, i + 1, 12), x)
  }

  const RowIf: string := "    if y == "
  const RowElif: string := "    elif y == "
  const ColumnIf: string := "        if x == "
  const ColumnElif: string := "        elif x == "

  /**
   * The end of a column chain that starts at line i: `if x == n:` first and
   * `elif x == n:` after it, each test followed by its one `return` line, and
   * an `else:` with its `return` last, which needs a test before it. None
   * when the lines do not have that shape.
   */
  function ColumnChainEnd(lines: seq<string>, i: nat, first: bool): (r: Option<nat>)
    ensures r.Some? ==> i + 2 <= r.value <= |lines|
    decreases |lines| - i
  {
    if |lines| <= i + 1 then None
    else if ReturnAt(lines, i + 1, InnerReturn).None? then None
    else if lines[i] == InnerElse then (if first then None else Some(i + 2))
    else if Between(lines[i], if first then ColumnIf else ColumnElif, ":").Some? then ColumnChainEnd(lines, i + 2, false)
    else None
  }

  /**
   * The end of the row chain that starts at line i: `if y == n:` first and
   * `elif y == n:` after it, each test followed by a column chain, and an
   * `else:` with its `return` last, which needs a test before it.
   */
  function RowChainEnd(lines: seq<string>, i: nat, first: bool): (r: Option<nat>)
    ensures r.Some? ==> i + 2 <= r.value <= |lines|
    decreases |lines| - i
  {
    if |lines| <= i + 1 then None
    else if lines[i] == OuterElse then
      if first || ReturnAt(lines, i + 1, OuterReturn).None? then None else Some(i + 2)
    else if Between(lines[i], if first then RowIf else RowElif, ":").None? then None
    else match ColumnChainEnd(lines, i + 1, true)
      case None => None
      case Some(next) => RowChainEnd(lines, next, false)
  }

  const PrintDef: string := "def print_ascii_art(x, y):"

  /**
   * Python compiles the text as far as print_ascii_art is concerned: no NUL
   * and no carriage return anywhere, the `def` line first, and a body (after
   * the docstring line) of the generated shape.
   */
  predicate PrintDefinitionCompiles(lines: seq<string>, code: string) {
    && '\0' !in code && '\r' !in code
    && 0 < |lines| && lines[0] == PrintDef
    && RowChainEnd(lines, 2, true).Some?
  }

  /** `print_ascii_art(x, y)`: its body starts after the `def` line and the docstring. */
  function PrintAsciiArt(code: string, x: int, y: int): Option<char> {
    var lines := SplitLines(code);
    if PrintDefinitionCompiles(lines, code) then EvalRows(lines, 2, x, y) else None
  }

  const DisplayDef: string := "def display_ascii_art():"
  const RangeY: string := "    for y in range("
  const RangeX: string := "        for x in range("

  /** Index of the first line from i on equal to target, or |lines| when there is none. */
  function FindLine(lines: seq<string>, target: string, i: nat): (k: nat)
    requires i <= |lines|
    ensures i <= k <= |lines|
    ensures forall j :: i <= j < k ==> lines[j] != target
    ensures k < |lines| ==> lines[k] == target
    decreases |lines| - i
  {
    if i == |lines| || lines[i] == target then i else FindLine(lines, target, i + 1)
  }

  /** What the inner loop prints for row y: `print_ascii_art(x, y)` for x in range(width). */
  function RowText(code: string, y: nat, width: nat): Option<string> {
    if width == 0 then Some("")
    else
      match RowText(code, y, width - 1)
      case None => None
      case Some(before) =>
        match PrintAsciiArt(code, width - 1, y)
        case None => None
        case Some(c) => Some(before + [c])
  }

  /** What the outer loop prints: each row's text and the newline of `print()`, for y in range(height). */
  function Screen(code: string, height: nat, width: nat): Option<string> {
    if height == 0 then Some("")
    else
      match Screen(code, height - 1, width)
      case None => None
      case Some(before) =>
        match RowText(code, height - 1, width)
        case None => None
        case Some(row) => Some(before + row + "\n")
  }

  /**
   * The bounds of `display_ascii_art()`'s two loops, read from the two
   * `for ... in range(n):` lines after its `def` line.
   */
  function DisplayBounds(lines: seq<string>): Option<(nat, nat)> {
    BoundsAfter(lines, FindLine(lines, DisplayDef, 0))
  }

  /** The loop bounds on lines d + 2 and d + 3. */
  function BoundsAfter(lines: seq<string>, d: nat): Option<(nat, nat)> {
    if |lines| <= d + 3 then None
    else
      match Between(lines[d + 2], RangeY, "):")
      case None => None
      case Some(height) =>
        match Between(lines[d + 3], RangeX, "):")
        case None => None
        case Some(width) => Some((height, width))
  }

  /** `display_ascii_art()`: its two loops over the bounds its range lines give. */
  function DisplayAsciiArt(code: string): Option<string> {
    if !PrintDefinitionCompiles(SplitLines(code), code) then None
    else match DisplayBounds(SplitLines(code))
    case None => None
    case Some((height, width)) => Screen(code, height, width)
  }
}
