/**
 * `read_pgm`: the Netpbm grey-map reader, over the file's bytes. The file is
 * read line by line: a magic line, any number of `#` comment lines, a
 * width/height line, a max-value line, then the pixels, which are decimal
 * tokens for the plain variant (P2) and raw bytes for the raw variant (P5).
 */
module Pgm {
  import opened Results
  import opened Numbers
  import opened Text

  /** The tuple read_pgm returns: (width, height, max_val, pixels). */
  datatype Image = Image(width: int, height: int, maxVal: int, pixels: seq<int>)

  datatype PgmError =
    | ParseError                       // a ValueError from decode('ascii'), int() or tuple unpacking
    | UnsupportedFormat(magic: string) // the magic token is neither P2 nor P5

  /** Everything read before the magic token is checked; `body` is the unread rest of the file. */
  datatype Header = Header(magic: string, width: int, height: int, maxVal: int, body: seq<Byte>)

  function DecodeLine(line: seq<Byte>): (r: Result<string, PgmError>)
    ensures r.Ok? <==> forall i :: 0 <= i < |line| ==> line[i] < 128
    ensures r.Ok? ==> |r.value| == |line|
  {
    match DecodeAscii(line)
    case Some(text) => Ok(text)
    case None => Err(ParseError)
  }

  /** `int()` of a header token; every failure is a ParseError. */
  function ParseNumber(token: string): (r: Result<int, PgmError>)
    ensures r.Err? ==> r.error == ParseError
    ensures 0 < |token| && AllDigits(token) ==> r == Ok(DecimalValue(token))
  {
    match ParseInt(token)
    case Some(n) => Ok(n)
    case None => Err(ParseError)
  }

  /**
   * The comment-skipping loop: reads lines until one does not start with
   * `#`, and yields that line, decoded, with the bytes after it. At the end
   * of the file the line read is empty, which ends the loop.
   */
  function SkipComments(data: seq<Byte>): (r: Result<(string, seq<Byte>), PgmError>)
    ensures r.Ok? ==> |r.value.0| == 0 || r.value.0[0] != '#'
    ensures r.Ok? ==> |r.value.1| <= |data| && r.value.1 == data[|data| - |r.value.1|..]
    ensures r.Err? ==> r.error == ParseError
    decreases |data|
  {
    var next := ReadLine(data);
    var text :- DecodeLine(next.0);
    if 0 < |text| && text[0] == '#' then SkipComments(next.1) else Ok((text, next.1))
  }

  /** The first n bytes of data are whole lines, each of them ASCII and starting with `#`. */
  predicate CommentLines(data: seq<Byte>, n: nat)
    decreases |data|
  {
    if n == 0 then true
    else
      var next := ReadLine(data);
      && DecodeLine(next.0).Ok?
      && 0 < |DecodeLine(next.0).value| && DecodeLine(next.0).value[0] == '#'
      && |next.0| <= n
      && CommentLines(next.1, n - |next.0|)
  }

  /**
   * The first k bytes of data are whole comment lines, and the line after
   * them, decoded, is `line`, with `rest` the bytes after it.
   */
  predicate CommentsThenLine(data: seq<Byte>, k: nat, line: string, rest: seq<Byte>) {
    && k <= |data|
    && CommentLines(data, k)
    && ReadLine(data[k..]).1 == rest
    && DecodeLine(ReadLine(data[k..]).0) == Ok(line)
  }

  /**
   * What the comment loop skips is a run of whole comment lines; the line it
   * yields is the next line of the file after them, and the bytes it
   * leaves are everything after that line.
   */
  lemma {:induction false} SkipCommentsReadsLines(data: seq<Byte>)
    requires SkipComments(data).Ok?
    ensures exists k: nat :: CommentsThenLine(data, k, SkipComments(data).value.0, SkipComments(data).value.1)
    decreases |data|
  {
    var next := ReadLine(data);
    var text := DecodeLine(next.0).value;
    var result := SkipComments(data).value;
    if 0 < |text| && text[0] == '#' {
      assert SkipComments(data) == SkipComments(next.1);
      SkipCommentsReadsLines(next.1);
      var k': nat :| CommentsThenLine(next.1, k', result.0, result.1);
      CommentLinesExtend(data, next.0, next.1, k', result.0, result.1);
    } else {
      assert data[0..] == data;
      assert CommentsThenLine(data, 0, result.0, result.1);
    }
  }

  /** A comment line followed by comment lines and a line is a longer run of comment lines and that line. */
  lemma CommentLinesExtend(data: seq<Byte>, line: seq<Byte>, rest: seq<Byte>, k: nat, next: string, after: seq<Byte>)
    requires ReadLine(data) == (line, rest)
    requires DecodeLine(line).Ok? && 0 < |DecodeLine(line).value| && DecodeLine(line).value[0] == '#'
    requires CommentsThenLine(rest, k, next, after)
    ensures CommentsThenLine(data, |line| + k, next, after)
  {
    DropConcat(line, rest, k);
    assert data[|line| + k..] == rest[k..];
  }

  lemma DropConcat<T>(a: seq<T>, b: seq<T>, k: nat)
    requires k <= |b|
    ensures (a + b)[|a| + k..] == b[k..]
  {
  }

  /** `width, height = map(int, line.split())`: exactly two integer tokens. */
  function ParseDimensions(text: string): (r: Result<(int, int), PgmError>)
    ensures r.Err? ==> r.error == ParseError
  {
    var tokens := Split(text, IsStrSpace);
    if |tokens| != 2 then Err(ParseError)
    else
      var width :- ParseNumber(tokens[0]);
      var height :- ParseNumber(tokens[1]);
      Ok((width, height))
  }

  /**
   * The header part of read_pgm; every way it can fail is a ParseError. The
   * magic token has no surrounding whitespace, and the body is the data that
   * follows the max-value line.
   */
  function ReadHeader(data: seq<Byte>): (r: Result<Header, PgmError>)
    ensures r.Err? ==> r.error == ParseError
    ensures r.Ok? ==> Suffix(r.value.body, data)
    ensures r.Ok? ==> Trimmed(r.value.magic)
  {
    var first := ReadLine(data);
    var magicText :- DecodeLine(first.0);
    var dims :- SkipComments(first.1);
    var size :- ParseDimensions(dims.0);
    var third := ReadLine(dims.1);
    var maxText :- DecodeLine(third.0);
    var maxVal :- ParseNumber(Strip(maxText, IsStrSpace));
    StripTrims(magicText);
    SuffixOfLine(data, first.1);
    SuffixOfLine(dims.1, third.1);
    SuffixTrans(third.1, dims.1, first.1);
    SuffixTrans(third.1, first.1, data);
    Ok(Header(Strip(magicText, IsStrSpace), size.0, size.1, maxVal, third.1))
  }

  /** The text neither starts nor ends with whitespace. */
  predicate Trimmed(text: string) {
    |text| == 0 || (!IsStrSpace(text[0]) && !IsStrSpace(text[|text| - 1]))
  }

  lemma StripTrims(text: string)
    ensures Trimmed(Strip(text, IsStrSpace))
  {
  }

  /** b is what is left of a after some prefix has been read. */
  predicate Suffix<T(==)>(b: seq<T>, a: seq<T>) {
    |b| <= |a| && b == a[|a| - |b|..]
  }

  lemma SuffixOfLine(data: seq<Byte>, rest: seq<Byte>)
    requires ReadLine(data).1 == rest
    ensures Suffix(rest, data)
  {
    var line := ReadLine(data).0;
    assert line + rest == data;
    assert data[|data| - |rest|..] == rest;
  }

  lemma SuffixTrans<T>(c: seq<T>, b: seq<T>, a: seq<T>)
    requires Suffix(c, b) && Suffix(b, a)
    ensures Suffix(c, a)
  {
    assert a[|a| - |c|..] == a[|a| - |b|..][|b| - |c|..];
  }

  /** `int()` on one P2 token, which is still bytes. */
  function ParseIntBytes(token: seq<Byte>): Option<int> {
    match DecodeAscii(token)
    case Some(text) => ParseInt(text)
    case None => None
  }

  /** `map(int, tokens)` consumed in full. */
  function ParseTokens(tokens: seq<seq<Byte>>): (r: Result<seq<int>, PgmError>)
    ensures r.Ok? <==> forall k :: 0 <= k < |tokens| ==> ParseIntBytes(tokens[k]).Some?
    ensures r.Ok? ==> |r.value| == |tokens|
    ensures r.Ok? ==> forall k :: 0 <= k < |tokens| ==> ParseIntBytes(tokens[k]) == Some(r.value[k])
    ensures r.Err? ==> r.error == ParseError
  {
    if |tokens| == 0 then Ok([])
    else
      var first :- match ParseIntBytes(tokens[0]) case Some(v) => Ok(v) case None => Err(ParseError);
      var rest :- ParseTokens(tokens[1..]);
      Ok([first] + rest)
  }

  /**
   * The P2 pixel loop: for each remaining line, extend by the integers of its
   * tokens. Line breaks only separate tokens, so the loop gives the integers
   * of all whitespace-separated tokens of the remaining bytes, in order.
   */
  function ParseP2(body: seq<Byte>): (r: Result<seq<int>, PgmError>)
    ensures r.Err? ==> r.error == ParseError
    ensures r == ParseTokens(Split(body, IsByteSpace))
    decreases |body|
  {
    if |body| == 0 then Ok([])
    else
      var next := ReadLine(body);
      SplitAtLine(body);
      ParseTokensAppend(Split(next.0, IsByteSpace), Split(next.1, IsByteSpace));
      var values :- ParseTokens(Split(next.0, IsByteSpace));
      var more :- ParseP2(next.1);
      Ok(values + more)
  }

  /**
   * read_pgm without the file: the header is read in full before the magic
   * token is looked at, so a malformed header fails with ParseError whatever
   * the magic token is; a readable header with a magic token other than P2
   * or P5 fails with UnsupportedFormat. The pixel count is never compared
   * with width * height.
   */
  function ReadPgm(data: seq<Byte>): (r: Result<Image, PgmError>)
    ensures ReadHeader(data).Err? ==> r == Err(ParseError)
    ensures ReadHeader(data).Ok? ==>
      var h := ReadHeader(data).value;
      && (h.magic != "P2" && h.magic != "P5" <==> r == Err(UnsupportedFormat(h.magic)))
      && (r.Ok? ==> r.value.width == h.width && r.value.height == h.height && r.value.maxVal == h.maxVal)
      && (h.magic == "P5" ==> r.Ok? && r.value.pixels == h.body)
      && (h.magic == "P2" ==> r == match ParseTokens(Split(h.body, IsByteSpace))
            case Ok(pixels) => Ok(Image(h.width, h.height, h.maxVal, pixels))
            case Err(e) => Err(e))
  {
    var h :- ReadHeader(data);
    if h.magic == "P2" then
      var pixels :- ParseP2(h.body);
      Ok(Image(h.width, h.height, h.maxVal, pixels))
    else if h.magic == "P5" then
      Ok(Image(h.width, h.height, h.maxVal, h.body))
    else
      Err(UnsupportedFormat(h.magic))
  }

  /** One step of `map(int, tokens)`: the first token, then the rest. */
  lemma ParseTokensCons(t: seq<Byte>, rest: seq<seq<Byte>>)
    ensures ParseTokens([t] + rest) ==
      if ParseIntBytes(t).Some? && ParseTokens(rest).Ok? then Ok([ParseIntBytes(t).value] + ParseTokens(rest).value)
      else Err(ParseError)
  {
    assert ([t] + rest)[0] == t && ([t] + rest)[1..] == rest;
  }

  lemma ParseTokensAppendStep(t: seq<Byte>, tail: seq<seq<Byte>>, b: seq<seq<Byte>>)
    requires ParseTokens([t] + tail).Ok? && ParseTokens(b).Ok?
    requires ParseTokens(tail + b) == Ok(ParseTokens(tail).value + ParseTokens(b).value)
    ensures ParseTokens([t] + (tail + b)) == Ok(ParseTokens([t] + tail).value + ParseTokens(b).value)
  {
    ParseTokensCons(t, tail);
    ParseTokensCons(t, tail + b);
    ConsAppend(ParseIntBytes(t).value, ParseTokens(tail).value, ParseTokens(b).value);
  }

  /** A non-empty token list is its first token followed by the others. */
  lemma FirstAndRest(a: seq<seq<Byte>>, b: seq<seq<Byte>>)
    requires 0 < |a|
    ensures a == [a[0]] + a[1..] && a + b == [a[0]] + (a[1..] + b)
  {
  }

  lemma {:induction false} ParseTokensAppendOk(a: seq<seq<Byte>>, b: seq<seq<Byte>>)
    requires ParseTokens(a).Ok? && ParseTokens(b).Ok?
    ensures ParseTokens(a + b) == Ok(ParseTokens(a).value + ParseTokens(b).value)
    decreases |a|
  {
    if |a| == 0 {
      assert a + b == b;
      var vb := ParseTokens(b).value;
      assert ParseTokens(a) == Ok([]) && [] + vb == vb;
    } else {
      FirstAndRest(a, b);
      ParseTokensCons(a[0], a[1..]);
      ParseTokensAppendOk(a[1..], b);
      ParseTokensAppendStep(a[0], a[1..], b);
    }
  }

  lemma ParseTokensAppendErr(a: seq<seq<Byte>>, b: seq<seq<Byte>>)
    requires ParseTokens(a).Err? || ParseTokens(b).Err?
    ensures ParseTokens(a + b) == Err(ParseError)
  {
    var ab := a + b;
    if ParseTokens(a).Err? {
      var k :| 0 <= k < |a| && ParseIntBytes(a[k]).None?;
      assert ab[k] == a[k];
    } else {
      var k :| 0 <= k < |b| && ParseIntBytes(b[k]).None?;
      assert ab[|a| + k] == b[k];
    }
  }

  /** Tokens parse as a whole exactly when both halves do, values in order. */
  lemma ParseTokensAppend(a: seq<seq<Byte>>, b: seq<seq<Byte>>)
    ensures ParseTokens(a + b) ==
      if ParseTokens(a).Ok? && ParseTokens(b).Ok? then Ok(ParseTokens(a).value + ParseTokens(b).value)
      else Err(ParseError)
  {
    if ParseTokens(a).Ok? && ParseTokens(b).Ok? {
      ParseTokensAppendOk(a, b);
    } else {
      ParseTokensAppendErr(a, b);
    }
  }

  /** The tokens of some bytes are those of their first line followed by those of the rest. */
  lemma SplitAtLine(body: seq<Byte>)
    ensures var next := ReadLine(body);
      Split(body, IsByteSpace) == Split(next.0, IsByteSpace) + Split(next.1, IsByteSpace)
  {
    var next := ReadLine(body);
    if 0 < |next.0| && next.0[|next.0| - 1] == NEWLINE {
      SplitAppend(next.0, next.1, IsByteSpace);
    } else {
      assert next.1 == [] && body == next.0;
      SplitOfSpaces(next.1, IsByteSpace);
      assert Split(next.0, IsByteSpace) + [] == Split(next.0, IsByteSpace);
    }
  }
}
