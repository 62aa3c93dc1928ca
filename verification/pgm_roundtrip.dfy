/**
 * A writer for the two PGM variants read_pgm accepts, and the round trips
 * that tie the reader to it: whatever image is written, with any comment
 * lines, reads back unchanged, from the plain and the raw variant alike.
 */
module PgmRoundTrip {
  import opened Results
  import opened Numbers
  import opened Text
  import opened Pgm

  /** Text that fits on one line of an ASCII header. */
  predicate IsLineText(s: string) {
    IsAscii(s) && '\n' !in s
  }

  /** A magic token as written on the first line: non-empty, no whitespace at all. */
  predicate IsToken(s: string) {
    && 0 < |s|
    && IsLineText(s)
    && forall i :: 0 <= i < |s| ==> !IsStrSpace(s[i])
  }

  predicate IsComment(c: string) {
    IsLineText(c) && 0 < |c| && c[0] == '#'
  }

  /** An image the plain writer can write: nothing negative. */
  predicate Writable(img: Image) {
    && 0 <= img.width && 0 <= img.height && 0 <= img.maxVal
    && forall k :: 0 <= k < |img.pixels| ==> 0 <= img.pixels[k]
  }

  /** An image the raw writer can write: also every pixel fits in one byte. */
  predicate RawWritable(img: Image) {
    Writable(img) && forall k :: 0 <= k < |img.pixels| ==> img.pixels[k] < 256
  }

  lemma DigitsAreToken(s: string)
    requires 0 < |s| && AllDigits(s)
    ensures IsToken(s)
  {
    assert forall i :: 0 <= i < |s| ==> s[i] as int < 128 && !IsStrSpace(s[i]);
  }

  function EncodeLine(s: string): (bs: seq<Byte>)
    requires IsLineText(s)
    ensures bs == EncodeAscii(s) + [NEWLINE]
  {
    var bs := EncodeAscii(s + "\n");
    assert bs == EncodeAscii(s) + [NEWLINE];
    bs
  }

  function EncodeComments(comments: seq<string>): seq<Byte>
    requires forall k :: 0 <= k < |comments| ==> IsComment(comments[k])
  {
    if |comments| == 0 then []
    else
      assert IsComment(comments[0]);
      EncodeLine(comments[0]) + EncodeComments(comments[1..])
  }

  function DimensionsText(width: nat, height: nat): string {
    NatToString(width) + " " + NatToString(height)
  }

  function EncodeHeader(magic: string, comments: seq<string>, width: nat, height: nat, maxVal: nat): seq<Byte>
    requires IsToken(magic)
    requires forall k :: 0 <= k < |comments| ==> IsComment(comments[k])
  {
    DigitsAreToken(NatToString(width));
    DigitsAreToken(NatToString(height));
    DigitsAreToken(NatToString(maxVal));
    EncodeLine(magic) + EncodeComments(comments)
      + EncodeLine(DimensionsText(width, height)) + NumberLine(maxVal)
  }

  /** A decimal number on a line of its own. */
  function NumberLine(n: nat): (bs: seq<Byte>)
    ensures IsToken(NatToString(n)) && bs == EncodeLine(NatToString(n))
  {
    DigitsAreToken(NatToString(n));
    EncodeLine(NatToString(n))
  }

  /** P2 pixels, one decimal number per line. */
  function EncodeP2Pixels(pixels: seq<int>): seq<Byte>
    requires forall k :: 0 <= k < |pixels| ==> 0 <= pixels[k]
  {
    if |pixels| == 0 then []
    else
      NumberLine(pixels[0]) + EncodeP2Pixels(pixels[1..])
  }

  function EncodeP2(img: Image, comments: seq<string>): seq<Byte>
    requires Writable(img)
    requires forall k :: 0 <= k < |comments| ==> IsComment(comments[k])
  {
    EncodeHeader("P2", comments, img.width, img.height, img.maxVal) + EncodeP2Pixels(img.pixels)
  }

  function EncodeP5(img: Image, comments: seq<string>): seq<Byte>
    requires RawWritable(img)
    requires forall k :: 0 <= k < |comments| ==> IsComment(comments[k])
  {
    EncodeHeader("P5", comments, img.width, img.height, img.maxVal)
      + seq(|img.pixels|, k requires 0 <= k < |img.pixels| => img.pixels[k] as Byte)
  }

  /** Reading an encoded line yields exactly that line and its text. */
  lemma ReadEncodedLine(s: string, rest: seq<Byte>)
    requires IsLineText(s)
    ensures ReadLine(EncodeLine(s) + rest) == (EncodeLine(s), rest)
    ensures DecodeLine(EncodeLine(s)) == Ok(s + "\n")
  {
    var bs := EncodeAscii(s);
    assert forall i :: 0 <= i < |bs| ==> bs[i] != NEWLINE by {
      forall i | 0 <= i < |bs|
        ensures bs[i] != NEWLINE
      {
        assert s[i] != '\n';
      }
    }
    ReadLineOfLine(bs, rest);
    DecodeEncodeAscii(s + "\n");
  }

  /** Every line starting with `#` is skipped; the first other line is returned with what follows it. */
  lemma {:induction false} CommentLinesSkipped(comments: seq<string>, line: string, rest: seq<Byte>)
    requires forall k :: 0 <= k < |comments| ==> IsComment(comments[k])
    requires IsLineText(line) && (|line| == 0 || line[0] != '#')
    ensures SkipComments(EncodeComments(comments) + EncodeLine(line) + rest) == Ok((line + "\n", rest))
    decreases |comments|
  {
    if |comments| == 0 {
      assert EncodeComments(comments) + EncodeLine(line) + rest == EncodeLine(line) + rest;
      ReadEncodedLine(line, rest);
    } else {
      var tail := EncodeComments(comments[1..]) + EncodeLine(line) + rest;
      assert EncodeComments(comments) + EncodeLine(line) + rest == EncodeLine(comments[0]) + tail;
      ReadEncodedLine(comments[0], tail);
      CommentLinesSkipped(comments[1..], line, rest);
    }
  }

  /** A width/height line written as two numbers reads back as those two numbers. */
  lemma DimensionsRoundTrip(width: nat, height: nat)
    ensures ParseDimensions(DimensionsText(width, height) + "\n") == Ok((width, height))
  {
    var w, h := NatToString(width), NatToString(height);
    DigitsAreToken(w);
    DigitsAreToken(h);
    assert DimensionsText(width, height) + "\n" == (w + [' ']) + (h + ['\n']);
    SplitAppend(w + [' '], h + ['\n'], IsStrSpace);
    SplitToken(w, ' ', IsStrSpace);
    SplitToken(h, '\n', IsStrSpace);
  }

  /**
   * The width/height line is read as its two whitespace-separated tokens,
   * whatever whitespace surrounds and separates them: it succeeds exactly
   * when both tokens are integers, and then gives them in order.
   */
  lemma ParseDimensionsOfTokens(s1: string, a: string, s2: string, b: string, s3: string)
    requires forall i :: 0 <= i < |s1| ==> IsStrSpace(s1[i])
    requires 0 < |s2| && forall i :: 0 <= i < |s2| ==> IsStrSpace(s2[i])
    requires forall i :: 0 <= i < |s3| ==> IsStrSpace(s3[i])
    requires 0 < |a| && forall i :: 0 <= i < |a| ==> !IsStrSpace(a[i])
    requires 0 < |b| && forall i :: 0 <= i < |b| ==> !IsStrSpace(b[i])
    ensures ParseDimensions(s1 + a + s2 + b + s3)
      == if ParseInt(a).Some? && ParseInt(b).Some? then Ok((ParseInt(a).value, ParseInt(b).value))
         else Err(ParseError)
  {
    SplitTwoTokens(s1, a, s2, b, s3, IsStrSpace);
  }

  /** In particular two numbers, with any whitespace around and between them, read back as those numbers. */
  lemma ParseDimensionsSpaced(s1: string, width: nat, s2: string, height: nat, s3: string)
    requires forall i :: 0 <= i < |s1| ==> IsStrSpace(s1[i])
    requires 0 < |s2| && forall i :: 0 <= i < |s2| ==> IsStrSpace(s2[i])
    requires forall i :: 0 <= i < |s3| ==> IsStrSpace(s3[i])
    ensures ParseDimensions(s1 + NatToString(width) + s2 + NatToString(height) + s3) == Ok((width, height))
  {
    DigitsAreToken(NatToString(width));
    DigitsAreToken(NatToString(height));
    ParseDimensionsOfTokens(s1, NatToString(width), s2, NatToString(height), s3);
  }

  lemma DimensionsLine(width: nat, height: nat)
    ensures IsLineText(DimensionsText(width, height)) && DimensionsText(width, height)[0] != '#'
  {
    var dims := DimensionsText(width, height);
    DigitsAreToken(NatToString(width));
    DigitsAreToken(NatToString(height));
    assert dims[|NatToString(width)|] == ' ';
    assert forall i :: 0 <= i < |dims| ==> dims[i] as int < 128 && dims[i] != '\n';
  }

  /** The max-value line reads back as the number, leaving the body unread. */
  lemma MaxLineRoundTrip(maxVal: nat, body: seq<Byte>)
    ensures ReadLine(NumberLine(maxVal) + body) == (NumberLine(maxVal), body)
    ensures DecodeLine(NumberLine(maxVal)) == Ok(NatToString(maxVal) + "\n")
    ensures Strip(NatToString(maxVal) + "\n", IsStrSpace) == NatToString(maxVal)
  {
    var mv := NatToString(maxVal);
    ReadEncodedLine(mv, body);
    StripWord(mv, '\n', IsStrSpace);
  }

  /** read_pgm's header steps, each given its outcome. */
  lemma ReadHeaderSteps(data: seq<Byte>, magicLine: seq<Byte>, afterMagic: seq<Byte>, magicText: string,
                        dimsText: string, afterDims: seq<Byte>, width: int, height: int,
                        maxLine: seq<Byte>, body: seq<Byte>, maxText: string, maxVal: int)
    requires ReadLine(data) == (magicLine, afterMagic) && DecodeLine(magicLine) == Ok(magicText)
    requires SkipComments(afterMagic) == Ok((dimsText, afterDims))
    requires ParseDimensions(dimsText) == Ok((width, height))
    requires ReadLine(afterDims) == (maxLine, body) && DecodeLine(maxLine) == Ok(maxText)
    requires ParseNumber(Strip(maxText, IsStrSpace)) == Ok(maxVal)
    ensures ReadHeader(data) == Ok(Header(Strip(magicText, IsStrSpace), width, height, maxVal, body))
  {
  }

  /** The encoded header followed by a body, cut after the magic line, the comments and the dimensions line. */
  lemma HeaderParts(magic: string, comments: seq<string>, width: nat, height: nat, maxVal: nat, body: seq<Byte>)
    requires IsToken(magic)
    requires forall k :: 0 <= k < |comments| ==> IsComment(comments[k])
    ensures IsLineText(DimensionsText(width, height))
    ensures EncodeHeader(magic, comments, width, height, maxVal) + body
      == EncodeLine(magic) + (EncodeComments(comments) + EncodeLine(DimensionsText(width, height)) + (NumberLine(maxVal) + body))
  {
    DimensionsLine(width, height);
    var a, b := EncodeLine(magic), EncodeComments(comments);
    var c, d := EncodeLine(DimensionsText(width, height)), NumberLine(maxVal);
    assert EncodeHeader(magic, comments, width, height, maxVal) == a + b + c + d;
    ConcatRegroup(a, b, c, d, body);
  }

  lemma ConcatRegroup<T>(a: seq<T>, b: seq<T>, c: seq<T>, d: seq<T>, e: seq<T>)
    ensures a + b + c + d + e == a + (b + c + (d + e))
  {
  }

  /** The magic line reads back as the magic token. */
  lemma MagicLineRoundTrip(magic: string, rest: seq<Byte>)
    requires IsToken(magic)
    ensures ReadLine(EncodeLine(magic) + rest) == (EncodeLine(magic), rest)
    ensures DecodeLine(EncodeLine(magic)) == Ok(magic + "\n")
    ensures Strip(magic + "\n", IsStrSpace) == magic
  {
    ReadEncodedLine(magic, rest);
    StripWord(magic, '\n', IsStrSpace);
  }

  /** The header as written reads back field for field, leaving the body unread. */
  lemma HeaderRoundTrip(magic: string, comments: seq<string>, width: nat, height: nat, maxVal: nat, body: seq<Byte>)
    requires IsToken(magic)
    requires forall k :: 0 <= k < |comments| ==> IsComment(comments[k])
    ensures ReadHeader(EncodeHeader(magic, comments, width, height, maxVal) + body)
      == Ok(Header(magic, width, height, maxVal, body))
  {
    var dims := DimensionsText(width, height);
    var maxLine := NumberLine(maxVal) + body;
    var afterMagic := EncodeComments(comments) + EncodeLine(dims) + maxLine;
    HeaderParts(magic, comments, width, height, maxVal, body);
    MagicLineRoundTrip(magic, afterMagic);
    DimensionsLine(width, height);
    CommentLinesSkipped(comments, dims, maxLine);
    DimensionsRoundTrip(width, height);
    MaxLineRoundTrip(maxVal, body);
    ReadHeaderSteps(EncodeLine(magic) + afterMagic, EncodeLine(magic), afterMagic, magic + "\n", dims + "\n",
                    maxLine, width, height, NumberLine(maxVal), body, NatToString(maxVal) + "\n", maxVal);
  }

  /** One P2 line holding one number contributes exactly that number. */
  lemma P2NumberLine(n: nat, rest: seq<Byte>)
    ensures ParseP2(NumberLine(n) + rest)
        == if ParseP2(rest).Ok? then Ok([n] + ParseP2(rest).value) else Err(ParseError)
  {
    var t := NatToString(n);
    DigitsAreToken(t);
    ReadEncodedLine(t, rest);
    var tok := EncodeAscii(t);
    assert forall j :: 0 <= j < |tok| ==> !IsByteSpace(tok[j]);
    SplitToken(tok, NEWLINE, IsByteSpace);
    DecodeEncodeAscii(t);
    assert ParseIntBytes(tok) == Some(n);
    var single := ParseTokens([tok]);
    assert [tok][0] == tok;
    assert single.Ok? && |single.value| == 1 && single.value[0] == n;
    assert single.value == [single.value[0]];
  }

  lemma {:induction false} P2PixelsRoundTrip(pixels: seq<int>)
    requires forall k :: 0 <= k < |pixels| ==> 0 <= pixels[k]
    ensures ParseP2(EncodeP2Pixels(pixels)) == Ok(pixels)
  {
    if |pixels| > 0 {
      var rest := EncodeP2Pixels(pixels[1..]);
      assert EncodeP2Pixels(pixels) == NumberLine(pixels[0]) + rest;
      assert [pixels[0]] + pixels[1..] == pixels;
      P2PixelsRoundTrip(pixels[1..]);
      P2LineBeforeValues(pixels[0], rest, pixels[1..]);
    }
  }

  /** A number line in front of a body that reads as some values reads as that number followed by them. */
  lemma P2LineBeforeValues(n: nat, rest: seq<Byte>, values: seq<int>)
    requires ParseP2(rest) == Ok(values)
    ensures ParseP2(NumberLine(n) + rest) == Ok([n] + values)
  {
    P2NumberLine(n, rest);
  }

  /**
   * A plain (P2) file written from an image reads back as that image. The
   * pixel count need not be width * height: the reader never checks it.
   */
  lemma P2RoundTrip(img: Image, comments: seq<string>)
    requires Writable(img)
    requires forall k :: 0 <= k < |comments| ==> IsComment(comments[k])
    ensures ReadPgm(EncodeP2(img, comments)) == Ok(img)
  {
    assert IsToken("P2");
    HeaderRoundTrip("P2", comments, img.width, img.height, img.maxVal, EncodeP2Pixels(img.pixels));
    P2PixelsRoundTrip(img.pixels);
  }

  /** A raw (P5) file written from an image whose pixels fit in a byte reads back as that image. */
  lemma P5RoundTrip(img: Image, comments: seq<string>)
    requires RawWritable(img)
    requires forall k :: 0 <= k < |comments| ==> IsComment(comments[k])
    ensures ReadPgm(EncodeP5(img, comments)) == Ok(img)
  {
    assert IsToken("P5");
    var raw := seq(|img.pixels|, k requires 0 <= k < |img.pixels| => img.pixels[k] as Byte);
    HeaderRoundTrip("P5", comments, img.width, img.height, img.maxVal, raw);
    assert raw == img.pixels;
  }

  /** The same image written in either variant decodes to the same value. */
  lemma PlainAndRawAgree(img: Image, comments: seq<string>)
    requires RawWritable(img)
    requires forall k :: 0 <= k < |comments| ==> IsComment(comments[k])
    ensures ReadPgm(EncodeP2(img, comments)) == ReadPgm(EncodeP5(img, comments))
  {
    P2RoundTrip(img, comments);
    P5RoundTrip(img, comments);
  }

  /**
   * A well-formed header with any magic token other than P2 or P5 is rejected
   * with UnsupportedFormat naming that token, whatever follows it.
   */
  lemma OtherMagicRejected(magic: string, comments: seq<string>, width: nat, height: nat, maxVal: nat, body: seq<Byte>)
    requires IsToken(magic) && magic != "P2" && magic != "P5"
    requires forall k :: 0 <= k < |comments| ==> IsComment(comments[k])
    ensures ReadPgm(EncodeHeader(magic, comments, width, height, maxVal) + body) == Err(UnsupportedFormat(magic))
  {
    HeaderRoundTrip(magic, comments, width, height, maxVal, body);
  }
}
