/**
 * The byte- and string-level primitives the PGM reader is built from, each
 * with the meaning the Python runtime gives it: `readline()` on a binary
 * file, `bytes.decode('ascii')`, `split()` and `strip()` without arguments.
 */
module Text {
  import opened Results

  type Byte = b: int | 0 <= b < 256

  const NEWLINE: Byte := 10

  /** Bytes that `bytes.split()` treats as whitespace. */
  predicate IsByteSpace(b: Byte) {
    b == 32 || 9 <= b <= 13
  }

  /** ASCII characters that `str.split()` and `str.strip()` treat as whitespace. */
  predicate IsStrSpace(c: char) {
    c == ' ' || 9 <= c as int <= 13 || 28 <= c as int <= 31
  }

  predicate IsAscii(s: string) {
    forall i :: 0 <= i < |s| ==> s[i] as int < 128
  }

  /** `bytes.decode('ascii')`: one character per byte, failing on any byte >= 128. */
  function DecodeAscii(bs: seq<Byte>): (r: Option<string>)
    ensures r.Some? <==> forall i :: 0 <= i < |bs| ==> bs[i] < 128
    ensures r.Some? ==> |r.value| == |bs| && forall i :: 0 <= i < |bs| ==> r.value[i] as int == bs[i]
  {
    if forall i :: 0 <= i < |bs| ==> bs[i] < 128 then
      Some(seq(|bs|, i requires 0 <= i < |bs| => bs[i] as char))
    else None
  }

  /** `str.encode('ascii')` on an ASCII string. */
  function EncodeAscii(s: string): (bs: seq<Byte>)
    requires IsAscii(s)
    ensures |bs| == |s| && forall i :: 0 <= i < |s| ==> bs[i] == s[i] as int
  {
    seq(|s|, i requires 0 <= i < |s| => s[i] as int as Byte)
  }

  lemma DecodeEncodeAscii(s: string)
    requires IsAscii(s)
    ensures DecodeAscii(EncodeAscii(s)) == Some(s)
  {
    var r := DecodeAscii(EncodeAscii(s));
    assert r.Some?;
    assert r.value == s;
  }

  /**
   * `readline()` on a binary file: the bytes up to and including the first
   * newline, or everything that is left when there is none.
   */
  function ReadLine(data: seq<Byte>): (r: (seq<Byte>, seq<Byte>))
    ensures r.0 + r.1 == data
    ensures 0 < |data| ==> 0 < |r.0|
    ensures forall i :: 0 <= i < |r.0| - 1 ==> r.0[i] != NEWLINE
    ensures (0 < |r.0| && r.0[|r.0| - 1] == NEWLINE) || (r.1 == [] && NEWLINE !in r.0)
  {
    if |data| == 0 then ([], [])
    else if data[0] == NEWLINE then ([data[0]], data[1..])
    else
      var tail := ReadLine(data[1..]);
      assert data == [data[0]] + data[1..];
      ([data[0]] + tail.0, tail.1)
  }

  /** A line written with a terminating newline is read back whole. */
  lemma {:induction false} ReadLineOfLine(line: seq<Byte>, rest: seq<Byte>)
    requires NEWLINE !in line
    ensures ReadLine(line + [NEWLINE] + rest) == (line + [NEWLINE], rest)
  {
    var data := line + [NEWLINE] + rest;
    if |line| > 0 {
      assert data[0] == line[0] != NEWLINE;
      assert data[1..] == line[1..] + [NEWLINE] + rest;
      ReadLineOfLine(line[1..], rest);
      var tail := ReadLine(data[1..]);
      assert tail == (line[1..] + [NEWLINE], rest);
      assert ReadLine(data) == ([data[0]] + tail.0, tail.1);
      assert [line[0]] + line[1..] == line;
      assert [data[0]] + tail.0 == line + [NEWLINE];
    } else {
      assert data == [NEWLINE] + rest;
    }
  }

  /** Length of the maximal run of non-space elements at the front of s. */
  function TokenLength<T>(s: seq<T>, isSpace: T -> bool): (n: nat)
    ensures n <= |s|
    ensures forall j :: 0 <= j < n ==> !isSpace(s[j])
    ensures n < |s| ==> isSpace(s[n])
  {
    if |s| == 0 || isSpace(s[0]) then 0 else 1 + TokenLength(s[1..], isSpace)
  }

  /**
   * `split()` without a separator: the maximal runs of non-space elements,
   * in order; leading, trailing and repeated spaces produce no empty token.
   */
  function Split<T>(s: seq<T>, isSpace: T -> bool): (r: seq<seq<T>>)
    ensures forall k :: 0 <= k < |r| ==> 0 < |r[k]|
    ensures forall k, j :: 0 <= k < |r| && 0 <= j < |r[k]| ==> !isSpace(r[k][j])
    decreases |s|
  {
    if |s| == 0 then []
    else if isSpace(s[0]) then Split(s[1..], isSpace)
    else
      var n := TokenLength(s, isSpace);
      [s[..n]] + Split(s[n..], isSpace)
  }

  lemma {:induction false} TokenLengthAppend<T>(a: seq<T>, b: seq<T>, isSpace: T -> bool)
    requires 0 < |a| && isSpace(a[|a| - 1])
    ensures TokenLength(a + b, isSpace) == TokenLength(a, isSpace)
  {
    if !isSpace(a[0]) {
      assert (a + b)[1..] == a[1..] + b;
      TokenLengthAppend(a[1..], b, isSpace);
    }
  }

  /**
   * Splitting text that ends in a space is the same as splitting its two
   * halves: tokens never straddle a space.
   */
  lemma {:induction false} SplitAppend<T>(a: seq<T>, b: seq<T>, isSpace: T -> bool)
    requires 0 < |a| ==> isSpace(a[|a| - 1])
    ensures Split(a + b, isSpace) == Split(a, isSpace) + Split(b, isSpace)
    decreases |a|
  {
    if |a| == 0 {
      assert a + b == b;
    } else if isSpace(a[0]) {
      SplitSpaceHead(a, b, isSpace);
      SplitAppend(a[1..], b, isSpace);
    } else {
      var n := TokenLength(a, isSpace);
      SplitTokenHead(a, b, isSpace);
      SplitAppend(a[n..], b, isSpace);
      ConsAppend(a[..n], Split(a[n..], isSpace), Split(b, isSpace));
    }
  }

  /** Putting an element in front commutes with appending. */
  lemma ConsAppend<T>(v: T, x: seq<T>, y: seq<T>)
    ensures [v] + (x + y) == ([v] + x) + y
  {
  }

  lemma SplitSpaceHead<T>(a: seq<T>, b: seq<T>, isSpace: T -> bool)
    requires 0 < |a| && isSpace(a[0])
    ensures Split(a, isSpace) == Split(a[1..], isSpace)
    ensures Split(a + b, isSpace) == Split(a[1..] + b, isSpace)
  {
    assert (a + b)[1..] == a[1..] + b;
  }

  /** The first token of a + b is the first token of a when a ends in a space. */
  lemma SplitTokenHead<T>(a: seq<T>, b: seq<T>, isSpace: T -> bool)
    requires 0 < |a| && !isSpace(a[0]) && isSpace(a[|a| - 1])
    ensures TokenLength(a, isSpace) < |a|
    ensures Split(a, isSpace) == [a[..TokenLength(a, isSpace)]] + Split(a[TokenLength(a, isSpace)..], isSpace)
    ensures Split(a + b, isSpace)
      == [a[..TokenLength(a, isSpace)]] + Split(a[TokenLength(a, isSpace)..] + b, isSpace)
  {
    TokenLengthAppend(a, b, isSpace);
    var n := TokenLength(a, isSpace);
    assert (a + b)[..n] == a[..n];
    assert (a + b)[n..] == a[n..] + b;
  }

  /** A token followed by one space splits to that token alone. */
  lemma SplitToken<T>(t: seq<T>, space: T, isSpace: T -> bool)
    requires 0 < |t| && forall j :: 0 <= j < |t| ==> !isSpace(t[j])
    requires isSpace(space)
    ensures Split(t + [space], isSpace) == [t]
  {
    var s := t + [space];
    TokenLengthOfToken(t, space, isSpace);
    assert s[..|t|] == t;
    assert s[|t|..] == [space];
    assert Split([space], isSpace) == Split([space][1..], isSpace);
  }

  /** Whitespace alone has no tokens. */
  lemma {:induction false} SplitOfSpaces<T>(s: seq<T>, isSpace: T -> bool)
    requires forall j :: 0 <= j < |s| ==> isSpace(s[j])
    ensures Split(s, isSpace) == []
    decreases |s|
  {
    if |s| > 0 {
      SplitOfSpaces(s[1..], isSpace);
    }
  }

  /** A token followed by any amount of whitespace, possibly none, splits to that token alone. */
  lemma {:induction false} SplitTokenThenSpaces<T>(t: seq<T>, s: seq<T>, isSpace: T -> bool)
    requires 0 < |t| && forall j :: 0 <= j < |t| ==> !isSpace(t[j])
    requires forall j :: 0 <= j < |s| ==> isSpace(s[j])
    ensures Split(t + s, isSpace) == [t]
  {
    if |s| == 0 {
      assert t + s == t;
      SplitBareToken(t, isSpace);
    } else {
      var head, tail := t + [s[0]], s[1..];
      assert t + s == head + tail;
      SplitAppend(head, tail, isSpace);
      SplitToken(t, s[0], isSpace);
      SplitOfSpaces(tail, isSpace);
      assert Split(head, isSpace) + Split(tail, isSpace) == [t];
    }
  }

  /** Regrouping of the five pieces of a two-token line. */
  lemma Regroup<T>(s1: seq<T>, a: seq<T>, s2: seq<T>, b: seq<T>, s3: seq<T>)
    ensures s1 + a + s2 + b + s3 == s1 + ((a + s2) + (b + s3))
  {
  }

  /** Leading whitespace does not change the tokens. */
  lemma SplitLeadingSpaces<T>(s1: seq<T>, t: seq<T>, isSpace: T -> bool)
    requires forall j :: 0 <= j < |s1| ==> isSpace(s1[j])
    ensures Split(s1 + t, isSpace) == Split(t, isSpace)
  {
    SplitAppend(s1, t, isSpace);
    SplitOfSpaces(s1, isSpace);
    assert [] + Split(t, isSpace) == Split(t, isSpace);
  }

  /** A token and the whitespace after it contribute that token, and splitting goes on after them. */
  lemma SplitSpacedTokenThen<T>(a: seq<T>, s2: seq<T>, rest: seq<T>, isSpace: T -> bool)
    requires 0 < |a| && forall j :: 0 <= j < |a| ==> !isSpace(a[j])
    requires 0 < |s2| && forall j :: 0 <= j < |s2| ==> isSpace(s2[j])
    ensures Split((a + s2) + rest, isSpace) == [a] + Split(rest, isSpace)
  {
    var first := a + s2;
    assert first[|first| - 1] == s2[|s2| - 1];
    SplitAppend(first, rest, isSpace);
    SplitTokenThenSpaces(a, s2, isSpace);
  }

  /** Two tokens, each followed by whitespace, split into exactly those tokens. */
  lemma SplitTwoSpacedTokens<T>(a: seq<T>, s2: seq<T>, b: seq<T>, s3: seq<T>, isSpace: T -> bool)
    requires 0 < |a| && forall j :: 0 <= j < |a| ==> !isSpace(a[j])
    requires 0 < |s2| && forall j :: 0 <= j < |s2| ==> isSpace(s2[j])
    requires 0 < |b| && forall j :: 0 <= j < |b| ==> !isSpace(b[j])
    requires forall j :: 0 <= j < |s3| ==> isSpace(s3[j])
    ensures Split((a + s2) + (b + s3), isSpace) == [a, b]
  {
    SplitSpacedTokenThen(a, s2, b + s3, isSpace);
    SplitTokenThenSpaces(b, s3, isSpace);
    assert [a] + [b] == [a, b];
  }

  /** Two tokens with whitespace around and between them split into exactly those tokens. */
  lemma SplitTwoTokens<T>(s1: seq<T>, a: seq<T>, s2: seq<T>, b: seq<T>, s3: seq<T>, isSpace: T -> bool)
    requires forall j :: 0 <= j < |s1| ==> isSpace(s1[j])
    requires 0 < |a| && forall j :: 0 <= j < |a| ==> !isSpace(a[j])
    requires 0 < |s2| && forall j :: 0 <= j < |s2| ==> isSpace(s2[j])
    requires 0 < |b| && forall j :: 0 <= j < |b| ==> !isSpace(b[j])
    requires forall j :: 0 <= j < |s3| ==> isSpace(s3[j])
    ensures Split(s1 + a + s2 + b + s3, isSpace) == [a, b]
  {
    Regroup(s1, a, s2, b, s3);
    SplitLeadingSpaces(s1, (a + s2) + (b + s3), isSpace);
    SplitTwoSpacedTokens(a, s2, b, s3, isSpace);
  }

  lemma {:induction false} SplitBareToken<T>(t: seq<T>, isSpace: T -> bool)
    requires 0 < |t| && forall j :: 0 <= j < |t| ==> !isSpace(t[j])
    ensures Split(t, isSpace) == [t]
  {
    TokenLengthOfBareToken(t, isSpace);
    assert t[..|t|] == t;
    assert t[|t|..] == [];
  }

  lemma {:induction false} TokenLengthOfBareToken<T>(t: seq<T>, isSpace: T -> bool)
    requires forall j :: 0 <= j < |t| ==> !isSpace(t[j])
    ensures TokenLength(t, isSpace) == |t|
    decreases |t|
  {
    if |t| > 0 {
      TokenLengthOfBareToken(t[1..], isSpace);
    }
  }

  lemma {:induction false} TokenLengthOfToken<T>(t: seq<T>, space: T, isSpace: T -> bool)
    requires forall j :: 0 <= j < |t| ==> !isSpace(t[j])
    requires isSpace(space)
    ensures TokenLength(t + [space], isSpace) == |t|
  {
    if |t| > 0 {
      assert (t + [space])[1..] == t[1..] + [space];
      TokenLengthOfToken(t[1..], space, isSpace);
    }
  }

  function StripStart<T>(s: seq<T>, isSpace: T -> bool): (r: seq<T>)
    ensures |r| <= |s| && r == s[|s| - |r|..]
    ensures |r| == 0 || !isSpace(r[0])
    ensures forall j :: 0 <= j < |s| - |r| ==> isSpace(s[j])
  {
    if |s| == 0 || !isSpace(s[0]) then s else StripStart(s[1..], isSpace)
  }

  function StripEnd<T>(s: seq<T>, isSpace: T -> bool): (r: seq<T>)
    ensures |r| <= |s| && r == s[..|r|]
    ensures |r| == 0 || !isSpace(r[|r| - 1])
    ensures forall j :: |r| <= j < |s| ==> isSpace(s[j])
  {
    if |s| == 0 || !isSpace(s[|s| - 1]) then s else StripEnd(s[..|s| - 1], isSpace)
  }

  /**
   * `strip()` without arguments: s with its leading and trailing spaces cut
   * away, so that what is left neither starts nor ends with a space.
   */
  function Strip<T>(s: seq<T>, isSpace: T -> bool): (r: seq<T>)
    ensures |r| <= |s|
    ensures |r| == 0 || (!isSpace(r[0]) && !isSpace(r[|r| - 1]))
    ensures |r| == 0 <==> forall j :: 0 <= j < |s| ==> isSpace(s[j])
  {
    var front := StripStart(s, isSpace);
    var r := StripEnd(front, isSpace);
    assert |r| > 0 ==> !isSpace(front[0]) && front[0] == r[0];
    r
  }

  /** A word followed by a space strips back to the word. */
  lemma StripWord<T>(w: seq<T>, space: T, isSpace: T -> bool)
    requires 0 < |w| && !isSpace(w[0]) && !isSpace(w[|w| - 1])
    requires isSpace(space)
    ensures Strip(w + [space], isSpace) == w
  {
    var s := w + [space];
    assert StripStart(s, isSpace) == s;
    assert s[..|s| - 1] == w;
  }
}
