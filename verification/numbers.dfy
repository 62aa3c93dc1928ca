/**
 * Integer arithmetic and integer text as the converter uses them: Python's
 * `int()` on a token, decimal printing of naturals for generated code, and
 * `int()` applied to an exact quotient (truncation toward zero).
 */
module Numbers {
  import opened Results

  function Abs(a: int): nat {
    if a < 0 then -a else a
  }

  function Min(a: int, b: int): int {
    if a <= b then a else b
  }

  function Max(a: int, b: int): int {
    if a <= b then b else a
  }

  /**
   * `int(a / b)` for an exact rational quotient: the quotient rounded toward
   * zero. (Dafny's own `/` rounds toward negative infinity for b > 0.)
   */
  function TruncDiv(a: int, b: int): (q: int)
    requires b != 0
    ensures 0 <= a && 0 < b ==> q == a / b
    ensures (a < 0) == (b < 0) ==> q >= 0
    ensures (a < 0) != (b < 0) ==> q <= 0
    ensures Abs(q) == Abs(a) / Abs(b)
  {
    if 0 <= a && 0 < b then NatDiv(a, b)
    else if a < 0 && 0 < b then -(NatDiv(-a, b) as int)
    else if 0 <= a then -(NatDiv(a, -b) as int)
    else NatDiv(-a, -b)
  }

  function NatDiv(n: nat, d: nat): nat
    requires 0 < d
  {
    n / d
  }

  predicate IsDigit(c: char) {
    '0' <= c <= '9'
  }

  predicate AllDigits(s: string) {
    forall i :: 0 <= i < |s| ==> IsDigit(s[i])
  }

  function DigitValue(c: char): nat
    requires IsDigit(c)
  {
    c as int - '0' as int
  }

  function DigitChar(d: nat): (c: char)
    requires d < 10
    ensures IsDigit(c) && DigitValue(c) == d
  {
    ('0' as int + d) as char
  }

  /** The value of a string of decimal digits, most significant digit first. */
  function DecimalValue(s: string): nat
    requires AllDigits(s)
  {
    if |s| == 0 then 0 else 10 * DecimalValue(s[..|s| - 1]) + DigitValue(s[|s| - 1])
  }

  /**
   * Decimal text of a natural number, as an f-string `{n}` prints it:
   * digits only, no leading zero, and denoting n.
   */
  function NatToString(n: nat): (s: string)
    ensures 0 < |s| && AllDigits(s)
    ensures |s| == 1 || s[0] != '0'
    ensures n == 0 ==> s == "0"
    ensures DecimalValue(s) == n
  {
    if n < 10 then [DigitChar(n)]
    else
      var prefix := NatToString(n / 10);
      var s := prefix + [DigitChar(n % 10)];
      assert s[..|s| - 1] == prefix;
      s
  }

  /**
   * The digit part Python's `int()` accepts: decimal digits, where single
   * underscores may separate two digits ("1_000").
   */
  predicate IsDigitGroups(s: string) {
    && 0 < |s|
    && IsDigit(s[0])
    && IsDigit(s[|s| - 1])
    && (forall i :: 0 <= i < |s| ==> IsDigit(s[i]) || s[i] == '_')
    && (forall i :: 0 <= i < |s| - 1 && s[i] == '_' ==> IsDigit(s[i + 1]))
  }

  function RemoveUnderscores(s: string): (r: string)
    requires forall i :: 0 <= i < |s| ==> IsDigit(s[i]) || s[i] == '_'
    ensures AllDigits(r)
    ensures AllDigits(s) ==> r == s
    ensures |r| <= |s|
  {
    if |s| == 0 then ""
    else if s[0] == '_' then RemoveUnderscores(s[1..])
    else [s[0]] + RemoveUnderscores(s[1..])
  }

  /**
   * Removing underscores works piece by piece: the digits of a grouped token
   * are the digits of its groups, in order ("1_000" has the digits "1000").
   */
  lemma {:induction false} RemoveUnderscoresConcat(a: string, b: string)
    requires forall i :: 0 <= i < |a| ==> IsDigit(a[i]) || a[i] == '_'
    requires forall i :: 0 <= i < |b| ==> IsDigit(b[i]) || b[i] == '_'
    ensures RemoveUnderscores(a + b) == RemoveUnderscores(a) + RemoveUnderscores(b)
    decreases |a|
  {
    if |a| == 0 {
      assert a + b == b;
    } else {
      assert (a + b)[0] == a[0] && (a + b)[1..] == a[1..] + b;
      RemoveUnderscoresConcat(a[1..], b);
      var ra, rb := RemoveUnderscores(a[1..]), RemoveUnderscores(b);
      assert [a[0]] + (ra + rb) == ([a[0]] + ra) + rb;
    }
  }

  /**
   * Python's `int()` on a token free of surrounding whitespace: an optional
   * sign followed by digit groups; anything else is a ValueError (None).
   */
  function ParseInt(s: string): (r: Option<int>)
    ensures r.Some? ==> 0 < |s| && forall i :: 0 <= i < |s| ==> IsDigit(s[i]) || s[i] in "_+-"
    ensures r.Some? <==> IsDigitGroups(s) || (0 < |s| && (s[0] == '+' || s[0] == '-') && IsDigitGroups(s[1..]))
    ensures 0 < |s| && AllDigits(s) ==> r == Some(DecimalValue(s))
    ensures 1 < |s| && s[0] == '-' && AllDigits(s[1..]) ==> r == Some(-(DecimalValue(s[1..]) as int))
    ensures 1 < |s| && s[0] == '+' && AllDigits(s[1..]) ==> r == Some(DecimalValue(s[1..]))
    ensures IsDigitGroups(s) ==> r == Some(DecimalValue(RemoveUnderscores(s)))
    ensures 0 < |s| && s[0] == '-' && IsDigitGroups(s[1..]) ==> r == Some(-(DecimalValue(RemoveUnderscores(s[1..])) as int))
    ensures 0 < |s| && s[0] == '+' && IsDigitGroups(s[1..]) ==> r == Some(DecimalValue(RemoveUnderscores(s[1..])))
  {
    if 0 < |s| && (s[0] == '+' || s[0] == '-') then
      var body := s[1..];
      if IsDigitGroups(body) then
        var v: int := DecimalValue(RemoveUnderscores(body));
        var signed: int := if s[0] == '-' then -v else v;
        Some(signed)
      else None
    else if IsDigitGroups(s) then Some(DecimalValue(RemoveUnderscores(s)))
    else None
  }

  lemma MulMonotone(d: int, x: int, y: int)
    requires 0 <= d && x <= y
    ensures d * x <= d * y
  {
    assert d * y - d * x == d * (y - x);
  }

  /** Cancelling a positive factor from a strict inequality. */
  lemma MulCancel(d: int, x: int, y: int)
    requires 0 < d
    ensures d * x < d * y ==> x < y
  {
    if y <= x {
      MulMonotone(d, y, x);
    }
  }

  lemma DivBelow(a: int, d: int, c: int)
    requires 0 <= a && 0 < d
    ensures a < d * c ==> a / d < c
  {
    var q, r := a / d, a % d;
    assert a == d * q + r && 0 <= r;
    MulCancel(d, q, c);
  }

  lemma DivAtLeast(a: int, d: int, c: int)
    requires 0 < d
    ensures d * c <= a ==> c <= a / d
  {
    var q, r := a / d, a % d;
    assert a == d * q + r && r < d;
    assert d * (q + 1) == d * q + d;
    MulCancel(d, c, q + 1);
  }

  lemma DivMonotone(a: int, b: int, d: int)
    requires 0 < d
    ensures a <= b ==> a / d <= b / d
  {
    var qa, ra, qb, rb := a / d, a % d, b / d, b % d;
    assert a == d * qa + ra && 0 <= ra;
    assert b == d * qb + rb && rb < d;
    assert d * (qb + 1) == d * qb + d;
    MulCancel(d, qa, qb + 1);
  }
}
