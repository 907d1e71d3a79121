/**
  Tk geometry strings "WxH+X+Y" as the two `center` functions read and write
  them: Python's "%d" formatting, `str.split` on one character, `int()` on a
  byte string, and the centring offset computed with floor division.
 */
module Geometry {
  import opened Wrappers

  /** The Python exceptions the geometry code can raise. */
  datatype PyError = ValueError | IndexError | TypeError

  predicate IsDigit(c: char) {
    '0' <= c <= '9'
  }

  predicate AllDigits(s: string) {
    forall i :: 0 <= i < |s| ==> IsDigit(s[i])
  }

  /** The characters C's isspace accepts, which int() skips around a number. */
  predicate IsSpace(c: char) {
    c == ' ' || c == '\t' || c == '\n' || c == '\r' || c as int == 0x0B || c as int == 0x0C
  }

  function DigitChar(d: nat): (c: char)
    requires d < 10
    ensures IsDigit(c) && c as int - '0' as int == d
  {
    ('0' as int + d) as char
  }

  /** The number a string of decimal digits denotes. */
  function DigitsValue(s: string): nat
    requires AllDigits(s)
  {
    if |s| == 0 then 0 else DigitsValue(s[..|s| - 1]) * 10 + (s[|s| - 1] as int - '0' as int)
  }

  /** The decimal digits of n, without leading zeros. */
  function NatToString(n: nat): (s: string)
    ensures |s| > 0 && AllDigits(s) && DigitsValue(s) == n
    ensures |s| > 1 ==> s[0] != '0'
  {
    if n < 10 then [DigitChar(n)]
    else
      var prefix := NatToString(n / 10);
      var s := prefix + [DigitChar(n % 10)];
      assert s[..|s| - 1] == prefix;
      s
  }

  /** `"%d" % n`: a minus sign for negative numbers, then the digits of |n|. */
  function FormatInt(n: int): (s: string)
    ensures |s| > 0 && !IsSpace(s[0]) && !IsSpace(s[|s| - 1])
    ensures IsDigit(s[|s| - 1])
    ensures forall i :: 0 <= i < |s| ==> IsDigit(s[i]) || (i == 0 && s[i] == '-')
  {
    if n < 0 then "-" + NatToString(-n) else NatToString(n)
  }

  function TrimLeft(s: string): (r: string)
    ensures |r| > 0 ==> !IsSpace(r[0])
  {
    if |s| > 0 && IsSpace(s[0]) then TrimLeft(s[1..]) else s
  }

  function TrimRight(s: string): (r: string)
    ensures |r| > 0 ==> !IsSpace(r[|r| - 1])
  {
    if |s| > 0 && IsSpace(s[|s| - 1]) then TrimRight(s[..|s| - 1]) else s
  }

  /**
    `int(s)` for a byte string in base 10, as Python 2 reads it: white space
    around the number and between the sign and the digits is skipped, the sign
    is optional and at least one digit is required; anything else is a
    ValueError (None here).
   */
  function ParseInt(s: string): Option<int> {
    var t := TrimRight(TrimLeft(s));
    if |t| > 0 && (t[0] == '+' || t[0] == '-') then
      var digits := TrimLeft(t[1..]);
      if |digits| > 0 && AllDigits(digits) then
        var v: int := DigitsValue(digits);
        Some(if t[0] == '-' then -v else v)
      else None
    else if |t| > 0 && AllDigits(t) then Some(DigitsValue(t))
    else None
  }

  /** int() reads back what "%d" writes. */
  lemma ParseFormatInt(n: int)
    ensures ParseInt(FormatInt(n)) == Some(n)
  {
    var s := FormatInt(n);
    assert TrimLeft(s) == s;
    assert TrimRight(s) == s;
    if n < 0 {
      var digits := NatToString(-n);
      assert s[1..] == digits;
      assert TrimLeft(digits) == digits;
    }
  }

  /** `s.split(sep)` for a one-character separator: the pieces between the separators. */
  function Split(s: string, sep: char): (r: seq<string>)
    ensures |r| >= 1
    ensures forall i :: 0 <= i < |r| ==> sep !in r[i]
    ensures Join(r, sep) == s
  {
    if |s| == 0 then [""]
    else
      var rest := Split(s[1..], sep);
      if s[0] == sep then
        assert [sep] + s[1..] == s;
        [""] + rest
      else
        var r := [[s[0]] + rest[0]] + rest[1..];
        assert [s[0]] + s[1..] == s;
        assert r[1..] == rest[1..];
        r
  }

  /** `sep.join(pieces)`, the inverse of Split. */
  function Join(pieces: seq<string>, sep: char): string
    requires |pieces| >= 1
  {
    if |pieces| == 1 then pieces[0] else pieces[0] + [sep] + Join(pieces[1..], sep)
  }

  lemma {:induction false} SplitWithoutSeparator(s: string, sep: char)
    requires sep !in s
    ensures Split(s, sep) == [s]
  {
    if |s| > 0 {
      SplitWithoutSeparator(s[1..], sep);
      assert [s[0]] + s[1..] == s;
    }
  }

  /** Splitting at the first separator gives the text before it, then the split of the rest. */
  lemma {:induction false} SplitAtFirst(a: string, b: string, sep: char)
    requires sep !in a
    ensures Split(a + [sep] + b, sep) == [a] + Split(b, sep)
  {
    var s := a + [sep] + b;
    if |a| == 0 {
      assert s[1..] == b;
    } else {
      assert s[1..] == a[1..] + [sep] + b;
      SplitAtFirst(a[1..], b, sep);
      assert [a[0]] + a[1..] == a;
    }
  }

  /** Converting every piece with `int()`, in order: the first piece that is not a number raises ValueError. */
  function ParseAll(pieces: seq<string>): (r: Result<seq<int>, PyError>)
    ensures r.Success? ==> |r.value| == |pieces|
    ensures r.Success? <==> forall i :: 0 <= i < |pieces| ==> ParseInt(pieces[i]).Some?
    ensures r.Failure? ==> r.error == ValueError
    ensures r.Success? ==> forall i :: 0 <= i < |pieces| ==> r.value[i] == ParseInt(pieces[i]).value
  {
    if |pieces| == 0 then Success([])
    else
      match ParseInt(pieces[0])
      case None => Failure(ValueError)
      case Some(n) =>
        match ParseAll(pieces[1..])
        case Failure(e) => Failure(e)
        case Success(ns) => Success([n] + ns)
  }

  /** The size part of a geometry string: the text before the first '+', split at each 'x', each piece converted with `int()`. */
  function ParseSize(geometry: string): Result<seq<int>, PyError> {
    ParseAll(Split(Split(geometry, '+')[0], 'x'))
  }

  /** The geometry string of a window of the given size placed at offset (x, y). */
  function FormatGeometry(width: int, height: int, x: int, y: int): string {
    FormatInt(width) + "x" + FormatInt(height) + "+" + FormatInt(x) + "+" + FormatInt(y)
  }

  /** `"+%d+%d" % (x, y)`: a position without a size, as a tooltip is placed. */
  function FormatPosition(x: int, y: int): string {
    "+" + FormatInt(x) + "+" + FormatInt(y)
  }

  /** "%d" writes neither of the two separators of a geometry string. */
  lemma FormatIntHasNoSeparator(n: int)
    ensures 'x' !in FormatInt(n) && '+' !in FormatInt(n)
  {
    var s := FormatInt(n);
    assert forall i :: 0 <= i < |s| ==> s[i] != 'x' && s[i] != '+';
  }

  /** The pieces `center` reads from "AxB+C", when A and B hold no separator. */
  lemma SizePieces(a: string, b: string, c: string)
    requires 'x' !in a && '+' !in a && 'x' !in b && '+' !in b
    ensures Split(Split(a + ['x'] + b + ['+'] + c, '+')[0], 'x') == [a, b]
  {
    var size := a + ['x'] + b;
    assert '+' !in size;
    SplitAtFirst(size, c, '+');
    SplitAtFirst(a, b, 'x');
    SplitWithoutSeparator(b, 'x');
  }

  /** The geometry string split at its first separators. */
  lemma GeometryParts(width: int, height: int, x: int, y: int)
    ensures FormatGeometry(width, height, x, y)
         == FormatInt(width) + ['x'] + FormatInt(height) + ['+'] + (FormatInt(x) + "+" + FormatInt(y))
  {
  }

  /** Both pieces of a written size read back as the numbers written. */
  lemma ParseFormatPair(width: int, height: int)
    ensures ParseAll([FormatInt(width), FormatInt(height)]) == Success([width, height])
  {
    var w, h := FormatInt(width), FormatInt(height);
    ParseFormatInt(width);
    ParseFormatInt(height);
    var pieces := [w, h];
    assert pieces[0] == w && pieces[1] == h;
    var r := ParseAll(pieces);
    assert r.value == [width, height];
  }

  /** Reading the size back from a written geometry gives the size written, whatever the offsets. */
  lemma SizeRoundTrip(width: int, height: int, x: int, y: int)
    ensures ParseSize(FormatGeometry(width, height, x, y)) == Success([width, height])
  {
    GeometryParts(width, height, x, y);
    FormatIntHasNoSeparator(width);
    FormatIntHasNoSeparator(height);
    var g := FormatGeometry(width, height, x, y);
    SizePieces(FormatInt(width), FormatInt(height), FormatInt(x) + "+" + FormatInt(y));
    assert Split(Split(g, '+')[0], 'x') == [FormatInt(width), FormatInt(height)];
    ParseFormatPair(width, height);
  }

  /**
    The position part of a geometry string: the second and third pieces
    between the '+' separators, each converted with `int()`. A string with
    fewer than two '+' has no position (IndexError).
   */
  function ParsePosition(geometry: string): Result<seq<int>, PyError> {
    var pieces := Split(geometry, '+');
    if |pieces| < 3 then Failure(IndexError) else ParseAll([pieces[1], pieces[2]])
  }

  /** Reading the position back from a written geometry gives the offsets written, whatever the size. */
  lemma PositionRoundTrip(width: int, height: int, x: int, y: int)
    ensures ParsePosition(FormatGeometry(width, height, x, y)) == Success([x, y])
  {
    GeometryParts(width, height, x, y);
    FormatIntHasNoSeparator(width);
    FormatIntHasNoSeparator(height);
    FormatIntHasNoSeparator(x);
    FormatIntHasNoSeparator(y);
    var size := FormatInt(width) + ['x'] + FormatInt(height);
    assert '+' !in size;
    var fx, fy := FormatInt(x), FormatInt(y);
    assert FormatGeometry(width, height, x, y) == size + ['+'] + (fx + ['+'] + fy);
    SplitAtFirst(size, fx + ['+'] + fy, '+');
    SplitAtFirst(fx, fy, '+');
    SplitWithoutSeparator(fy, '+');
    assert Split(FormatGeometry(width, height, x, y), '+') == [size, fx, fy];
    ParseFormatPair(x, y);
  }

  /**
    `screen/2 - window/2` with Python 2's integer division, which floors; for
    the divisor 2 that is Dafny's `/`. The window's centre then lies within
    half a pixel of the screen's centre.
   */
  function CenterOffset(screen: int, window: int): (offset: int)
    ensures -1 <= 2 * offset + window - screen <= 1
  {
    screen / 2 - window / 2
  }
}
