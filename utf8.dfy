/**
  UTF-8 as defined in section 3 of RFC 3629: the `unicode.encode('utf-8')`
  step of `byteify`, and a strict decoder that is its inverse.
 */
module Utf8 {
  import opened Wrappers

  newtype byte = x: int | 0 <= x < 0x100

  /** A byte of the form 10xxxxxx, which continues a multi-byte sequence. */
  predicate IsContinuation(b: byte) {
    0x80 <= b < 0xC0
  }

  /** The number of bytes section 3 of RFC 3629 gives a code point. */
  function Width(n: int): nat {
    if n < 0x80 then 1 else if n < 0x800 then 2 else if n < 0x1_0000 then 3 else 4
  }

  /** The bytes of one character, cutting its code point into groups of six bits. */
  function EncodeChar(c: char): (r: seq<byte>)
    ensures |r| == Width(c as int)
    ensures |r| == 1 ==> r[0] < 0x80
    ensures |r| == 2 ==> 0xC0 <= r[0] < 0xE0
    ensures |r| == 3 ==> 0xE0 <= r[0] < 0xF0
    ensures |r| == 4 ==> 0xF0 <= r[0] < 0xF8
    ensures forall i :: 1 <= i < |r| ==> IsContinuation(r[i])
  {
    var n := c as int;
    var q1 := n / 64;
    var q2 := q1 / 64;
    var q3 := q2 / 64;
    if n < 0x80 then
      [n as byte]
    else if n < 0x800 then
      [(0xC0 + q1) as byte, (0x80 + n % 64) as byte]
    else if n < 0x1_0000 then
      [(0xE0 + q2) as byte, (0x80 + q1 % 64) as byte, (0x80 + n % 64) as byte]
    else
      [(0xF0 + q3) as byte, (0x80 + q2 % 64) as byte, (0x80 + q1 % 64) as byte, (0x80 + n % 64) as byte]
  }

  /** `s.encode('utf-8')`: the characters' byte sequences, one after another. */
  function Encode(s: string): (r: seq<byte>)
    ensures |s| <= |r| <= 4 * |s|
  {
    if s == [] then [] else EncodeChar(s[0]) + Encode(s[1..])
  }

  /** The low six bits a continuation byte carries. */
  function Low(b: byte): int {
    b as int - 0x80
  }

  /**
    The character at the front of `b` and how many bytes it takes, or None when
    the front is not a well-formed sequence: a stray continuation byte, a
    truncated sequence, an overlong form, a surrogate or a value above U+10FFFF.
   */
  function DecodeFirst(b: seq<byte>): (r: Option<(char, nat)>)
    ensures r.Some? ==> 1 <= r.value.1 <= |b|
  {
    if |b| == 0 then None
    else if b[0] < 0x80 then
      Some((b[0] as int as char, 1))
    else if 0xC0 <= b[0] < 0xE0 then
      if |b| < 2 || !IsContinuation(b[1]) then None
      else
        var n := (b[0] as int - 0xC0) * 64 + Low(b[1]);
        if n < 0x80 then None else Some((n as char, 2))
    else if 0xE0 <= b[0] < 0xF0 then
      if |b| < 3 || !IsContinuation(b[1]) || !IsContinuation(b[2]) then None
      else
        var n := ((b[0] as int - 0xE0) * 64 + Low(b[1])) * 64 + Low(b[2]);
        if n < 0x800 || (0xD800 <= n < 0xE000) then None else Some((n as char, 3))
    else if 0xF0 <= b[0] < 0xF8 then
      if |b| < 4 || !IsContinuation(b[1]) || !IsContinuation(b[2]) || !IsContinuation(b[3]) then None
      else
        var n := (((b[0] as int - 0xF0) * 64 + Low(b[1])) * 64 + Low(b[2])) * 64 + Low(b[3]);
        if n < 0x1_0000 || n > 0x10_FFFF then None else Some((n as char, 4))
    else None
  }

  /** Decodes a whole byte string, or None if any part of it is ill-formed. */
  function Decode(b: seq<byte>): Option<string>
    decreases |b|
  {
    if |b| == 0 then Some([])
    else
      match DecodeFirst(b)
      case None => None
      case Some((c, k)) =>
        match Decode(b[k..])
        case None => None
        case Some(rest) => Some([c] + rest)
  }

  /** Decoding the front of a character's encoding gives that character back. */
  lemma DecodeFirstOfEncodeChar(c: char, rest: seq<byte>)
    ensures DecodeFirst(EncodeChar(c) + rest) == Some((c, |EncodeChar(c)|))
  {
    var n := c as int;
    var q1 := n / 64;
    var q2 := q1 / 64;
    var q3 := q2 / 64;
    assert n == q1 * 64 + n % 64;
    assert q1 == q2 * 64 + q1 % 64;
    assert q2 == q3 * 64 + q2 % 64;
  }

  /** A well-formed front of `b` is exactly the encoding of the character it decodes to. */
  lemma EncodeCharOfDecodeFirst(b: seq<byte>)
    requires DecodeFirst(b).Some?
    ensures b[..DecodeFirst(b).value.1] == EncodeChar(DecodeFirst(b).value.0)
  {
    var (c, k) := DecodeFirst(b).value;
    var e := EncodeChar(c);
    var n := c as int;
    if k == 2 {
      assert n == (b[0] as int - 0xC0) * 64 + Low(b[1]);
      assert n / 64 == b[0] as int - 0xC0 && n % 64 == Low(b[1]);
      assert e == b[..2];
    } else if k == 3 {
      var q1 := (b[0] as int - 0xE0) * 64 + Low(b[1]);
      assert n == q1 * 64 + Low(b[2]);
      assert n / 64 == q1 && n % 64 == Low(b[2]);
      assert q1 / 64 == b[0] as int - 0xE0 && q1 % 64 == Low(b[1]);
      assert e == b[..3];
    } else if k == 4 {
      var q2 := (b[0] as int - 0xF0) * 64 + Low(b[1]);
      var q1 := q2 * 64 + Low(b[2]);
      assert n == q1 * 64 + Low(b[3]);
      assert n / 64 == q1 && n % 64 == Low(b[3]);
      assert q1 / 64 == q2 && q1 % 64 == Low(b[2]);
      assert q2 / 64 == b[0] as int - 0xF0 && q2 % 64 == Low(b[1]);
      assert e == b[..4];
    } else {
      assert e == b[..1];
    }
  }

  /** Round trip one way: decoding an encoding gives the string back. */
  lemma {:induction false} DecodeEncode(s: string)
    ensures Decode(Encode(s)) == Some(s)
  {
    if s != [] {
      var e := EncodeChar(s[0]);
      var tail := Encode(s[1..]);
      assert Encode(s) == e + tail;
      DecodeFirstOfEncodeChar(s[0], tail);
      assert (e + tail)[|e|..] == tail;
      DecodeEncode(s[1..]);
      assert [s[0]] + s[1..] == s;
    }
  }

  /** Round trip the other way: a byte string that decodes is the encoding of what it decodes to. */
  lemma {:induction false} EncodeDecode(b: seq<byte>)
    requires Decode(b).Some?
    ensures Encode(Decode(b).value) == b
    decreases |b|
  {
    if |b| > 0 {
      var (c, k) := DecodeFirst(b).value;
      var rest := Decode(b[k..]).value;
      assert Decode(b).value == [c] + rest;
      EncodeCharOfDecodeFirst(b);
      EncodeDecode(b[k..]);
      assert ([c] + rest)[1..] == rest;
      assert b == b[..k] + b[k..];
    }
  }

  /** Distinct strings have distinct encodings. */
  lemma EncodeInjective(s: string, t: string)
    requires Encode(s) == Encode(t)
    ensures s == t
  {
    DecodeEncode(s);
    DecodeEncode(t);
  }
}
