/**
 * rawurlencode (RFC 3986 percent-encoding, upper-case hex) and the
 * percent-decoding that undoes it, byte by byte.
 */
module UrlEncoding {
  import opened Php

  /** The unreserved characters of RFC 3986, section 2.3: rawurlencode keeps them as they are. */
  predicate IsUnreserved(c: Byte)
  {
    ('A' <= c <= 'Z') || ('a' <= c <= 'z') || ('0' <= c <= '9') || c == '-' || c == '_' || c == '.' || c == '~'
  }

  /** The upper-case hexadecimal digit for d. */
  function HexDigit(d: nat): (c: Byte)
    requires d < 16
    ensures IsHexDigit(c)
  {
    if d < 10 then (48 + d) as char else (55 + d) as char
  }

  predicate IsHexDigit(c: Byte)
  {
    ('0' <= c <= '9') || ('A' <= c <= 'F') || ('a' <= c <= 'f')
  }

  function HexValue(c: Byte): (d: nat)
    requires IsHexDigit(c)
    ensures d < 16
  {
    if c <= '9' then c as int - 48 else if c <= 'F' then c as int - 55 else c as int - 87
  }

  /** What rawurlencode writes for one byte: the byte itself or "%XY". */
  function RawByte(c: Byte): (t: Str)
    ensures |t| == 1 || |t| == 3
    ensures |t| == 1 <==> IsUnreserved(c)
    ensures |t| == 1 ==> t == [c]
    ensures |t| == 3 ==> t[0] == '%' && IsHexDigit(t[1]) && IsHexDigit(t[2])
    ensures |t| == 3 ==> HexValue(t[1]) * 16 + HexValue(t[2]) == c as int
  {
    if IsUnreserved(c) then [c] else ['%', HexDigit(c as int / 16), HexDigit(c as int % 16)]
  }

  /** rawurlencode($s) */
  function RawUrlEncode(s: Str): Str
    decreases |s|
  {
    if s == [] then [] else RawByte(s[0]) + RawUrlEncode(s[1..])
  }

  lemma {:induction false} RawUrlEncodeAppend(a: Str, b: Str)
    ensures RawUrlEncode(a + b) == RawUrlEncode(a) + RawUrlEncode(b)
    decreases |a|
  {
    if a == [] {
      assert a + b == b;
    } else {
      var ab := a + b;
      assert ab[0] == a[0] && ab[1..] == a[1..] + b;
      RawUrlEncodeAppend(a[1..], b);
      ConcatAssoc(RawByte(a[0]), RawUrlEncode(a[1..]), RawUrlEncode(b));
    }
  }

  /** Every byte rawurlencode writes is unreserved or part of a "%XY" escape. */
  lemma {:induction false} RawUrlEncodeAlphabet(s: Str)
    ensures forall i :: 0 <= i < |RawUrlEncode(s)| ==>
      IsUnreserved(RawUrlEncode(s)[i]) || RawUrlEncode(s)[i] == '%' || IsHexDigit(RawUrlEncode(s)[i])
    decreases |s|
  {
    if s != [] {
      RawUrlEncodeAlphabet(s[1..]);
      var t := RawByte(s[0]);
      var e := RawUrlEncode(s);
      assert e == t + RawUrlEncode(s[1..]);
      forall i | 0 <= i < |e|
        ensures IsUnreserved(e[i]) || e[i] == '%' || IsHexDigit(e[i])
      {
        if i >= |t| {
          assert e[i] == RawUrlEncode(s[1..])[i - |t|];
        }
      }
    }
  }

  /**
   * Percent-decoding: "%XY" (either case of hex digit) becomes the byte XY;
   * with plusIsSpace, '+' becomes a space (urldecode), otherwise it stays
   * (rawurldecode).
   */
  function PercentDecode(t: Str, plusIsSpace: bool): Str
    decreases |t|
  {
    if t == [] then []
    else if t[0] == '%' && |t| >= 3 && IsHexDigit(t[1]) && IsHexDigit(t[2]) then
      [(HexValue(t[1]) * 16 + HexValue(t[2])) as char] + PercentDecode(t[3..], plusIsSpace)
    else if plusIsSpace && t[0] == '+' then [' '] + PercentDecode(t[1..], plusIsSpace)
    else [t[0]] + PercentDecode(t[1..], plusIsSpace)
  }

  /** Decoding the encoding of one byte gives the byte back, whatever follows. */
  lemma DecodeRawByte(c: Byte, rest: Str, plusIsSpace: bool)
    ensures PercentDecode(RawByte(c) + rest, plusIsSpace) == [c] + PercentDecode(rest, plusIsSpace)
  {
    var t := RawByte(c) + rest;
    if IsUnreserved(c) {
      assert t[1..] == rest;
    } else {
      assert t[3..] == rest;
    }
  }

  /** rawurldecode(rawurlencode($s)) == $s */
  lemma {:induction false} RawUrlDecodeEncode(s: Str, plusIsSpace: bool)
    ensures PercentDecode(RawUrlEncode(s), plusIsSpace) == s
    decreases |s|
  {
    if s != [] {
      DecodeRawByte(s[0], RawUrlEncode(s[1..]), plusIsSpace);
      RawUrlDecodeEncode(s[1..], plusIsSpace);
      assert s == [s[0]] + s[1..];
    }
  }

  lemma PercentDecodeAppendByte(c: Byte, rest: Str, plusIsSpace: bool)
    requires c != '%' && !(plusIsSpace && c == '+')
    ensures PercentDecode([c] + rest, plusIsSpace) == [c] + PercentDecode(rest, plusIsSpace)
  {
    assert ([c] + rest)[1..] == rest;
  }
}
