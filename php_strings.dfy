/**
 * PHP's byte strings and the string built-ins the bundle relies on
 * (strtolower, trim/ltrim/rtrim, explode/implode, str_replace, integer
 * to string conversion, and the byte order `ksort` uses on string keys).
 */
module Php {
  import opened Wrappers

  /** A PHP string is a sequence of bytes; byte b is written as the char with code b. */
  type Byte = c: char | c as int < 256 witness 'a'
  type Str = seq<Byte>

  // ---------------------------------------------------------------- strtolower

  predicate IsUpper(c: Byte)
  {
    'A' <= c <= 'Z'
  }

  function LowerByte(c: Byte): Byte
  {
    if IsUpper(c) then (c as int + 32) as char else c
  }

  /** strtolower: only the ASCII letters A-Z change (PHP 8 ignores the locale). */
  function ToLower(s: Str): Str
  {
    seq(|s|, i requires 0 <= i < |s| => LowerByte(s[i]))
  }

  /** strtolower keeps the length, maps each byte on its own and leaves no upper-case letter. */
  lemma ToLowerBytes(s: Str)
    ensures |ToLower(s)| == |s|
    ensures forall i :: 0 <= i < |s| ==> ToLower(s)[i] == LowerByte(s[i])
    ensures forall i :: 0 <= i < |s| ==> !IsUpper(ToLower(s)[i])
  {
  }

  /** strtolower is idempotent. */
  lemma ToLowerIdempotent(s: Str)
    ensures ToLower(ToLower(s)) == ToLower(s)
  {
    ToLowerBytes(s);
    ToLowerBytes(ToLower(s));
  }

  // ---------------------------------------------------------------- trim

  /** The bytes trim() strips when no character list is given: " \t\n\r\0\x0B". */
  const Whitespace: Str := [' ', '\t', '\n', '\r', 0 as char, 11 as char]

  /** ltrim($s, $chars): the longest suffix of s that does not start with a byte of chars. */
  function TrimLeft(s: Str, chars: Str): Str
    decreases |s|
  {
    if s != [] && s[0] in chars then TrimLeft(s[1..], chars) else s
  }

  /** ltrim removes a prefix of bytes from chars and stops at the first byte outside chars. */
  lemma {:induction false} TrimLeftSpec(s: Str, chars: Str)
    ensures |TrimLeft(s, chars)| <= |s| && TrimLeft(s, chars) == s[|s| - |TrimLeft(s, chars)|..]
    ensures forall i :: 0 <= i < |s| - |TrimLeft(s, chars)| ==> s[i] in chars
    ensures TrimLeft(s, chars) == [] || TrimLeft(s, chars)[0] !in chars
    decreases |s|
  {
    if s != [] && s[0] in chars {
      TrimLeftSpec(s[1..], chars);
    }
  }

  /** rtrim($s, $chars): the longest prefix of s that does not end with a byte of chars. */
  function TrimRight(s: Str, chars: Str): Str
    decreases |s|
  {
    if s != [] && s[|s| - 1] in chars then TrimRight(s[..|s| - 1], chars) else s
  }

  /** rtrim removes a suffix of bytes from chars and stops at the last byte outside chars. */
  lemma {:induction false} TrimRightSpec(s: Str, chars: Str)
    ensures TrimRight(s, chars) <= s
    ensures forall i :: |TrimRight(s, chars)| <= i < |s| ==> s[i] in chars
    ensures TrimRight(s, chars) == [] || TrimRight(s, chars)[|TrimRight(s, chars)| - 1] !in chars
    decreases |s|
  {
    if s != [] && s[|s| - 1] in chars {
      TrimRightSpec(s[..|s| - 1], chars);
    }
  }

  /** trim($s) with the default character list. */
  function Trim(s: Str): Str
  {
    TrimRight(TrimLeft(s, Whitespace), Whitespace)
  }

  /** Concatenation is associative; stated once so that proofs can name the step. */
  lemma ConcatAssoc<T>(a: seq<T>, b: seq<T>, c: seq<T>)
    ensures a + b + c == a + (b + c)
  {
  }

  /** A non-empty sequence is its head followed by its tail. */
  lemma ConsTail<T>(s: seq<T>)
    requires s != []
    ensures [s[0]] + s[1..] == s
  {
  }

  /** Past its head, a sequence with one element put in front is the original, one place later. */
  lemma ConsAt<T>(x: T, s: seq<T>, i: int)
    requires 1 <= i <= |s|
    ensures ([x] + s)[i] == s[i - 1]
  {
  }

  // ---------------------------------------------------------------- prefixes and suffixes

  predicate StartsWith(s: Str, prefix: Str)
  {
    prefix <= s
  }

  predicate EndsWith(s: Str, suffix: Str)
  {
    |suffix| <= |s| && s[|s| - |suffix|..] == suffix
  }

  /** substr($s, $start) for 0 <= start: "" once start passes the end. */
  function SubstrFrom(s: Str, start: nat): (r: Str)
    ensures start <= |s| ==> s == s[..start] + r
    ensures start >= |s| ==> r == []
  {
    if start <= |s| then s[start..] else []
  }

  // ---------------------------------------------------------------- explode / implode

  /** How many times byte c occurs in s. */
  function Count(c: Byte, s: Str): nat
    decreases |s|
  {
    if s == [] then 0 else (if s[0] == c then 1 else 0) + Count(c, s[1..])
  }

  /** explode($sep, $s) for a one-byte separator: the pieces between separators. */
  function Explode(sep: Byte, s: Str): (parts: seq<Str>)
    ensures |parts| == Count(sep, s) + 1
    ensures forall i :: 0 <= i < |parts| ==> sep !in parts[i]
    decreases |s|
  {
    if s == [] then [[]]
    else
      var rest := Explode(sep, s[1..]);
      if s[0] == sep then [[]] + rest else [[s[0]] + rest[0]] + rest[1..]
  }

  /** implode($sep, $parts) */
  function Implode(sep: Str, parts: seq<Str>): Str
    decreases |parts|
  {
    if parts == [] then []
    else if |parts| == 1 then parts[0]
    else parts[0] + sep + Implode(sep, parts[1..])
  }

  /** Joining the pieces of explode with the same separator gives back the string. */
  lemma {:induction false} ImplodeExplode(sep: Byte, s: Str)
    ensures Implode([sep], Explode(sep, s)) == s
    decreases |s|
  {
    if s != [] {
      var rest := Explode(sep, s[1..]);
      ImplodeExplode(sep, s[1..]);
      if s[0] == sep {
        assert Explode(sep, s) == [[]] + rest;
        assert s == [sep] + s[1..];
      } else if |rest| == 1 {
        assert Explode(sep, s) == [[s[0]] + rest[0]];
        assert s == [s[0]] + s[1..];
      } else {
        var parts := Explode(sep, s);
        assert parts == [[s[0]] + rest[0]] + rest[1..];
        assert parts[1..] == rest[1..];
        assert Implode([sep], parts) == [s[0]] + rest[0] + [sep] + Implode([sep], rest[1..]);
        assert s == [s[0]] + s[1..];
      }
    }
  }

  /** A string without the separator explodes into itself alone. */
  lemma {:induction false} ExplodeWithoutSeparator(sep: Byte, s: Str)
    requires sep !in s
    ensures Explode(sep, s) == [s]
    decreases |s|
  {
    if s != [] {
      ExplodeWithoutSeparator(sep, s[1..]);
      assert s == [s[0]] + s[1..];
    }
  }

  /** Exploding `a . sep . b`, where a holds no separator, gives a and then the pieces of b. */
  lemma {:induction false} ExplodeFirst(sep: Byte, a: Str, b: Str)
    requires sep !in a
    ensures Explode(sep, a + [sep] + b) == [a] + Explode(sep, b)
    decreases |a|
  {
    var s := a + [sep] + b;
    if a == [] {
      assert s[1..] == b;
    } else {
      assert s[1..] == a[1..] + [sep] + b;
      ExplodeFirst(sep, a[1..], b);
      assert a == [a[0]] + a[1..];
    }
  }

  /** Exploding what implode joined gives back the pieces, when none holds the separator. */
  lemma {:induction false} ExplodeImplode(sep: Byte, parts: seq<Str>)
    requires parts != []
    requires forall i :: 0 <= i < |parts| ==> sep !in parts[i]
    ensures Explode(sep, Implode([sep], parts)) == parts
    decreases |parts|
  {
    if |parts| == 1 {
      ExplodeWithoutSeparator(sep, parts[0]);
    } else {
      ExplodeImplode(sep, parts[1..]);
      ExplodeFirst(sep, parts[0], Implode([sep], parts[1..]));
      assert parts == [parts[0]] + parts[1..];
    }
  }

  /** A byte of an imploded string is a byte of the separator or of one of the pieces. */
  lemma {:induction false} ImplodeBytes(sep: Str, parts: seq<Str>, c: Byte)
    requires c !in sep
    requires forall i :: 0 <= i < |parts| ==> c !in parts[i]
    ensures c !in Implode(sep, parts)
    decreases |parts|
  {
    if |parts| > 1 {
      ImplodeBytes(sep, parts[1..], c);
    }
  }

  // ---------------------------------------------------------------- str_replace

  /**
   * str_replace($from, $to, $s) for a single search string: occurrences are
   * found left to right and do not overlap; an empty search string changes nothing.
   */
  function StrReplace(s: Str, from: Str, to: Str): Str
    decreases |s|
  {
    if from == [] || |s| < |from| then s
    else if s[..|from|] == from then to + StrReplace(s[|from|..], from, to)
    else [s[0]] + StrReplace(s[1..], from, to)
  }

  /** A byte that cannot begin the search string is copied and skipped. */
  lemma StrReplaceSkip(c: Byte, rest: Str, from: Str, to: Str)
    requires from != [] && c != from[0]
    ensures StrReplace([c] + rest, from, to) == [c] + StrReplace(rest, from, to)
  {
    var s := [c] + rest;
    assert s[1..] == rest;
    if |s| < |from| {
      assert |rest| < |from|;
    }
  }

  // ---------------------------------------------------------------- integers as strings

  predicate IsDigit(c: Byte)
  {
    '0' <= c <= '9'
  }

  function DigitByte(d: nat): (c: Byte)
    requires d < 10
    ensures IsDigit(c)
  {
    (48 + d) as char
  }

  /** The decimal form of a natural number, as PHP writes `(string)$n`. */
  function NatToStr(n: nat): (r: Str)
    ensures r != []
    decreases n
  {
    if n < 10 then [DigitByte(n)] else NatToStr(n / 10) + [DigitByte(n % 10)]
  }

  /** The decimal form is made of digits only. */
  lemma {:induction false} NatToStrDigits(n: nat)
    ensures AllDigits(NatToStr(n))
    decreases n
  {
    if n >= 10 {
      NatToStrDigits(n / 10);
      var r := NatToStr(n);
      assert r == NatToStr(n / 10) + [DigitByte(n % 10)];
      assert forall i :: 0 <= i < |r| - 1 ==> r[i] == NatToStr(n / 10)[i];
    }
  }

  /** The decimal form of an integer, with a leading '-' when negative. */
  function IntToStr(n: int): Str
  {
    if n < 0 then ['-'] + NatToStr(-n) else NatToStr(n)
  }

  /** The decimal form of a natural number starts with '0' only when it is "0". */
  lemma {:induction false} NatToStrLeading(n: nat)
    ensures NatToStr(n)[0] == '0' <==> n == 0
    ensures n == 0 ==> NatToStr(n) == "0"
    decreases n
  {
    if n >= 10 {
      NatToStrLeading(n / 10);
      assert NatToStr(n)[0] == NatToStr(n / 10)[0];
    }
  }

  /**
   * `(string) $n` is the canonical decimal form: digits only for n >= 0,
   * '-' and digits otherwise, with no leading zero except in "0" itself.
   */
  lemma IntToStrCanonical(n: int)
    ensures n >= 0 ==> AllDigits(IntToStr(n))
    ensures n < 0 ==> |IntToStr(n)| >= 2 && IntToStr(n)[0] == '-' && AllDigits(IntToStr(n)[1..]) && IntToStr(n)[1] != '0'
    ensures n >= 0 ==> (IntToStr(n)[0] == '0' <==> IntToStr(n) == "0")
    ensures IntToStr(n) == "0" <==> n == 0
  {
    var m: nat := if n < 0 then -n else n;
    NatToStrDigits(m);
    NatToStrLeading(m);
    if n < 0 {
      assert IntToStr(n)[1..] == NatToStr(m);
      assert IntToStr(n)[0] != '0';
    } else if NatToStr(m) == "0" {
      assert NatToStr(m)[0] == '0';
    }
  }

  /** The decimal form of an integer holds nothing but digits and '-'. */
  lemma IntToStrExcludes(n: int, c: Byte)
    requires c != '-' && !IsDigit(c)
    ensures c !in IntToStr(n)
  {
    var digits := NatToStr(if n < 0 then -n else n);
    NatToStrDigits(if n < 0 then -n else n);
    assert c !in digits by {
      forall i | 0 <= i < |digits| ensures digits[i] != c {
        assert IsDigit(digits[i]);
      }
    }
    if n < 0 {
      assert IntToStr(n) == ['-'] + digits;
    }
  }

  function DigitsValue(s: Str): nat
    requires forall i :: 0 <= i < |s| ==> IsDigit(s[i])
    decreases |s|
  {
    if s == [] then 0
    else
      assert IsDigit(s[|s| - 1]);
      DigitsValue(s[..|s| - 1]) * 10 + (s[|s| - 1] as int - 48)
  }

  predicate AllDigits(s: Str)
  {
    s != [] && forall i :: 0 <= i < |s| ==> IsDigit(s[i])
  }

  /** Reads an optionally signed decimal integer; anything else gives None. */
  function ParseInt(s: Str): Option<int>
  {
    if s != [] && s[0] == '-' && AllDigits(s[1..]) then Some(0 - DigitsValue(s[1..]) as int)
    else if AllDigits(s) then Some(DigitsValue(s))
    else None
  }

  lemma {:induction false} DigitsValueOfNat(n: nat)
    ensures AllDigits(NatToStr(n)) && DigitsValue(NatToStr(n)) == n
    decreases n
  {
    NatToStrDigits(n);
    if n >= 10 {
      NatToStrDigits(n / 10);
      DigitsValueOfNat(n / 10);
      var r := NatToStr(n);
      assert r[..|r| - 1] == NatToStr(n / 10);
    }
  }

  /** Reading back the decimal form of an integer gives the integer. */
  lemma {:induction false} ParseIntToStr(n: int)
    ensures ParseInt(IntToStr(n)) == Some(n)
  {
    if n < 0 {
      DigitsValueOfNat(-n);
      assert (['-'] + NatToStr(-n))[1..] == NatToStr(-n);
    } else {
      DigitsValueOfNat(n);
    }
  }

  // ---------------------------------------------------------------- byte order of strings

  /**
   * Byte-wise lexicographic order: how PHP compares two strings neither of
   * which is numeric, and so how `ksort` orders such keys.
   */
  predicate Less(a: Str, b: Str)
    decreases |a|
  {
    if a == [] then b != []
    else if b == [] then false
    else if a[0] != b[0] then a[0] < b[0]
    else Less(a[1..], b[1..])
  }

  lemma {:induction false} LessIrreflexive(a: Str)
    ensures !Less(a, a)
    decreases |a|
  {
    if a != [] {
      LessIrreflexive(a[1..]);
    }
  }

  lemma {:induction false} LessTransitive(a: Str, b: Str, c: Str)
    requires Less(a, b) && Less(b, c)
    ensures Less(a, c)
    decreases |a|
  {
    if a != [] && b != [] && c != [] && a[0] == b[0] && b[0] == c[0] {
      LessTransitive(a[1..], b[1..], c[1..]);
    }
  }

  lemma {:induction false} LessTotal(a: Str, b: Str)
    requires a != b
    ensures Less(a, b) || Less(b, a)
    decreases |a|
  {
    if a != [] && b != [] && a[0] == b[0] {
      assert a == [a[0]] + a[1..] && b == [b[0]] + b[1..];
      LessTotal(a[1..], b[1..]);
    }
  }

  lemma {:induction false} LessAsymmetric(a: Str, b: Str)
    requires Less(a, b)
    ensures !Less(b, a)
    decreases |a|
  {
    if a != [] && b != [] && a[0] == b[0] {
      LessAsymmetric(a[1..], b[1..]);
    }
  }
}
