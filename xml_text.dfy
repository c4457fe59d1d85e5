/**
 * Text inside the XML request bodies the client writes: UTF-8 well-formedness,
 * `htmlspecialchars($s, ENT_XML1 | ENT_QUOTES, 'UTF-8')`, the reverse
 * entity decoding, and reading back one `<Tag>text</Tag>` element.
 */
module XmlText {
  import opened Wrappers
  import opened Php

  // ---------------------------------------------------------------- UTF-8

  predicate IsContinuation(c: Byte)
  {
    0x80 <= c as int <= 0xBF
  }

  predicate InRange(c: Byte, lo: int, hi: int)
  {
    lo <= c as int <= hi
  }

  /**
   * The length of the well-formed UTF-8 sequence at the start of s, or 0
   * when there is none (RFC 3629, section 4: no overlong forms, no
   * surrogates, nothing above U+10FFFF).
   */
  function LeadLength(s: Str): (n: nat)
    requires s != []
    ensures n <= 4 && n <= |s|
  {
    var b := s[0] as int;
    if b <= 0x7F then 1
    else if 0xC2 <= b <= 0xDF && |s| >= 2 && IsContinuation(s[1]) then 2
    else if b == 0xE0 && |s| >= 3 && InRange(s[1], 0xA0, 0xBF) && IsContinuation(s[2]) then 3
    else if ((0xE1 <= b <= 0xEC) || b == 0xEE || b == 0xEF) && |s| >= 3
      && IsContinuation(s[1]) && IsContinuation(s[2]) then 3
    else if b == 0xED && |s| >= 3 && InRange(s[1], 0x80, 0x9F) && IsContinuation(s[2]) then 3
    else if b == 0xF0 && |s| >= 4 && InRange(s[1], 0x90, 0xBF)
      && IsContinuation(s[2]) && IsContinuation(s[3]) then 4
    else if 0xF1 <= b <= 0xF3 && |s| >= 4
      && IsContinuation(s[1]) && IsContinuation(s[2]) && IsContinuation(s[3]) then 4
    else if b == 0xF4 && |s| >= 4 && InRange(s[1], 0x80, 0x8F)
      && IsContinuation(s[2]) && IsContinuation(s[3]) then 4
    else 0
  }

  /** s is well-formed UTF-8. */
  predicate ValidUtf8(s: Str)
    decreases |s|
  {
    s == [] || (LeadLength(s) > 0 && ValidUtf8(s[LeadLength(s)..]))
  }

  /** ASCII text is well-formed UTF-8. */
  lemma {:induction false} AsciiIsValidUtf8(s: Str)
    requires forall i :: 0 <= i < |s| ==> s[i] as int < 0x80
    ensures ValidUtf8(s)
    decreases |s|
  {
    if s != [] {
      AsciiIsValidUtf8(s[1..]);
    }
  }

  // ---------------------------------------------------------------- escaping

  /** The entity htmlspecialchars writes for one byte under ENT_XML1 | ENT_QUOTES. */
  function EscapeByte(c: Byte): Str
  {
    if c == '&' then "&amp;"
    else if c == '<' then "&lt;"
    else if c == '>' then "&gt;"
    else if c == '"' then "&quot;"
    else if c == '\'' then "&apos;"
    else [c]
  }

  function EscapeBytes(s: Str): Str
    decreases |s|
  {
    if s == [] then [] else EscapeByte(s[0]) + EscapeBytes(s[1..])
  }

  /**
   * htmlspecialchars($s, ENT_XML1 | ENT_QUOTES, 'UTF-8'): the five markup
   * characters become entities; input that is not well-formed UTF-8 gives
   * the empty string.
   */
  function XmlEscape(s: Str): (r: Str)
    ensures !ValidUtf8(s) ==> r == []
  {
    if ValidUtf8(s) then EscapeBytes(s) else []
  }

  /** Escaped text holds no markup character. */
  lemma {:induction false} EscapedHasNoMarkup(s: Str)
    ensures forall i :: 0 <= i < |XmlEscape(s)| ==> XmlEscape(s)[i] !in "<>\"'"
  {
    if ValidUtf8(s) {
      EscapeBytesNoMarkup(s);
    }
  }

  lemma {:induction false} EscapeBytesNoMarkup(s: Str)
    ensures forall i :: 0 <= i < |EscapeBytes(s)| ==> EscapeBytes(s)[i] !in "<>\"'"
    decreases |s|
  {
    if s != [] {
      EscapeBytesNoMarkup(s[1..]);
      var t := EscapeByte(s[0]);
      var e := EscapeBytes(s);
      forall i | 0 <= i < |e| ensures e[i] !in "<>\"'" {
        if i >= |t| {
          assert e[i] == EscapeBytes(s[1..])[i - |t|];
        }
      }
    }
  }

  /** Replaces the five entities by the characters they stand for. */
  function XmlUnescape(t: Str): Str
    decreases |t|
  {
    if t == [] then []
    else if "&amp;" <= t then ['&'] + XmlUnescape(t[5..])
    else if "&lt;" <= t then ['<'] + XmlUnescape(t[4..])
    else if "&gt;" <= t then ['>'] + XmlUnescape(t[4..])
    else if "&quot;" <= t then ['"'] + XmlUnescape(t[6..])
    else if "&apos;" <= t then ['\''] + XmlUnescape(t[6..])
    else [t[0]] + XmlUnescape(t[1..])
  }

  lemma UnescapeEscapeByte(c: Byte, rest: Str)
    ensures XmlUnescape(EscapeByte(c) + rest) == [c] + XmlUnescape(rest)
  {
    var e := EscapeByte(c);
    var t := e + rest;
    assert t[..|e|] == e;
    assert t[|e|..] == rest;
    if c == '&' {
      assert "&amp;" <= t;
    } else if c == '<' {
      assert !("&amp;" <= t) by { assert t[1] == 'l'; }
      assert "&lt;" <= t;
    } else if c == '>' {
      assert !("&amp;" <= t) && !("&lt;" <= t) by { assert t[1] == 'g'; }
      assert "&gt;" <= t;
    } else if c == '"' {
      assert !("&amp;" <= t) && !("&lt;" <= t) && !("&gt;" <= t) by { assert t[1] == 'q'; }
      assert "&quot;" <= t;
    } else if c == '\'' {
      assert !("&amp;" <= t) && !("&lt;" <= t) && !("&gt;" <= t) && !("&quot;" <= t) by {
        assert t[1] == 'a' && t[2] == 'p';
      }
      assert "&apos;" <= t;
    } else {
      assert t[0] == c;
    }
  }

  lemma {:induction false} UnescapeEscapeBytes(s: Str)
    ensures XmlUnescape(EscapeBytes(s)) == s
    decreases |s|
  {
    if s != [] {
      UnescapeEscapeByte(s[0], EscapeBytes(s[1..]));
      UnescapeEscapeBytes(s[1..]);
      assert s == [s[0]] + s[1..];
    }
  }

  /** Decoding the entities of escaped well-formed text gives the text back. */
  lemma {:induction false} XmlUnescapeEscape(s: Str)
    requires ValidUtf8(s)
    ensures XmlUnescape(XmlEscape(s)) == s
  {
    UnescapeEscapeBytes(s);
  }

  // ---------------------------------------------------------------- elements

  /** `<tag>` */
  function Open(tag: Str): Str
  {
    "<" + tag + ">"
  }

  /** `</tag>` */
  function Close(tag: Str): Str
  {
    "</" + tag + ">"
  }

  /** `<tag>text</tag>` */
  function Element(tag: Str, text: Str): Str
  {
    Open(tag) + text + Close(tag)
  }

  /** An element, and whatever follows it, begins with its opening tag. */
  lemma ElementOpens(tag: Str, text: Str, rest: Str)
    ensures Open(tag) <= Element(tag, text) + rest
  {
    ConcatAssoc(Open(tag), text, Close(tag));
    ConcatAssoc(Open(tag), text + Close(tag), rest);
  }

  /** A closing tag, and whatever follows it, does not begin with an opening tag. */
  lemma CloseIsNotOpen(tag: Str, other: Str, rest: Str)
    requires tag != [] && tag[0] != '/'
    ensures !(Open(tag) <= Close(other) + rest)
  {
    assert Open(tag)[1] == tag[0];
    assert (Close(other) + rest)[1] == '/';
  }

  /** The position of the first c in s, or |s| when there is none. */
  function Until(c: Byte, s: Str): (n: nat)
    ensures n <= |s|
    ensures forall i :: 0 <= i < n ==> s[i] != c
    ensures n < |s| ==> s[n] == c
    decreases |s|
  {
    if s == [] || s[0] == c then 0 else 1 + Until(c, s[1..])
  }

  /**
   * Reads `<tag>text</tag>` at the start of t, text running to the next '<';
   * gives the text and what follows the closing tag.
   */
  function ReadElement(tag: Str, t: Str): (r: Option<(Str, Str)>)
    ensures r.Some? ==> |r.value.1| < |t|
  {
    var open := Open(tag);
    if !(open <= t) then None
    else
      var body := t[|open|..];
      var n := Until('<', body);
      var close := Close(tag);
      if close <= body[n..] then Some((body[..n], body[n..][|close|..])) else None
  }

  /** An element whose text holds no '<' is read back exactly. */
  lemma ReadElementOf(tag: Str, text: Str, rest: Str)
    requires '<' !in text
    ensures ReadElement(tag, Element(tag, text) + rest) == Some((text, rest))
  {
    var open := Open(tag);
    var close := Close(tag);
    var t := Element(tag, text) + rest;
    assert t == open + (text + close + rest);
    assert t[..|open|] == open;
    var body := t[|open|..];
    assert body == text + close + rest;
    var n := Until('<', body);
    assert body[|text|] == '<';
    assert n == |text|;
    assert body[..n] == text;
    assert body[n..] == close + rest;
  }
}
