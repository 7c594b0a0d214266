/**
 JSON string literals as `JSON.stringify` writes them (the QuoteJSONString
 operation of ECMA-262, section "JSON.stringify"), and a reader for them.
 The auth store keeps its persisted record as JSON text; this module is the
 part of that text format the record's string fields need.

 Writing: `"` and `\` are escaped with a backslash; backspace, tab, line feed,
 form feed and carriage return use their one-letter escapes; every other code
 point below U+0020 becomes `\u00` followed by two lower-case hexadecimal
 digits; everything else is copied. (Lone surrogates, which `JSON.stringify`
 also escapes, cannot occur: a Dafny `char` is a Unicode scalar value.)

 Reading: the escapes above, plus `\/` and `\uXXXX` with upper- or lower-case
 digits for any non-surrogate code point, as `JSON.parse` accepts them. An
 unescaped control character or an unterminated literal is an error.
 */
module Json {
  import opened Wrappers
  import opened Text

  const Quote: char := '"'
  const Backslash: char := '\\'

  function HexDigit(d: nat): (c: char)
    requires d < 16
    ensures HexValue(c) == Some(d)
  {
    if d < 10 then ('0' as nat + d) as char else ('a' as nat + d - 10) as char
  }

  /** The escape `JSON.stringify` writes for one character. */
  function EscapeChar(c: char): (r: string)
    ensures r == [c] || (|r| >= 2 && r[0] == Backslash)
    ensures r == [c] <==> c != Quote && c != Backslash && c as int >= 0x20
  {
    var n := c as int;
    if c == Quote then [Backslash, Quote]
    else if c == Backslash then [Backslash, Backslash]
    else if n == 0x08 then [Backslash, 'b']
    else if n == 0x09 then [Backslash, 't']
    else if n == 0x0A then [Backslash, 'n']
    else if n == 0x0C then [Backslash, 'f']
    else if n == 0x0D then [Backslash, 'r']
    else if n < 0x20 then [Backslash, 'u', '0', '0', HexDigit(n / 16), HexDigit(n % 16)]
    else [c]
  }

  function Escape(s: string): string {
    if s == [] then [] else EscapeChar(s[0]) + Escape(s[1..])
  }

  /** `JSON.stringify` of a string. */
  function QuoteString(s: string): (r: string)
    ensures |r| >= 2 && r[0] == Quote && r[|r| - 1] == Quote
  {
    [Quote] + Escape(s) + [Quote]
  }

  /** Reads the escape sequence that follows a backslash: the character it
      denotes and the text after it. */
  function ReadEscape(t: string): (r: Option<(char, string)>)
    ensures r.Some? ==> |r.value.1| < |t|
  {
    if t == [] then None
    else if t[0] == Quote || t[0] == Backslash || t[0] == '/' then Some((t[0], t[1..]))
    else if t[0] == 'b' then Some((0x08 as char, t[1..]))
    else if t[0] == 'f' then Some((0x0C as char, t[1..]))
    else if t[0] == 'n' then Some((0x0A as char, t[1..]))
    else if t[0] == 'r' then Some((0x0D as char, t[1..]))
    else if t[0] == 't' then Some((0x09 as char, t[1..]))
    else if t[0] == 'u' && |t| >= 5 then
      match (HexValue(t[1]), HexValue(t[2]), HexValue(t[3]), HexValue(t[4]))
      case (Some(a), Some(b), Some(c), Some(d)) =>
        var v := ((a * 16 + b) * 16 + c) * 16 + d;
        if 0xD800 <= v <= 0xDFFF then None else Some((v as char, t[5..]))
      case _ => None
    else None
  }

  function Prepend(c: char, r: Option<(string, string)>): Option<(string, string)> {
    match r
    case None => None
    case Some((s, rest)) => Some(([c] + s, rest))
  }

  /** Reads the body of a string literal up to its closing quote: the decoded
      characters and the text after the quote. */
  function ReadBody(t: string): Option<(string, string)>
    decreases |t|
  {
    if t == [] then None
    else if t[0] == Quote then Some(([], t[1..]))
    else if t[0] == Backslash then
      match ReadEscape(t[1..])
      case None => None
      case Some((c, rest)) => Prepend(c, ReadBody(rest))
    else if (t[0] as int) < 0x20 then None
    else Prepend(t[0], ReadBody(t[1..]))
  }

  /** Reads one string literal from the front of `t`. */
  function ReadString(t: string): Option<(string, string)> {
    if |t| > 0 && t[0] == Quote then ReadBody(t[1..]) else None
  }

  // ---------------------------------------------------------------------------
  // Round trip
  // ---------------------------------------------------------------------------

  lemma ReadEscapeUnicode(c: char, x: string)
    requires (c as int) < 0x20
    ensures var n := c as int;
      ReadEscape(['u', '0', '0', HexDigit(n / 16), HexDigit(n % 16)] + x) == Some((c, x))
  {
    var n := c as int;
    var t := ['u', '0', '0', HexDigit(n / 16), HexDigit(n % 16)] + x;
    assert t[0] == 'u' && t[1] == '0' && t[2] == '0';
    assert t[3] == HexDigit(n / 16) && t[4] == HexDigit(n % 16);
    assert t[5..] == x;
    assert ((0 * 16 + 0) * 16 + n / 16) * 16 + n % 16 == n;
  }

  /** Reading one escaped character gives that character back. */
  lemma ReadEscapedChar(c: char, x: string)
    ensures ReadBody(EscapeChar(c) + x) == Prepend(c, ReadBody(x))
  {
    var e := EscapeChar(c);
    var t := e + x;
    if e == [c] {
      assert t[0] == c && t[1..] == x;
    } else {
      assert t[0] == Backslash;
      var n := c as int;
      if n < 0x20 && n != 0x08 && n != 0x09 && n != 0x0A && n != 0x0C && n != 0x0D {
        assert t[1..] == ['u', '0', '0', HexDigit(n / 16), HexDigit(n % 16)] + x;
        ReadEscapeUnicode(c, x);
      } else {
        assert t[1..] == [e[1]] + x;
        assert t[1..][0] == e[1] && t[1..][1..] == x;
      }
    }
  }

  /** Reading an escaped string followed by a closing quote gives the string
      back and stops right after the quote. */
  lemma {:induction false} ReadBodyEscape(s: string, rest: string)
    ensures ReadBody(Escape(s) + [Quote] + rest) == Some((s, rest))
    decreases |s|
  {
    if s == [] {
      assert Escape(s) + [Quote] + rest == [Quote] + rest;
      assert ([Quote] + rest)[1..] == rest;
    } else {
      var tail := Escape(s[1..]) + [Quote] + rest;
      assert Escape(s) + [Quote] + rest == EscapeChar(s[0]) + tail;
      ReadEscapedChar(s[0], tail);
      ReadBodyEscape(s[1..], rest);
      assert [s[0]] + s[1..] == s;
    }
  }

  /** `ReadString` undoes `QuoteString`, whatever text follows. */
  lemma ReadQuoted(s: string, rest: string)
    ensures ReadString(QuoteString(s) + rest) == Some((s, rest))
  {
    var t := QuoteString(s) + rest;
    assert t[0] == Quote;
    assert t[1..] == Escape(s) + [Quote] + rest;
    ReadBodyEscape(s, rest);
  }
}
