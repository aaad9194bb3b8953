/**
 * Python's `repr()` of a string: the quote it picks and the escapes it
 * writes, together with a reader for such literals that undoes it.
 */
module PyRepr {
  import opened Wrappers

  /** `repr` quotes with `'` unless the string holds `'` and no `"`. */
  function QuoteFor(s: string): (q: char)
    ensures q == '\'' || q == '"'
    ensures q == '"' <==> '\'' in s && '"' !in s
  {
    if '\'' in s && '"' !in s then '"' else '\''
  }

  predicate IsQuote(c: char) { c == '\'' || c == '"' }

  /** The characters `repr` writes as `\xNN`: ASCII control characters other
      than tab, newline and carriage return, and DEL. */
  predicate IsHexEscaped(c: char)
  {
    (c < ' ' && c != '\t' && c != '\n' && c != '\r') || c == '\U{7F}'
  }

  /** Python writes hex escapes with lower-case digits. */
  function HexDigit(d: nat): (c: char)
    requires d < 16
    ensures IsHex(c) && HexValue(c) == d
  {
    if d < 10 then ('0' as int + d) as char else ('a' as int + d - 10) as char
  }

  predicate IsHex(c: char) { '0' <= c <= '9' || 'a' <= c <= 'f' || 'A' <= c <= 'F' }

  function HexValue(c: char): (d: nat)
    requires IsHex(c)
    ensures d < 16
  {
    if '0' <= c <= '9' then c as int - '0' as int
    else if 'a' <= c <= 'f' then c as int - 'a' as int + 10
    else c as int - 'A' as int + 10
  }

  /** How `repr` writes one character of a literal quoted with `q`. */
  function EscapeChar(c: char, q: char): (e: string)
    requires IsQuote(q)
    ensures |e| > 0 && e[0] != q
  {
    if c == '\\' then "\\\\"
    else if c == q then ['\\', q]
    else if c == '\t' then "\\t"
    else if c == '\n' then "\\n"
    else if c == '\r' then "\\r"
    else if IsHexEscaped(c) then ['\\', 'x', HexDigit(c as int / 16), HexDigit(c as int % 16)]
    else [c]
  }

  /** The body of the literal: every character escaped in turn. */
  function Escape(s: string, q: char): string
    requires IsQuote(q)
  {
    if s == [] then [] else EscapeChar(s[0], q) + Escape(s[1..], q)
  }

  /** `repr(s)` for a string `s`. */
  function StrRepr(s: string): string
  {
    var q := QuoteFor(s);
    [q] + Escape(s, q) + [q]
  }

  /** Prepends a decoded character to what the rest of a literal decodes to. */
  function Prepend(c: char, r: Option<(string, string)>): Option<(string, string)>
  {
    match r
    case None => None
    case Some(p) => Some(([c] + p.0, p.1))
  }

  /** Decodes the character at the start of a literal's body: an escape
      sequence or a plain character, with the number of characters it takes. */
  function ReadChar(s: string): Option<(char, nat)>
    requires s != []
  {
    if s[0] != '\\' then Some((s[0], 1))
    else if |s| < 2 then None
    else if s[1] == '\\' || IsQuote(s[1]) then Some((s[1], 2))
    else if s[1] == 't' then Some(('\t', 2))
    else if s[1] == 'n' then Some(('\n', 2))
    else if s[1] == 'r' then Some(('\r', 2))
    else if s[1] == 'x' && |s| >= 4 && IsHex(s[2]) && IsHex(s[3]) then
      Some(((16 * HexValue(s[2]) + HexValue(s[3])) as char, 4))
    else None
  }

  /** Reads the body of a literal quoted with `q` up to its closing quote,
      giving the decoded string and the text after the closing quote. */
  function ReadBody(s: string, q: char): Option<(string, string)>
    decreases |s|
  {
    if s == [] then None
    else if s[0] == q then Some(([], s[1..]))
    else
      match ReadChar(s)
      case None => None
      case Some(cn) =>
        if 0 < cn.1 <= |s| then Prepend(cn.0, ReadBody(s[cn.1..], q)) else None
  }

  /** Reads one quoted string literal at the start of `s`. */
  function ReadQuoted(s: string): Option<(string, string)>
  {
    if s != [] && IsQuote(s[0]) then ReadBody(s[1..], s[0]) else None
  }

  /** Decoding one escaped character gives it back, with the escape's length. */
  lemma ReadEscapedChar(c: char, q: char, rest: string)
    requires IsQuote(q)
    ensures ReadChar(EscapeChar(c, q) + rest) == Some((c, |EscapeChar(c, q)|))
  {
    var e := EscapeChar(c, q);
    if |e| == 4 {
      assert (16 * HexValue(e[2]) + HexValue(e[3])) == c as int;
    }
  }

  /** Reading past one escaped character. */
  lemma ReadPastChar(c: char, q: char, rest: string)
    requires IsQuote(q)
    ensures ReadBody(EscapeChar(c, q) + rest, q) == Prepend(c, ReadBody(rest, q))
  {
    var e := EscapeChar(c, q);
    ReadEscapedChar(c, q, rest);
    assert (e + rest)[|e|..] == rest;
  }

  /** The reader undoes the escaping, up to the closing quote. */
  lemma {:induction false} ReadEscaped(s: string, q: char, rest: string)
    requires IsQuote(q)
    ensures ReadBody(Escape(s, q) + [q] + rest, q) == Some((s, rest))
    decreases |s|
  {
    if s == [] {
      assert Escape(s, q) + [q] + rest == [q] + rest;
    } else {
      var x := Escape(s[1..], q) + [q] + rest;
      assert Escape(s, q) + [q] + rest == EscapeChar(s[0], q) + x;
      ReadEscaped(s[1..], q, rest);
      ReadPastChar(s[0], q, x);
      assert [s[0]] + s[1..] == s;
    }
  }

  /** `repr` of a string reads back as that string, whatever follows it. */
  lemma StrReprRoundTrip(s: string, rest: string)
    ensures ReadQuoted(StrRepr(s) + rest) == Some((s, rest))
  {
    var q := QuoteFor(s);
    assert StrRepr(s) + rest == [q] + (Escape(s, q) + [q] + rest);
    ReadEscaped(s, q, rest);
  }
}
