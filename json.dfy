/** How `JSON.stringify` writes a string value (section 25.5.2.3,
    QuoteJSONString, of ECMA-262), and a reader for it in the manner of
    `JSON.parse`, so that a string written into a JSON document can be shown
    to be recoverable from it. */
module Json {
  import opened Wrappers

  /** Lower-case hexadecimal digit, as QuoteJSONString writes them. */
  function HexDigit(n: nat): (c: char)
    requires n < 16
  {
    "0123456789abcdef"[n]
  }

  function HexValue(c: char): Option<nat>
  {
    if '0' <= c <= '9' then Some(c as int - '0' as int)
    else if 'a' <= c <= 'f' then Some(c as int - 'a' as int + 10)
    else if 'A' <= c <= 'F' then Some(c as int - 'A' as int + 10)
    else None
  }

  lemma HexRoundTrip(n: nat)
    requires n < 16
    ensures HexValue(HexDigit(n)) == Some(n)
  {
  }

  /** The escape sequence QuoteJSONString writes for one character. */
  function EscapeChar(c: char): (e: string)
  {
    if c == '"' then "\\\""
    else if c == '\\' then "\\\\"
    else if c as int == 8 then "\\b"
    else if c == '\t' then "\\t"
    else if c == '\n' then "\\n"
    else if c as int == 12 then "\\f"
    else if c == '\r' then "\\r"
    else if (c as int) < 0x20 then "\\u00" + [HexDigit(c as int / 16), HexDigit(c as int % 16)]
    else [c]
  }

  function Escape(s: string): string
  {
    if |s| == 0 then "" else EscapeChar(s[0]) + Escape(s[1..])
  }

  /** `JSON.stringify(s)` for a string `s`. */
  function Quote(s: string): string
  {
    "\"" + Escape(s) + "\""
  }

  /** Decodes one (possibly escaped) character at the start of `t`, giving the
      character and the number of characters it took; a closing quote is not a
      character. */
  function ReadChar(t: string): Option<(char, nat)>
  {
    if |t| == 0 || t[0] == '"' then None
    else if t[0] != '\\' then Some((t[0], 1))
    else if |t| < 2 then None
    else if t[1] == '"' then Some(('"', 2))
    else if t[1] == '\\' then Some(('\\', 2))
    else if t[1] == '/' then Some(('/', 2))
    else if t[1] == 'b' then Some((8 as char, 2))
    else if t[1] == 't' then Some(('\t', 2))
    else if t[1] == 'n' then Some(('\n', 2))
    else if t[1] == 'f' then Some((12 as char, 2))
    else if t[1] == 'r' then Some(('\r', 2))
    else if t[1] == 'u' && |t| >= 6 then
      match (HexValue(t[2]), HexValue(t[3]), HexValue(t[4]), HexValue(t[5]))
      case (Some(a), Some(b), Some(c), Some(d)) =>
        var v := ((a * 16 + b) * 16 + c) * 16 + d;
        if 0xD800 <= v < 0xE000 then None else Some((v as char, 6))
      case _ => None
    else None
  }

  /** Reads the body of a JSON string up to and including its closing quote,
      giving the decoded string and what follows the quote. */
  function ReadBody(t: string): Option<(string, string)>
    decreases |t|
  {
    if |t| == 0 then None
    else if t[0] == '"' then Some(("", t[1..]))
    else match ReadChar(t)
      case None => None
      case Some((c, k)) =>
        if k == 0 || k > |t| then None
        else match ReadBody(t[k..])
          case None => None
          case Some((u, rest)) => Some(([c] + u, rest))
  }

  /** Reads a JSON string value at the start of `t`. */
  function ReadString(t: string): Option<(string, string)>
  {
    if |t| == 0 || t[0] != '"' then None else ReadBody(t[1..])
  }

  /** Each escape sequence reads back as the character it stands for. */
  lemma ReadEscapeChar(c: char, rest: string)
    ensures |EscapeChar(c)| > 0 && EscapeChar(c)[0] != '"'
    ensures ReadChar(EscapeChar(c) + rest) == Some((c, |EscapeChar(c)|))
  {
    var t := EscapeChar(c) + rest;
    if c != '"' && c != '\\' && c as int != 8 && c != '\t' && c != '\n'
       && c as int != 12 && c != '\r' && (c as int) < 0x20
    {
      var hi, lo := c as int / 16, c as int % 16;
      HexRoundTrip(0);
      HexRoundTrip(hi);
      HexRoundTrip(lo);
      assert t[2] == '0' && t[3] == '0' && t[4] == HexDigit(hi) && t[5] == HexDigit(lo);
      assert ((0 * 16 + 0) * 16 + hi) * 16 + lo == c as int;
    }
  }

  /** Reading back a written string: the body of `Quote(s)` decodes to `s`,
      and reading stops right after the closing quote. */
  lemma {:induction false} ReadEscaped(s: string, rest: string)
    ensures ReadBody(Escape(s) + "\"" + rest) == Some((s, rest))
    decreases |s|
  {
    var t := Escape(s) + "\"" + rest;
    if |s| == 0 {
      assert t == "\"" + rest;
    } else {
      var e := EscapeChar(s[0]);
      var tail := Escape(s[1..]) + "\"" + rest;
      assert t == e + tail;
      ReadEscapeChar(s[0], tail);
      assert t[|e|..] == tail;
      ReadEscaped(s[1..], rest);
      assert [s[0]] + s[1..] == s;
    }
  }

  /** `JSON.parse` gives back what `JSON.stringify` wrote for a string,
      whatever follows it in the document. */
  lemma QuoteRoundTrip(s: string, rest: string)
    ensures ReadString(Quote(s) + rest) == Some((s, rest))
  {
    var t := Quote(s) + rest;
    assert t[1..] == Escape(s) + "\"" + rest;
    ReadEscaped(s, rest);
  }
}
