/** The outbound wire format of the relay: Python's `json.dumps` string
    escaping with its default `ensure_ascii=True`, the chunk
    `data: {"choices": [{"delta": {"content": X}}]}\n\n` built around it,
    and a reader that recovers `X` from such a chunk. */
module Json {
  import opened Wrappers

  function HexDigit(d: nat): char
    requires d < 16
  {
    if d < 10 then ('0' as int + d) as char else ('a' as int + d - 10) as char
  }

  /** `'{0:04x}'.format(v)`: four lower-case hexadecimal digits, most
      significant first. */
  function Hex4(v: nat): (h: string)
    requires v < 0x10000
    ensures |h| == 4
  {
    [HexDigit(v / 16 / 16 / 16), HexDigit(v / 16 / 16 % 16), HexDigit(v / 16 % 16), HexDigit(v % 16)]
  }

  /** How `json.dumps` writes one character inside a string literal:
      the two-character escapes, printable ASCII as itself, and every other
      character as `\uXXXX`, using a UTF-16 surrogate pair above U+FFFF. */
  function EscapeChar(c: char): (e: string)
    ensures 1 <= |e|
  {
    if c == '"' then "\\\""
    else if c == '\\' then "\\\\"
    else if c == '\n' then "\\n"
    else if c == '\r' then "\\r"
    else if c == '\t' then "\\t"
    else if c == '\U{8}' then "\\b"
    else if c == '\U{c}' then "\\f"
    else if ' ' <= c <= '~' then [c]
    else if c as int < 0x10000 then "\\u" + Hex4(c as int)
    else
      var n := c as int - 0x10000;
      "\\u" + Hex4(0xD800 + n / 1024) + "\\u" + Hex4(0xDC00 + n % 1024)
  }

  function Escape(s: string): string
  {
    if s == [] then [] else EscapeChar(s[0]) + Escape(s[1..])
  }

  /** `json.dumps(s)` for a string `s`. */
  function Quote(s: string): string {
    "\"" + Escape(s) + "\""
  }

  function HexValue(c: char): Option<nat> {
    if '0' <= c <= '9' then Some(c as int - '0' as int)
    else if 'a' <= c <= 'f' then Some(c as int - 'a' as int + 10)
    else if 'A' <= c <= 'F' then Some(c as int - 'A' as int + 10)
    else None
  }

  function Hex4Value(h: string): (r: Option<nat>)
    requires |h| == 4
    ensures r.Some? ==> r.value < 0x10000
  {
    match (HexValue(h[0]), HexValue(h[1]), HexValue(h[2]), HexValue(h[3]))
    case (Some(a), Some(b), Some(c), Some(d)) =>
      if a < 16 && b < 16 && c < 16 && d < 16 then Some(((a * 16 + b) * 16 + c) * 16 + d) else None
    case _ => None
  }

  function Prepend(c: char, rest: Option<string>): Option<string> {
    match rest
    case Some(t) => Some([c] + t)
    case None => None
  }

  /** The character a two-character escape `\e` stands for. */
  function SimpleEscape(e: char): Option<char> {
    if e == '"' then Some('"')
    else if e == '\\' then Some('\\')
    else if e == '/' then Some('/')
    else if e == 'n' then Some('\n')
    else if e == 'r' then Some('\r')
    else if e == 't' then Some('\t')
    else if e == 'b' then Some('\U{8}')
    else if e == 'f' then Some('\U{c}')
    else None
  }

  /** A decoded `\uXXXX` escape, or a surrogate pair of two of them: the
      character and the number of input characters it used. */
  datatype Decoded = Decoded(c: char, used: nat)

  function UnicodeEscape(s: string): (r: Option<Decoded>)
    requires 6 <= |s|
    ensures r.Some? ==> r.value.used <= |s| && r.value.used in {6, 12}
  {
    match Hex4Value(s[2..6])
    case None => None
    case Some(v) =>
      if v < 0xD800 || 0xE000 <= v then Some(Decoded(v as char, 6))
      else if 0xDC00 <= v || |s| < 12 || s[6] != '\\' || s[7] != 'u' then None
      else match Hex4Value(s[8..12])
        case None => None
        case Some(w) =>
          if w < 0xDC00 || 0xE000 <= w then None
          else Some(Decoded((0x10000 + (v - 0xD800) * 1024 + (w - 0xDC00)) as char, 12))
  }

  /** The body of a JSON string literal read back into text; `None` for
      anything `Escape` never produces (a bare quote, a dangling or unknown
      escape, a lone surrogate). */
  function Unescape(s: string): Option<string>
    decreases |s|
  {
    if s == [] then Some([])
    else if s[0] == '"' then None
    else if s[0] != '\\' then Prepend(s[0], Unescape(s[1..]))
    else if 2 <= |s| && SimpleEscape(s[1]).Some? then Prepend(SimpleEscape(s[1]).value, Unescape(s[2..]))
    else if |s| < 6 || s[1] != 'u' then None
    else match UnicodeEscape(s)
      case None => None
      case Some(d) => Prepend(d.c, Unescape(s[d.used..]))
  }

  lemma HexDigitValue(d: nat)
    requires d < 16
    ensures HexValue(HexDigit(d)) == Some(d)
  {
  }

  lemma Hex4RoundTrip(v: nat)
    requires v < 0x10000
    ensures Hex4Value(Hex4(v)) == Some(v)
  {
    var q1 := v / 16;
    var q2 := q1 / 16;
    var q3 := q2 / 16;
    assert v == q1 * 16 + v % 16;
    assert q1 == q2 * 16 + q1 % 16;
    assert q2 == q3 * 16 + q2 % 16;
    assert q3 < 16;
    HexDigitValue(q3);
    HexDigitValue(q2 % 16);
    HexDigitValue(q1 % 16);
    HexDigitValue(v % 16);
  }

  lemma UnescapeShortEscape(c: char, rest: string)
    requires c == '"' || c == '\\' || c == '\n' || c == '\r' || c == '\t' || c == '\U{8}' || c == '\U{c}'
    ensures Unescape(EscapeChar(c) + rest) == Prepend(c, Unescape(rest))
  {
    var s := EscapeChar(c) + rest;
    assert s[0] == '\\' && SimpleEscape(s[1]) == Some(c);
    assert s[2..] == rest;
  }

  lemma UnescapeBmp(c: char, rest: string)
    requires c as int < 0x10000
    ensures Unescape("\\u" + Hex4(c as int) + rest) == Prepend(c, Unescape(rest))
  {
    var s := "\\u" + Hex4(c as int) + rest;
    Hex4RoundTrip(c as int);
    assert s[2..6] == Hex4(c as int);
    assert UnicodeEscape(s) == Some(Decoded(c, 6));
    assert s[6..] == rest;
  }

  lemma UnescapeAstral(c: char, rest: string)
    requires 0x10000 <= c as int
    ensures Unescape(EscapeChar(c) + rest) == Prepend(c, Unescape(rest))
  {
    var s := EscapeChar(c) + rest;
    AstralEscapeReads(c, rest);
    EscapeAstral(c);
    assert s[0] == '\\' && s[1] == 'u';
    assert SimpleEscape('u').None?;
    assert Unescape(s) == Prepend(c, Unescape(s[12..]));
  }

  /** The surrogate pair of an astral character reads back as that
      character, twelve characters used. */
  lemma AstralEscapeReads(c: char, rest: string)
    requires 0x10000 <= c as int
    ensures |EscapeChar(c) + rest| >= 12 && (EscapeChar(c) + rest)[12..] == rest
    ensures UnicodeEscape(EscapeChar(c) + rest) == Some(Decoded(c, 12))
  {
    var n := c as int - 0x10000;
    SurrogateSplit(n);
    var hi := 0xD800 + n / 1024;
    var lo := 0xDC00 + n % 1024;
    EscapeAstral(c);
    PairReads(hi, lo, rest);
  }

  lemma EscapeAstral(c: char)
    requires 0x10000 <= c as int
    ensures var n := c as int - 0x10000;
            n / 1024 < 0x400 && EscapeChar(c) == "\\u" + Hex4(0xD800 + n / 1024) + "\\u" + Hex4(0xDC00 + n % 1024)
  {
  }

  /** A high and a low surrogate escape read back as the character they
      encode together. */
  lemma PairReads(hi: nat, lo: nat, rest: string)
    requires 0xD800 <= hi < 0xDC00 && 0xDC00 <= lo < 0xE000
    ensures var s := "\\u" + Hex4(hi) + "\\u" + Hex4(lo) + rest;
            && |s| >= 12 && s[12..] == rest
            && UnicodeEscape(s) == Some(Decoded((0x10000 + (hi - 0xD800) * 1024 + (lo - 0xDC00)) as char, 12))
  {
    var s := "\\u" + Hex4(hi) + "\\u" + Hex4(lo) + rest;
    Hex4RoundTrip(hi);
    Hex4RoundTrip(lo);
    assert s[2..6] == Hex4(hi);
    assert s[6] == '\\' && s[7] == 'u';
    assert s[8..12] == Hex4(lo);
    assert s[12..] == rest;
  }

  lemma SurrogateSplit(n: int)
    requires 0 <= n < 0x100000
    ensures 0 <= n / 1024 < 0x400 && 0 <= n % 1024 < 0x400
    ensures n == (0xD800 + n / 1024 - 0xD800) * 1024 + (0xDC00 + n % 1024 - 0xDC00)
  {
  }

  /** Reading one escaped character back yields that character and leaves
      the rest of the text to be read on. */
  lemma UnescapeChar(c: char, rest: string)
    ensures Unescape(EscapeChar(c) + rest) == Prepend(c, Unescape(rest))
  {
    if c == '"' || c == '\\' || c == '\n' || c == '\r' || c == '\t' || c == '\U{8}' || c == '\U{c}' {
      UnescapeShortEscape(c, rest);
    } else if ' ' <= c <= '~' {
      assert (EscapeChar(c) + rest)[1..] == rest;
    } else if c as int < 0x10000 {
      UnescapeBmp(c, rest);
    } else {
      UnescapeAstral(c, rest);
    }
  }

  /** Escaping loses nothing: the escaped text reads back as the original. */
  lemma {:induction false} UnescapeEscape(s: string)
    ensures Unescape(Escape(s)) == Some(s)
    decreases |s|
  {
    if s != [] {
      UnescapeChar(s[0], Escape(s[1..]));
      UnescapeEscape(s[1..]);
      assert [s[0]] + s[1..] == s;
    }
  }

  const ChunkPrefix: string := "data: {\"choices\": [{\"delta\": {\"content\": "
  const ChunkSuffix: string := "}}]}\n\n"

  /** The terminal marker the relay sends after a normal end. */
  const DoneChunk: string := "data: [DONE]\n\n"

  /** The server-sent event carrying one text delta
      (anthropic_manifold.py lines 244, 249, 259). */
  function Chunk(text: string): string {
    ChunkPrefix + Quote(text) + ChunkSuffix
  }

  /** What a client reads out of an outbound event: the delta text, or
      `None` for anything that is not a delta event. */
  function ChunkContent(chunk: string): Option<string> {
    var p := |ChunkPrefix|;
    var q := |ChunkSuffix|;
    if |chunk| < p + q + 2 || chunk[..p] != ChunkPrefix || chunk[|chunk| - q..] != ChunkSuffix
       || chunk[p] != '"' || chunk[|chunk| - q - 1] != '"' then None
    else Unescape(chunk[p + 1..|chunk| - q - 1])
  }

  /** Every delta event carries its text intact, whatever characters it
      holds, and the terminal marker carries none. */
  lemma ChunkRoundTrip(text: string)
    ensures ChunkContent(Chunk(text)) == Some(text)
    ensures ChunkContent(DoneChunk) == None
  {
    var c := Chunk(text);
    var p := |ChunkPrefix|;
    var q := |ChunkSuffix|;
    var e := Escape(text);
    assert c == ChunkPrefix + "\"" + e + "\"" + ChunkSuffix;
    assert c[..p] == ChunkPrefix;
    assert c[|c| - q..] == ChunkSuffix;
    assert c[p] == '"';
    assert c[|c| - q - 1] == '"';
    assert c[p + 1..|c| - q - 1] == e;
    UnescapeEscape(text);
  }
}
