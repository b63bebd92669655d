/**
 The JSON text of a value, byte for byte, in the two styles PageFit counts: as
 json.dumps writes it, and as the response is written.
 */
module JsonText {
  import opened JsonValues
  import opened PageFit
  import opened Wrappers

  function Ascii(c: char): byte {
    (c as int % 128) as byte
  }

  function AsciiText(s: string): (r: seq<byte>)
    ensures |r| == |s|
  {
    seq(|s|, i requires 0 <= i < |s| => Ascii(s[i]))
  }

  function HexDigit(n: nat): byte
    requires n < 16
  {
    Ascii("0123456789abcdef"[n])
  }

  /** \uXXXX */
  function UnicodeEscape(n: nat): seq<byte>
    requires n < 0x1_0000
  {
    AsciiText("\\u") + [HexDigit(n / 4096), HexDigit(n / 256 % 16), HexDigit(n / 16 % 16), HexDigit(n % 16)]
  }

  /** UTF-8: section 3 of RFC 3629. */
  function Utf8(n: nat): seq<byte>
    requires n < 0x11_0000
  {
    if n < 0x80 then [n as byte]
    else if n < 0x800 then [(0xC0 + n / 64) as byte, (0x80 + n % 64) as byte]
    else if n < 0x1_0000 then [(0xE0 + n / 4096) as byte, (0x80 + n / 64 % 64) as byte, (0x80 + n % 64) as byte]
    else [(0xF0 + n / 0x4_0000) as byte, (0x80 + n / 4096 % 64) as byte, (0x80 + n / 64 % 64) as byte,
          (0x80 + n % 64) as byte]
  }

  /** Beyond the first plane, escapes come as a surrogate pair. */
  function Escaped(n: nat): seq<byte>
    requires n < 0x11_0000
  {
    if n < 0x1_0000 then UnicodeEscape(n)
    else UnicodeEscape(0xD800 + (n - 0x1_0000) / 1024) + UnicodeEscape(0xDC00 + (n - 0x1_0000) % 1024)
  }

  function CharText(c: char, style: Style): seq<byte> {
    if c == '"' then AsciiText("\\\"")
    else if c == '\\' then AsciiText("\\\\")
    else if c == '\n' then AsciiText("\\n")
    else if c == '\r' then AsciiText("\\r")
    else if c == '\t' then AsciiText("\\t")
    else if c == '\U{0008}' then AsciiText("\\b")
    else if c == '\U{000C}' then AsciiText("\\f")
    else if ' ' <= c <= '~' then [Ascii(c)]
    else if c < ' ' || style.Spaced? then Escaped(c as int)
    else Utf8(c as int)
  }

  function Joined(parts: seq<seq<byte>>, separator: seq<byte>): seq<byte> {
    if parts == [] then []
    else if |parts| == 1 then parts[0]
    else parts[0] + separator + Joined(parts[1..], separator)
  }

  function StringText(s: string, style: Style): seq<byte> {
    AsciiText("\"") + Joined(seq(|s|, i requires 0 <= i < |s| => CharText(s[i], style)), []) + AsciiText("\"")
  }

  function Comma(style: Style): seq<byte> { AsciiText(if style.Spaced? then ", " else ",") }

  function Colon(style: Style): seq<byte> { AsciiText(if style.Spaced? then ": " else ":") }

  function Text(node: Json, style: Style): seq<byte>
    decreases node
  {
    match node
    case Null => AsciiText("null")
    case Bool(b) => AsciiText(if b then "true" else "false")
    case Number(text) => AsciiText(text)
    case Str(s) => StringText(s, style)
    case List(items) =>
      AsciiText("[")
      + Joined(seq(|items|, i requires 0 <= i < |items| => Text(items[i], style)), Comma(style)) + AsciiText("]")
    case Dict(fields) =>
      AsciiText("{")
      + Joined(seq(|fields|, i requires 0 <= i < |fields| =>
                 StringText(fields[i].key, style) + Colon(style) + Text(fields[i].value, style)), Comma(style))
      + AsciiText("}")
  }

  // ---- What PageFit counts ---------------------------------------------------------------------

  lemma CharSizeIsLength(c: char, style: Style)
    ensures |CharText(c, style)| == CharSize(c, style)
  {}

  lemma {:induction false} JoinedLength(parts: seq<seq<byte>>, separator: seq<byte>, sizes: seq<nat>)
    requires |sizes| == |parts| && forall i | 0 <= i < |parts| :: |parts[i]| == sizes[i]
    ensures |Joined(parts, separator)| == Total(sizes) + if |parts| == 0 then 0 else |separator| * (|parts| - 1)
  {
    if |parts| > 1 {
      JoinedLength(parts[1..], separator, sizes[1..]);
      assert |separator| * (|parts| - 1) == |separator| * (|parts| - 2) + |separator|;
    } else if |parts| == 1 {
      assert sizes[1..] == [];
    }
  }

  lemma StringSizeIsLength(s: string, style: Style)
    ensures |StringText(s, style)| == TextSize(s, style)
  {
    var parts := seq(|s|, i requires 0 <= i < |s| => CharText(s[i], style));
    var sizes := seq(|s|, i requires 0 <= i < |s| => CharSize(s[i], style));
    forall i | 0 <= i < |s| ensures |parts[i]| == sizes[i] {
      CharSizeIsLength(s[i], style);
    }
    JoinedLength(parts, [], sizes);
  }

  /** The sizes PageFit works with are the lengths of the texts, for every value and in both styles. */
  lemma {:induction false} SizeIsLength(node: Json, style: Style)
    ensures |Text(node, style)| == Size(node, style)
    decreases node
  {
    hide Joined, Total, StringText, TextSize;
    match node
    case Str(s) => StringSizeIsLength(s, style);
    case List(items) =>
      var parts := seq(|items|, i requires 0 <= i < |items| => Text(items[i], style));
      var sizes := seq(|items|, i requires 0 <= i < |items| => Size(items[i], style));
      forall i | 0 <= i < |items| ensures |parts[i]| == sizes[i] {
        SizeIsLength(items[i], style);
      }
      JoinedLength(parts, Comma(style), sizes);
    case Dict(fields) =>
      var parts := seq(|fields|, i requires 0 <= i < |fields| =>
        StringText(fields[i].key, style) + Colon(style) + Text(fields[i].value, style));
      var sizes := seq(|fields|, i requires 0 <= i < |fields| =>
        TextSize(fields[i].key, style) + Separator(style) + Size(fields[i].value, style));
      forall i | 0 <= i < |fields| ensures |parts[i]| == sizes[i] {
        StringSizeIsLength(fields[i].key, style);
        SizeIsLength(fields[i].value, style);
      }
      JoinedLength(parts, Comma(style), sizes);
    case _ =>
  }
}
