/** Cap'n Proto text literals: the writer quotes runs of ASCII with the host language's quoting
    and every other byte as a hex escape; the reader knows short escapes and two-digit hex ones. */
module CapnpText {
  import opened Outcomes

  type Byte = b: int | 0 <= b < 256

  const HEX := "0123456789abcdef"

  // ----- the reader

  function HexValue(c: char): Option<nat> {
    if '0' <= c <= '9' then Some((c - '0') as nat)
    else if 'a' <= c <= 'f' then Some((c - 'a') as nat + 10)
    else if 'A' <= c <= 'F' then Some((c - 'A') as nat + 10)
    else None
  }

  function ShortEscape(c: char): Option<Byte> {
    match c
    case 'a' => Some(7)
    case 'b' => Some(8)
    case 't' => Some(9)
    case 'n' => Some(10)
    case 'v' => Some(11)
    case 'f' => Some(12)
    case 'r' => Some(13)
    case '"' => Some(34)
    case '\'' => Some(39)
    case '\\' => Some(92)
    case _ => None
  }

  /** One byte of the literal, and how much of the text it takes. */
  function ReadByte(t: string): (r: Option<(Byte, nat)>)
    ensures r.Some? ==> 0 < r.value.1 <= |t|
  {
    if t == "" then None
    else if t[0] != '\\' then
      if t[0] as int < 256 then Some((t[0] as int, 1)) else None
    else if |t| < 2 then None
    else if t[1] != 'x' then
      (match ShortEscape(t[1]) case Some(b) => Some((b, 2)) case None => None)
    else if |t| < 4 || HexValue(t[2]).None? || HexValue(t[3]).None? then None
    else Some((HexValue(t[2]).value * 16 + HexValue(t[3]).value, 4))
  }

  /** The bytes up to the closing quote, and the text after it. */
  function ReadRest(t: string): Option<(seq<Byte>, string)>
    decreases |t|
  {
    if t == "" then None
    else if t[0] == '"' then Some(([], t[1..]))
    else
      match ReadByte(t)
      case None => None
      case Some((b, n)) =>
        match ReadRest(t[n..])
        case None => None
        case Some((bytes, rest)) => Some(([b] + bytes, rest))
  }

  function ReadLiteral(t: string): Option<(seq<Byte>, string)> {
    if t == "" || t[0] != '"' then None else ReadRest(t[1..])
  }

  // ----- the writer

  function HexEscape(b: Byte): string {
    "\\x" + [HEX[b / 16], HEX[b % 16]]
  }

  /** Go's quoting of one ASCII byte. */
  function GoEscape(b: Byte): string {
    if b == 34 then "\\\""
    else if b == 92 then "\\\\"
    else if 32 <= b < 127 then [b as char]
    else if b == 7 then "\\a"
    else if b == 8 then "\\b"
    else if b == 12 then "\\f"
    else if b == 10 then "\\n"
    else if b == 13 then "\\r"
    else if b == 9 then "\\t"
    else if b == 11 then "\\v"
    else HexEscape(b)
  }

  function GoEscapes(bytes: seq<Byte>): string {
    if bytes == [] then "" else GoEscape(bytes[0]) + GoEscapes(bytes[1..])
  }

  /** strconv.Quote on a string of ASCII bytes. */
  function GoQuote(bytes: seq<Byte>): (quoted: string)
    ensures |quoted| >= 2
  {
    "\"" + GoEscapes(bytes) + "\""
  }

  function EscapeByte(b: Byte): string {
    if b < 128 then GoEscape(b) else HexEscape(b)
  }

  function Escape(bytes: seq<Byte>): string {
    if bytes == [] then "" else EscapeByte(bytes[0]) + Escape(bytes[1..])
  }

  lemma {:induction false} EscapeAppend(a: seq<Byte>, b: seq<Byte>)
    ensures Escape(a + b) == Escape(a) + Escape(b)
    decreases |a|
  {
    hide EscapeByte;
    if a == [] {
      assert a + b == b;
    } else {
      assert (a + b)[1..] == a[1..] + b;
      EscapeAppend(a[1..], b);
      assert Escape(a + b) == EscapeByte(a[0]) + (Escape(a[1..]) + Escape(b));
    }
  }

  lemma {:induction false} AsciiEscapes(bytes: seq<Byte>)
    requires forall k :: 0 <= k < |bytes| ==> bytes[k] < 128
    ensures GoEscapes(bytes) == Escape(bytes)
    decreases |bytes|
  {
    hide GoEscape;
    if bytes != [] {
      AsciiEscapes(bytes[1..]);
    }
  }

  /** Quotes runs of ASCII whole and escapes the bytes between them one by one. */
  method CapnpQuote(source: seq<Byte>) returns (quoted: string)
    ensures quoted == "\"" + Escape(source) + "\""
  {
    hide Escape, EscapeByte, GoEscapes, GoEscape;
    var out := "\"";
    var start := 0;
    EscapeNothing();
    for i := 0 to |source|
      invariant start <= i
      invariant out == "\"" + Escape(source[..start])
      invariant forall k :: start <= k < i ==> source[k] < 128
    {
      if source[i] >= 128 {
        var run := GoQuote(source[start..i]);
        RunThenByte(source, start, i);
        out := out + run[1..|run| - 1] + "\\x" + [HEX[source[i] / 16]] + [HEX[source[i] % 16]];
        start := i + 1;
      }
    }
    var run := GoQuote(source[start..]);
    AsciiEscapes(source[start..]);
    EscapeAppend(source[..start], source[start..]);
    assert source[..start] + source[start..] == source;
    quoted := out + run[1..|run| - 1] + "\"";
  }

  lemma EscapeNothing()
    ensures Escape([]) == ""
  {
  }

  lemma RunThenByte(source: seq<Byte>, start: nat, i: nat)
    requires start <= i < |source| && source[i] >= 128 && forall k :: start <= k < i ==> source[k] < 128
    ensures Escape(source[..i + 1]) == Escape(source[..start]) + GoEscapes(source[start..i]) + HexEscape(source[i])
  {
    hide GoEscape, HexEscape;
    AsciiEscapes(source[start..i]);
    EscapeAppend(source[..start], source[start..i]);
    EscapeAppend(source[..i], [source[i]]);
    assert source[..start] + source[start..i] == source[..i];
    assert source[..i] + [source[i]] == source[..i + 1];
    assert Escape([source[i]]) == EscapeByte(source[i]) + Escape([]);
  }

  // ----- the round trip

  lemma ReadHex(b: Byte, rest: string)
    ensures ReadByte(HexEscape(b) + rest) == Some((b, 4)) && |HexEscape(b)| == 4 && HexEscape(b)[0] != '"'
  {
    hide HexValue;
    var t := HexEscape(b) + rest;
    HexDigits(b / 16);
    HexDigits(b % 16);
    assert t[0] == '\\' && t[1] == 'x' && t[2] == HEX[b / 16] && t[3] == HEX[b % 16];
  }

  lemma ReadShort(b: Byte, rest: string)
    requires b == 34 || b == 92 || 7 <= b <= 13
    ensures ReadByte(GoEscape(b) + rest) == Some((b, 2)) && |GoEscape(b)| == 2 && GoEscape(b)[0] != '"'
  {
    hide HexEscape, HexValue;
    var e, t := GoEscape(b), GoEscape(b) + rest;
    assert t[0] == '\\' && t[1] == e[1];
  }

  lemma ReadPlain(b: Byte, rest: string)
    requires 32 <= b < 127 && b != 34 && b != 92
    ensures ReadByte(GoEscape(b) + rest) == Some((b, 1)) && |GoEscape(b)| == 1 && GoEscape(b)[0] != '"'
  {
    hide HexEscape, HexValue, ShortEscape;
    var t := GoEscape(b) + rest;
    assert t[0] == b as char;
  }

  lemma ReadEscapedByte(b: Byte, rest: string)
    ensures ReadByte(EscapeByte(b) + rest) == Some((b, |EscapeByte(b)|))
    ensures EscapeByte(b) != "" && EscapeByte(b)[0] != '"'
  {
    hide ReadByte, HexEscape;
    if b == 34 || b == 92 || 7 <= b <= 13 {
      ReadShort(b, rest);
    } else if 32 <= b < 127 {
      ReadPlain(b, rest);
    } else {
      ReadHex(b, rest);
    }
  }

  lemma HexDigits(v: nat)
    requires v < 16
    ensures HexValue(HEX[v]) == Some(v)
  {
  }

  /** The reader gives back exactly the bytes, whatever text follows the literal. */
  lemma {:induction false} ReadEscaped(bytes: seq<Byte>, rest: string)
    ensures ReadRest(Escape(bytes) + "\"" + rest) == Some((bytes, rest))
    decreases |bytes|
  {
    hide ReadByte, EscapeByte;
    var t := Escape(bytes) + "\"" + rest;
    if bytes == [] {
      assert t == "\"" + rest;
    } else {
      var head, tail := EscapeByte(bytes[0]), Escape(bytes[1..]) + "\"" + rest;
      assert t == head + tail;
      ReadEscapedByte(bytes[0], tail);
      assert t[0] == head[0] && t[|head|..] == tail;
      ReadEscaped(bytes[1..], rest);
      assert bytes == [bytes[0]] + bytes[1..];
    }
  }

  lemma QuoteRoundTrip(bytes: seq<Byte>, rest: string)
    ensures ReadLiteral("\"" + Escape(bytes) + "\"" + rest) == Some((bytes, rest))
  {
    hide Escape, ReadRest;
    var t := "\"" + Escape(bytes) + "\"" + rest;
    assert t[1..] == Escape(bytes) + "\"" + rest;
    ReadEscaped(bytes, rest);
  }

  /** The writer emits printable ASCII only. */
  lemma {:induction false} EscapeIsPrintable(bytes: seq<Byte>)
    ensures forall c :: c in Escape(bytes) ==> ' ' <= c <= '~'
    decreases |bytes|
  {
    if bytes != [] {
      EscapeIsPrintable(bytes[1..]);
      assert forall d: nat :: d < 16 ==> ' ' <= HEX[d] <= '~';
      assert forall c :: c in EscapeByte(bytes[0]) ==> ' ' <= c <= '~';
    }
  }

  /** Which form a byte takes: itself when it is printable and neither quote nor backslash, two
      characters when it has a short escape of its own, four in lower-case hex otherwise. */
  lemma EscapeForms(b: Byte)
    ensures 32 <= b < 127 && b != 34 && b != 92 ==> EscapeByte(b) == [b as char]
    ensures |EscapeByte(b)| == 2 <==> b == 34 || b == 92 || 7 <= b <= 13
    ensures b < 7 || 13 < b < 32 || b >= 127 ==>
      |EscapeByte(b)| == 4 && forall i :: 2 <= i < 4 ==>
        '0' <= EscapeByte(b)[i] <= '9' || 'a' <= EscapeByte(b)[i] <= 'f'
  {
    assert forall d: nat :: d < 16 ==> '0' <= HEX[d] <= '9' || 'a' <= HEX[d] <= 'f';
  }
}
