/**
 * The OAuth `state` value: `json.dumps({key: id})` with Python's default
 * settings (ASCII-only output, `", "` and `": "` separators), encoded as
 * bytes and then as padded base64url. `Decode` is the reference partner a
 * callback endpoint would use to recover the id.
 */
module StateToken {
  import opened Wrappers
  import Base64Url

  function HexDigit(d: int): (c: char)
    requires 0 <= d < 16
  {
    if d < 10 then ('0' as int + d) as char else ('a' as int + (d - 10)) as char
  }

  function HexValue(c: char): (r: Option<int>)
    ensures r.Some? ==> 0 <= r.value < 16
  {
    if '0' <= c <= '9' then Some(c as int - '0' as int)
    else if 'a' <= c <= 'f' then Some(c as int - 'a' as int + 10)
    else if 'A' <= c <= 'F' then Some(c as int - 'A' as int + 10)
    else None
  }

  /** Four lower-case hex digits, as in Python's `'{0:04x}'`. */
  function Hex4(n: int): (r: string)
    requires 0 <= n < 0x10000
    ensures |r| == 4
  {
    [HexDigit(n / 4096), HexDigit((n / 256) % 16), HexDigit((n / 16) % 16), HexDigit(n % 16)]
  }

  function ParseHex4(s: string): (r: Option<int>)
    requires |s| == 4
    ensures r.Some? ==> 0 <= r.value < 0x10000
  {
    match (HexValue(s[0]), HexValue(s[1]), HexValue(s[2]), HexValue(s[3]))
    case (Some(a), Some(b), Some(c), Some(d)) => Some(a * 4096 + b * 256 + c * 16 + d)
    case _ => None
  }

  lemma Hex4RoundTrip(n: int)
    requires 0 <= n < 0x10000
    ensures ParseHex4(Hex4(n)) == Some(n)
  {
    var h := Hex4(n);
    HexDigitValue(n / 4096);
    HexDigitValue((n / 256) % 16);
    HexDigitValue((n / 16) % 16);
    HexDigitValue(n % 16);
    assert (HexValue(h[0]), HexValue(h[1]), HexValue(h[2]), HexValue(h[3]))
        == (Some(n / 4096), Some((n / 256) % 16), Some((n / 16) % 16), Some(n % 16));
    assert n == (n / 16) * 16 + n % 16;
    assert n / 16 == (n / 256) * 16 + (n / 16) % 16;
    assert n / 256 == (n / 4096) * 16 + (n / 256) % 16;
  }

  /** Each hex digit reads back as its value. */
  lemma HexDigitValue(d: int)
    requires 0 <= d < 16
    ensures HexValue(HexDigit(d)) == Some(d)
  {
  }

  /** The escape `json.dumps` writes for one character when `ensure_ascii` is on. */
  function EscapeChar(c: char): (r: string)
    ensures |r| > 0
  {
    if c == '"' then "\\\""
    else if c == '\\' then "\\\\"
    else if c == '\n' then "\\n"
    else if c == '\r' then "\\r"
    else if c == '\t' then "\\t"
    else if c as int == 8 then "\\b"
    else if c as int == 12 then "\\f"
    else if ' ' <= c <= '~' then [c]
    else if c as int < 0x10000 then "\\u" + Hex4(c as int)
    else
      var v := c as int - 0x10000;
      "\\u" + Hex4(0xD800 + v / 1024) + "\\u" + Hex4(0xDC00 + v % 1024)
  }

  function Escape(s: string): string {
    if s == [] then [] else EscapeChar(s[0]) + Escape(s[1..])
  }

  /** A JSON string literal as `json.dumps` writes it. */
  function Quote(s: string): string {
    "\"" + Escape(s) + "\""
  }

  /** `json.dumps({key: value})` for string key and value. */
  function DumpsPair(key: string, value: string): string {
    "{" + Quote(key) + ": " + Quote(value) + "}"
  }

  predicate IsPrintableAscii(s: string) {
    forall i :: 0 <= i < |s| ==> ' ' <= s[i] <= '~'
  }

  lemma EscapeCharPrintable(c: char)
    ensures IsPrintableAscii(EscapeChar(c))
  {
    if c as int >= 0x10000 {
      var v := c as int - 0x10000;
      assert v / 1024 < 1024;
    }
  }

  lemma {:induction false} EscapePrintable(s: string)
    ensures IsPrintableAscii(Escape(s))
  {
    if s != [] {
      EscapeCharPrintable(s[0]);
      EscapePrintable(s[1..]);
    }
  }

  /** The output of `json.dumps` is printable ASCII, whatever the id holds. */
  lemma DumpsPairPrintable(key: string, value: string)
    ensures IsPrintableAscii(DumpsPair(key, value))
  {
    EscapePrintable(key);
    EscapePrintable(value);
    PrintableConcat("\"", Escape(key));
    PrintableConcat("\"" + Escape(key), "\"");
    PrintableConcat("\"", Escape(value));
    PrintableConcat("\"" + Escape(value), "\"");
    PrintableConcat("{", Quote(key));
    PrintableConcat("{" + Quote(key), ": ");
    PrintableConcat("{" + Quote(key) + ": ", Quote(value));
    PrintableConcat("{" + Quote(key) + ": " + Quote(value), "}");
  }

  lemma PrintableConcat(a: string, b: string)
    requires IsPrintableAscii(a) && IsPrintableAscii(b)
    ensures IsPrintableAscii(a + b)
  {
    forall i | 0 <= i < |a + b| ensures ' ' <= (a + b)[i] <= '~' {
      if i < |a| { assert (a + b)[i] == a[i]; } else { assert (a + b)[i] == b[i - |a|]; }
    }
  }

  /** The character a `\u` escape (and its low surrogate, if any) stands for. */
  function ReadUnicode(t: string): (r: Option<(char, nat)>)
    requires |t| >= 6
    ensures r.Some? ==> 6 <= r.value.1 <= |t|
  {
    match ParseHex4(t[2..6])
    case None => None
    case Some(h) =>
      if 0xD800 <= h < 0xDC00 then
        if |t| >= 12 && t[6] == '\\' && t[7] == 'u' then
          match ParseHex4(t[8..12])
          case Some(l) =>
            if 0xDC00 <= l < 0xE000 then
              assert (h - 0xD800) * 1024 <= 1023 * 1024;
              Some(((0x10000 + (h - 0xD800) * 1024 + (l - 0xDC00)) as char, 12))
            else None
          case None => None
        else None
      else if 0xDC00 <= h < 0xE000 then None
      else Some((h as char, 6))
  }

  /** One character of a JSON string body, with the number of characters it took. */
  function ReadChar(t: string): (r: Option<(char, nat)>)
    requires t != []
    ensures r.Some? ==> 1 <= r.value.1 <= |t|
  {
    if t[0] == '\\' then
      if |t| < 2 then None
      else if t[1] == '"' then Some(('"', 2))
      else if t[1] == '\\' then Some(('\\', 2))
      else if t[1] == '/' then Some(('/', 2))
      else if t[1] == 'b' then Some((8 as char, 2))
      else if t[1] == 'f' then Some((12 as char, 2))
      else if t[1] == 'n' then Some(('\n', 2))
      else if t[1] == 'r' then Some(('\r', 2))
      else if t[1] == 't' then Some(('\t', 2))
      else if t[1] == 'u' && |t| >= 6 then ReadUnicode(t)
      else None
    else if t[0] == '"' || t[0] as int < 0x20 then None
    else Some((t[0], 1))
  }

  /** The characters a JSON string body stands for; `None` if it is malformed. */
  function Unescape(t: string): Option<string>
    decreases |t|
  {
    if t == [] then Some([])
    else
      match ReadChar(t)
      case None => None
      case Some((c, n)) =>
        match Unescape(t[n..])
        case None => None
        case Some(rest) => Some([c] + rest)
  }

  /** A character above the Basic Multilingual Plane is read back from its surrogate pair. */
  lemma ReadSurrogatePair(c: char, rest: string)
    requires c as int >= 0x10000
    ensures ReadChar(EscapeChar(c) + rest) == Some((c, 12))
  {
    var v := c as int - 0x10000;
    var hi, lo := 0xD800 + v / 1024, 0xDC00 + v % 1024;
    var t := EscapeChar(c) + rest;
    assert t == "\\u" + Hex4(hi) + "\\u" + Hex4(lo) + rest;
    Hex4RoundTrip(hi);
    Hex4RoundTrip(lo);
    assert t[2..6] == Hex4(hi) && t[8..12] == Hex4(lo);
    assert 0x10000 + (hi - 0xD800) * 1024 + (lo - 0xDC00) == c as int;
  }

  lemma ReadEscapedChar(c: char, rest: string)
    ensures ReadChar(EscapeChar(c) + rest) == Some((c, |EscapeChar(c)|))
  {
    var t := EscapeChar(c) + rest;
    if c as int >= 0x10000 {
      ReadSurrogatePair(c, rest);
    } else if c as int >= 0x7F || (c as int < 0x20 && c != '\n' && c != '\r' && c != '\t' && c as int != 8 && c as int != 12) {
      Hex4RoundTrip(c as int);
      assert t[2..6] == Hex4(c as int);
    }
  }

  /** Reading back what `json.dumps` escaped gives the original text. */
  lemma {:induction false} UnescapeEscape(s: string)
    ensures Unescape(Escape(s)) == Some(s)
  {
    if s != [] {
      var e := EscapeChar(s[0]);
      ReadEscapedChar(s[0], Escape(s[1..]));
      UnescapeEscape(s[1..]);
      assert (e + Escape(s[1..]))[|e|..] == Escape(s[1..]);
      assert s == [s[0]] + s[1..];
    }
  }

  function Prefix(key: string): string {
    "{" + Quote(key) + ": \""
  }

  /** Reads `{"<key>": "<value>"}` back into the value. */
  function LoadsPair(key: string, text: string): Option<string> {
    var p := Prefix(key);
    if |text| >= |p| + 2 && text[..|p|] == p && text[|text| - 2..] == "\"}" then
      Unescape(text[|p|..|text| - 2])
    else None
  }

  lemma Slices3(a: string, b: string, c: string)
    ensures (a + b + c)[..|a|] == a
    ensures (a + b + c)[|a|..|a| + |b|] == b
    ensures (a + b + c)[|a| + |b|..] == c
  {
  }

  lemma LoadsDumpsPair(key: string, value: string)
    ensures LoadsPair(key, DumpsPair(key, value)) == Some(value)
  {
    var e := Escape(value);
    assert DumpsPair(key, value) == Prefix(key) + e + "\"}";
    LoadsPairOf(key, e);
    UnescapeEscape(value);
  }

  /** The reader strips the prefix and the closing quote and brace, and unescapes what is between. */
  lemma LoadsPairOf(key: string, e: string)
    ensures LoadsPair(key, Prefix(key) + e + "\"}") == Unescape(e)
  {
    var p := Prefix(key);
    var text := p + e + "\"}";
    Slices3(p, e, "\"}");
    assert |text| == |p| + |e| + 2;
    assert text[|p|..|text| - 2] == e;
  }

  /** Bytes of an ASCII text: what `.encode()` gives for it. */
  function AsciiBytes(s: string): (b: seq<Base64Url.byte>)
    requires IsPrintableAscii(s)
    ensures |b| == |s|
  {
    seq(|s|, i requires 0 <= i < |s| => s[i] as int)
  }

  /** The text of a byte string, read as ASCII; `None` if some byte is not ASCII. */
  function AsciiText(b: seq<Base64Url.byte>): (r: Option<string>)
    ensures r.Some? ==> |r.value| == |b|
  {
    if forall i :: 0 <= i < |b| ==> b[i] < 128 then
      Some(seq(|b|, i requires 0 <= i < |b| => b[i] as char))
    else None
  }

  lemma AsciiRoundTrip(s: string)
    requires IsPrintableAscii(s)
    ensures AsciiText(AsciiBytes(s)) == Some(s)
  {
    var b := AsciiBytes(s);
    assert forall i :: 0 <= i < |b| ==> b[i] < 128;
    assert seq(|b|, i requires 0 <= i < |b| => b[i] as char) == s;
  }

  /** `base64.urlsafe_b64encode(json.dumps({key: id}).encode()).decode()` */
  function Encode(key: string, id: string): string {
    DumpsPairPrintable(key, id);
    Base64Url.Encode(AsciiBytes(DumpsPair(key, id)))
  }

  /** Base64url-decode, read as ASCII, then parse the one-key JSON object. */
  function Decode(key: string, token: string): Option<string> {
    match Base64Url.Decode(token)
    case None => None
    case Some(bytes) =>
      match AsciiText(bytes)
      case None => None
      case Some(text) => LoadsPair(key, text)
  }

  /** Decoding a state token recovers the id it was made from. */
  lemma DecodeEncode(key: string, id: string)
    ensures Decode(key, Encode(key, id)) == Some(id)
  {
    var text := DumpsPair(key, id);
    DumpsPairPrintable(key, id);
    var bytes := AsciiBytes(text);
    Base64Url.DecodeEncode(bytes);
    AsciiRoundTrip(text);
    LoadsDumpsPair(key, id);
  }

  /**
   * `token` is a state token for `id` under `key`: it decodes back to `id`,
   * has the padded length of the JSON text's bytes and uses only the
   * URL-safe alphabet and '='.
   */
  predicate Carries(key: string, id: string, token: string) {
    && Decode(key, token) == Some(id)
    && |token| == 4 * ((|DumpsPair(key, id)| + 2) / 3)
    && forall i :: 0 <= i < |token| ==> Base64Url.IsEncodedChar(token[i])
  }

  /**
   * The facts a caller needs about a token: it decodes back to the id, it
   * uses only the URL-safe alphabet and '=', and its length is 4 * ceil(n / 3)
   * for the n bytes of the JSON text.
   */
  lemma TokenFacts(key: string, id: string)
    ensures Decode(key, Encode(key, id)) == Some(id)
    ensures |Encode(key, id)| == 4 * ((|DumpsPair(key, id)| + 2) / 3)
    ensures forall i :: 0 <= i < |Encode(key, id)| ==> Base64Url.IsEncodedChar(Encode(key, id)[i])
  {
    DecodeEncode(key, id);
  }
}
