/**
 * Base64 with the URL- and filename-safe alphabet and `=` padding, as in
 * section 5 of RFC 4648: what Python's `base64.urlsafe_b64encode` produces.
 * The decoder is the reference partner of the encoder.
 */
module Base64Url {
  import opened Wrappers

  type byte = x: int | 0 <= x < 256

  /** The character for a 6-bit value: A-Z, a-z, 0-9, '-' and '_' in that order. */
  function CharOf(i: int): (c: char)
    requires 0 <= i < 64
    ensures IsAlphabetChar(c)
  {
    if i < 26 then ('A' as int + i) as char
    else if i < 52 then ('a' as int + (i - 26)) as char
    else if i < 62 then ('0' as int + (i - 52)) as char
    else if i == 62 then '-'
    else '_'
  }

  predicate IsAlphabetChar(c: char) {
    ('A' <= c <= 'Z') || ('a' <= c <= 'z') || ('0' <= c <= '9') || c == '-' || c == '_'
  }

  /** The characters an encoded text may contain: the alphabet and the pad. */
  predicate IsEncodedChar(c: char) {
    IsAlphabetChar(c) || c == '='
  }

  /** The 6-bit value of an alphabet character, `None` for any other character. */
  function IndexOf(c: char): (r: Option<int>)
    ensures r.Some? <==> IsAlphabetChar(c)
    ensures r.Some? ==> 0 <= r.value < 64 && CharOf(r.value) == c
  {
    if 'A' <= c <= 'Z' then Some(c as int - 'A' as int)
    else if 'a' <= c <= 'z' then Some(c as int - 'a' as int + 26)
    else if '0' <= c <= '9' then Some(c as int - '0' as int + 52)
    else if c == '-' then Some(62)
    else if c == '_' then Some(63)
    else None
  }

  lemma IndexOfCharOf(i: int)
    requires 0 <= i < 64
    ensures IndexOf(CharOf(i)) == Some(i)
  {
  }

  /** Three bytes as four characters. */
  function Quad3(a: byte, b: byte, c: byte): (q: string)
    ensures |q| == 4 && forall i :: 0 <= i < 4 ==> IsEncodedChar(q[i])
  {
    [CharOf(a / 4), CharOf((a % 4) * 16 + b / 16), CharOf((b % 16) * 4 + c / 64), CharOf(c % 64)]
  }

  /** Two final bytes as three characters and one pad. */
  function Quad2(a: byte, b: byte): (q: string)
    ensures |q| == 4 && forall i :: 0 <= i < 4 ==> IsEncodedChar(q[i])
  {
    [CharOf(a / 4), CharOf((a % 4) * 16 + b / 16), CharOf((b % 16) * 4), '=']
  }

  /** One final byte as two characters and two pads. */
  function Quad1(a: byte): (q: string)
    ensures |q| == 4 && forall i :: 0 <= i < 4 ==> IsEncodedChar(q[i])
  {
    [CharOf(a / 4), CharOf((a % 4) * 16), '=', '=']
  }

  /** `base64.urlsafe_b64encode(data)`, as text. */
  function Encode(data: seq<byte>): (r: string)
    ensures |r| == 4 * ((|data| + 2) / 3)
    ensures forall i :: 0 <= i < |r| ==> IsEncodedChar(r[i])
  {
    if |data| == 0 then []
    else if |data| == 1 then Quad1(data[0])
    else if |data| == 2 then Quad2(data[0], data[1])
    else
      var head, tail := Quad3(data[0], data[1], data[2]), Encode(data[3..]);
      assert (|data| + 2) / 3 == (|data[3..]| + 2) / 3 + 1;
      assert forall i :: 0 <= i < |head + tail| ==> IsEncodedChar((head + tail)[i]) by {
        forall i | 0 <= i < |head + tail| ensures IsEncodedChar((head + tail)[i]) {
          if i < 4 { assert (head + tail)[i] == head[i]; } else { assert (head + tail)[i] == tail[i - 4]; }
        }
      }
      head + tail
  }

  /** The bytes of one group of four characters; `last` says whether padding may appear. */
  function DecodeQuad(q: string, last: bool): Option<seq<byte>>
    requires |q| == 4
  {
    match (IndexOf(q[0]), IndexOf(q[1]), IndexOf(q[2]), IndexOf(q[3]))
    case (Some(i0), Some(i1), Some(i2), Some(i3)) =>
      Some([i0 * 4 + i1 / 16, (i1 % 16) * 16 + i2 / 4, (i2 % 4) * 64 + i3])
    case (Some(i0), Some(i1), Some(i2), None) =>
      if last && q[3] == '=' then Some([i0 * 4 + i1 / 16, (i1 % 16) * 16 + i2 / 4]) else None
    case (Some(i0), Some(i1), None, None) =>
      if last && q[2] == '=' && q[3] == '=' then Some([i0 * 4 + i1 / 16]) else None
    case _ => None
  }

  /** Reference decoder: `None` for a text that is not padded base64url. */
  function Decode(s: string): Option<seq<byte>>
    decreases |s|
  {
    if s == [] then Some([])
    else if |s| < 4 then None
    else
      match DecodeQuad(s[..4], |s| == 4)
      case None => None
      case Some(head) =>
        match Decode(s[4..])
        case None => None
        case Some(tail) => Some(head + tail)
  }

  /** Regrouping three bytes into four 6-bit values and back gives the bytes. */
  lemma Regroup3(a: byte, b: byte, c: byte)
    ensures var i1, i2 := (a % 4) * 16 + b / 16, (b % 16) * 4 + c / 64;
      && (a / 4) * 4 + i1 / 16 == a
      && (i1 % 16) * 16 + i2 / 4 == b
      && (i2 % 4) * 64 + c % 64 == c
  {
    var i1, i2 := (a % 4) * 16 + b / 16, (b % 16) * 4 + c / 64;
    assert i1 / 16 == a % 4 && i1 % 16 == b / 16;
    assert i2 / 4 == b % 16 && i2 % 4 == c / 64;
  }

  lemma Quad3RoundTrip(a: byte, b: byte, c: byte, last: bool)
    ensures DecodeQuad(Quad3(a, b, c), last) == Some([a, b, c])
  {
    var i0, i1, i2, i3 := a / 4, (a % 4) * 16 + b / 16, (b % 16) * 4 + c / 64, c % 64;
    var q := Quad3(a, b, c);
    IndexOfCharOf(i0);
    IndexOfCharOf(i1);
    IndexOfCharOf(i2);
    IndexOfCharOf(i3);
    assert (IndexOf(q[0]), IndexOf(q[1]), IndexOf(q[2]), IndexOf(q[3])) == (Some(i0), Some(i1), Some(i2), Some(i3));
    Regroup3(a, b, c);
  }

  lemma Quad2RoundTrip(a: byte, b: byte)
    ensures DecodeQuad(Quad2(a, b), true) == Some([a, b])
  {
    IndexOfCharOf(a / 4);
    IndexOfCharOf((a % 4) * 16 + b / 16);
    IndexOfCharOf((b % 16) * 4);
  }

  lemma Quad1RoundTrip(a: byte)
    ensures DecodeQuad(Quad1(a), true) == Some([a])
  {
    IndexOfCharOf(a / 4);
    IndexOfCharOf((a % 4) * 16);
  }

  lemma DecodeFinalQuad(q: string, bytes: seq<byte>)
    requires |q| == 4 && DecodeQuad(q, true) == Some(bytes)
    ensures Decode(q) == Some(bytes)
  {
    assert q[..4] == q && q[4..] == [];
    assert bytes + [] == bytes;
  }

  lemma DecodeInnerQuad(q: string, rest: string, head: seq<byte>, tail: seq<byte>)
    requires |q| == 4 && rest != []
    requires DecodeQuad(q, false) == Some(head) && Decode(rest) == Some(tail)
    ensures Decode(q + rest) == Some(head + tail)
  {
    assert (q + rest)[..4] == q && (q + rest)[4..] == rest;
  }

  /** Decoding what was encoded gives back the same bytes. */
  lemma {:induction false} DecodeEncode(data: seq<byte>)
    ensures Decode(Encode(data)) == Some(data)
    decreases |data|
  {
    if |data| == 1 {
      Quad1RoundTrip(data[0]);
      assert data == [data[0]];
      DecodeFinalQuad(Quad1(data[0]), data);
    } else if |data| == 2 {
      Quad2RoundTrip(data[0], data[1]);
      assert data == [data[0], data[1]];
      DecodeFinalQuad(Quad2(data[0], data[1]), data);
    } else if |data| >= 3 {
      var q := Quad3(data[0], data[1], data[2]);
      assert data[..3] == [data[0], data[1], data[2]];
      if |data| == 3 {
        Quad3RoundTrip(data[0], data[1], data[2], true);
        assert data == data[..3] && Encode(data) == q + [] == q;
        DecodeFinalQuad(q, data);
      } else {
        Quad3RoundTrip(data[0], data[1], data[2], false);
        DecodeEncode(data[3..]);
        DecodeInnerQuad(q, Encode(data[3..]), data[..3], data[3..]);
        assert data == data[..3] + data[3..];
      }
    }
  }
}
