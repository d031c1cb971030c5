/** Bytes, and the two text forms the crypto provider uses. */
module Bytes {
  import opened Common

  type Byte = x: int | 0 <= x < 256

  /** A UTF-8 codec, kept abstract: it reads back what it wrote, in at most four bytes a character. */
  datatype Utf8 = Utf8(encode: string -> seq<Byte>, decode: seq<Byte> -> string)

  ghost predicate Faithful(utf8: Utf8) {
    forall text :: utf8.decode(utf8.encode(text)) == text && |utf8.encode(text)| <= 4 * |text|
  }

  /** A secret is a text or bytes. */
  datatype Scalar = Text(text: string) | Binary(bytes: seq<Byte>)

  function ByteSize(v: Scalar, utf8: Utf8): nat {
    match v
    case Text(text) => |utf8.encode(text)|
    case Binary(bytes) => |bytes|
  }

  const MAX_BUFFER := 5_000_000

  /** The bytes of a scalar, unless there are too many. */
  function ToBuffer(v: Scalar, utf8: Utf8): (bytes: Option<seq<Byte>>)
    ensures bytes.Some? <==> ByteSize(v, utf8) <= MAX_BUFFER
    ensures bytes.Some? ==> |bytes.value| == ByteSize(v, utf8)
  {
    if ByteSize(v, utf8) > MAX_BUFFER then None
    else
      match v
      case Text(text) => Some(utf8.encode(text))
      case Binary(bytes) => Some(bytes)
  }

  function Ascii(text: string): seq<Byte> {
    seq(|text|, i requires 0 <= i < |text| => text[i] as int % 128)
  }

  // ---- base64url without padding: section 5 of RFC 4648 ----

  type Digit = x: int | 0 <= x < 64

  function DigitChar(d: Digit): char {
    if d < 26 then ('A' as int + d) as char
    else if d < 52 then ('a' as int + (d - 26)) as char
    else if d < 62 then ('0' as int + (d - 52)) as char
    else if d == 62 then '-'
    else '_'
  }

  predicate IsDigitChar(c: char) {
    'A' <= c <= 'Z' || 'a' <= c <= 'z' || '0' <= c <= '9' || c == '-' || c == '_'
  }

  function CharDigit(c: char): Digit
    requires IsDigitChar(c)
  {
    if 'A' <= c <= 'Z' then c as int - 'A' as int
    else if 'a' <= c <= 'z' then c as int - 'a' as int + 26
    else if '0' <= c <= '9' then c as int - '0' as int + 52
    else if c == '-' then 62
    else 63
  }

  lemma DigitsAndChars(d: Digit)
    ensures IsDigitChar(DigitChar(d)) && CharDigit(DigitChar(d)) == d && DigitChar(d) != '.'
  {
  }

  predicate AllDigitChars(text: string) {
    forall i :: 0 <= i < |text| ==> IsDigitChar(text[i])
  }

  function Four(a: Byte, b: Byte, c: Byte): string {
    [DigitChar(a / 4), DigitChar(a % 4 * 16 + b / 16), DigitChar(b % 16 * 4 + c / 64), DigitChar(c % 64)]
  }

  function Encode(bytes: seq<Byte>): string {
    if bytes == [] then ""
    else if |bytes| == 1 then [DigitChar(bytes[0] / 4), DigitChar(bytes[0] % 4 * 16)]
    else if |bytes| == 2 then
      [DigitChar(bytes[0] / 4), DigitChar(bytes[0] % 4 * 16 + bytes[1] / 16), DigitChar(bytes[1] % 16 * 4)]
    else Four(bytes[0], bytes[1], bytes[2]) + Encode(bytes[3..])
  }

  /** Reading is lenient: bits left over at the end are dropped. */
  function Decode(text: string): seq<Byte>
    requires AllDigitChars(text)
  {
    if |text| <= 1 then []
    else if |text| == 2 then [CharDigit(text[0]) * 4 + CharDigit(text[1]) / 16]
    else if |text| == 3 then
      [CharDigit(text[0]) * 4 + CharDigit(text[1]) / 16, CharDigit(text[1]) % 16 * 16 + CharDigit(text[2]) / 4]
    else
      [CharDigit(text[0]) * 4 + CharDigit(text[1]) / 16, CharDigit(text[1]) % 16 * 16 + CharDigit(text[2]) / 4,
       CharDigit(text[2]) % 4 * 64 + CharDigit(text[3])] + Decode(text[4..])
  }

  /** Text the sealer accepts as one part: not empty, only base64url characters, and what its own bytes encode to. */
  predicate IsCanonical(text: string) {
    text != "" && AllDigitChars(text) && Encode(Decode(text)) == text
  }

  lemma EncodeStep(bytes: seq<Byte>)
    requires |bytes| >= 3
    ensures |Encode(bytes)| == 4 + |Encode(bytes[3..])| && Encode(bytes)[4..] == Encode(bytes[3..])
  {
  }

  /** Every three bytes take four characters, and one or two bytes left over take two or three. */
  lemma {:induction false} EncodedLength(bytes: seq<Byte>)
    ensures |Encode(bytes)| == (4 * |bytes| + 2) / 3
  {
    if |bytes| >= 3 {
      EncodedLength(bytes[3..]);
    }
  }

  lemma {:induction false} EncodedChars(bytes: seq<Byte>)
    ensures AllDigitChars(Encode(bytes)) && '.' !in Encode(bytes)
  {
    if |bytes| >= 3 {
      EncodedChars(bytes[3..]);
      EncodeStep(bytes);
    }
  }

  lemma ThreeBytes(a: Byte, b: Byte, c: Byte)
    ensures var w, x, y, z := a / 4, a % 4 * 16 + b / 16, b % 16 * 4 + c / 64, c % 64;
            && 0 <= w < 64 && 0 <= x < 64 && 0 <= y < 64 && 0 <= z < 64
            && w * 4 + x / 16 == a && x % 16 * 16 + y / 4 == b && y % 4 * 64 + z == c
  {
  }

  lemma DecodeFour(a: Byte, b: Byte, c: Byte, rest: string)
    requires AllDigitChars(Four(a, b, c) + rest) && AllDigitChars(rest)
    ensures Decode(Four(a, b, c) + rest) == [a, b, c] + Decode(rest)
  {
    ThreeBytes(a, b, c);
    DigitsAndChars(a / 4);
    DigitsAndChars(a % 4 * 16 + b / 16);
    DigitsAndChars(b % 16 * 4 + c / 64);
    DigitsAndChars(c % 64);
    assert (Four(a, b, c) + rest)[4..] == rest;
  }

  lemma DecodeOne(a: Byte)
    ensures AllDigitChars(Encode([a])) && Decode(Encode([a])) == [a]
  {
  }

  lemma DecodeTwo(a: Byte, b: Byte)
    ensures AllDigitChars(Encode([a, b])) && Decode(Encode([a, b])) == [a, b]
  {
    ThreeBytes(a, b, 0);
    DigitsAndChars(a / 4);
    DigitsAndChars(a % 4 * 16 + b / 16);
    DigitsAndChars(b % 16 * 4);
    assert Encode([a, b]) == [DigitChar(a / 4), DigitChar(a % 4 * 16 + b / 16), DigitChar(b % 16 * 4)];
  }

  lemma {:induction false} DecodeEncode(bytes: seq<Byte>)
    ensures AllDigitChars(Encode(bytes)) && Decode(Encode(bytes)) == bytes
    decreases |bytes|
  {
    EncodedChars(bytes);
    if |bytes| == 1 {
      DecodeOne(bytes[0]);
      assert bytes == [bytes[0]];
    } else if |bytes| == 2 {
      DecodeTwo(bytes[0], bytes[1]);
      assert bytes == [bytes[0], bytes[1]];
    } else if |bytes| >= 3 {
      var rest := bytes[3..];
      DecodeEncode(rest);
      DecodeFour(bytes[0], bytes[1], bytes[2], Encode(rest));
      assert bytes == [bytes[0], bytes[1], bytes[2]] + rest;
    }
  }

  lemma EncodingIsCanonical(bytes: seq<Byte>)
    requires bytes != []
    ensures IsCanonical(Encode(bytes)) && Decode(Encode(bytes)) == bytes
  {
    DecodeEncode(bytes);
    EncodedLength(bytes);
  }

  /** The accepted parts are exactly the encodings of some bytes, at least one. */
  lemma CanonicalExactly(text: string)
    ensures IsCanonical(text) <==> exists bytes :: bytes != [] && Encode(bytes) == text
  {
    if IsCanonical(text) {
      var bytes := Decode(text);
      assert bytes != [] by {
        assert Encode([]) == "";
      }
      assert bytes != [] && Encode(bytes) == text;
    }
    if bytes :| bytes != [] && Encode(bytes) == text {
      EncodingIsCanonical(bytes);
    }
  }
}
