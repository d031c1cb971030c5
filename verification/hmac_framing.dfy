/** What is hashed when a value is authenticated, with or without a context: every part preceded by its length. */
module HmacFraming {
  import opened Common
  import opened Bytes

  const MAX_KEY := 1_048_576
  const MAX_VALUE := 5_242_880
  const MAX_CONTEXT_CHARACTERS := 4096
  const MAX_UNSIGNED := 0x1_0000_0000
  const HEADER: seq<Byte> := Ascii("authmodules.hmac.v2") + [0]
  const LEGACY_HEADER: seq<Byte> := Ascii("authmodules.hmac.context.v1") + [0]

  datatype Framing = V2 | LegacyV1

  datatype Material = Material(key: seq<Byte>, value: seq<Byte>, context: Option<seq<Byte>>)

  predicate SafeContext(text: string) {
    0 < |text| <= MAX_CONTEXT_CHARACTERS && forall i :: 0 <= i < |text| ==> '\U{20}' <= text[i] != '\U{7f}'
  }

  predicate WithinBounds(m: Material) {
    && 0 < |m.key| <= MAX_KEY && |m.value| <= MAX_VALUE
    && (m.context.Some? ==> |m.context.value| <= 4 * MAX_CONTEXT_CHARACTERS)
  }

  /** `hmacMaterial` with some limit on the value. */
  function MaterialWithin(key: Scalar, value: Scalar, context: Option<string>, utf8: Utf8, maxValue: nat)
    : Option<Material>
  {
    if context.Some? && !SafeContext(context.value) then None
    else
      var keyBytes := ToBuffer(key, utf8);
      if keyBytes.None? then None
      else
        var valueBytes := ToBuffer(value, utf8);
        if valueBytes.None? then None
        else if |keyBytes.value| == 0 || |keyBytes.value| > MAX_KEY || |valueBytes.value| > maxValue then None
        else Some(Material(keyBytes.value, valueBytes.value,
                           if context.Some? then Some(utf8.encode(context.value)) else None))
  }

  /** What is accepted is within bounds that four length bytes can hold. */
  function MaterialOf(key: Scalar, value: Scalar, context: Option<string>, utf8: Utf8): (m: Option<Material>)
    ensures m.Some? && Faithful(utf8) ==> WithinBounds(m.value)
    ensures m.Some? <==> && (context.Some? ==> SafeContext(context.value))
                         && 0 < ByteSize(key, utf8) <= MAX_KEY && ByteSize(value, utf8) <= MAX_BUFFER
  {
    MaterialWithin(key, value, context, utf8, MAX_VALUE)
  }

  /** The limit on the value never decides: the conversion to bytes has a lower one, and any limit from there on gives
      the same answers. */
  lemma ValueLimitNeverDecides(key: Scalar, value: Scalar, context: Option<string>, utf8: Utf8, maxValue: nat)
    requires MAX_BUFFER <= maxValue
    ensures MaterialOf(key, value, context, utf8) == MaterialWithin(key, value, context, utf8, maxValue)
  {
  }

  /** A value between the two limits is refused, although the limit on values would let it through. */
  lemma ValueBetweenTheLimits(utf8: Utf8)
    ensures var value := Binary(seq(MAX_BUFFER + 1, _ => 0));
            ByteSize(value, utf8) <= MAX_VALUE && MaterialOf(Binary([1]), value, None, utf8).None?
  {
  }

  // ---- Four length bytes, most significant first ----

  function UnsignedLength(n: nat): (bytes: seq<Byte>)
    requires n < MAX_UNSIGNED
    ensures |bytes| == 4
  {
    [n / 0x1_000000, n / 0x1_0000 % 256, n / 256 % 256, n % 256]
  }

  function ReadLength(bytes: seq<Byte>): (n: nat)
    requires |bytes| == 4
    ensures n < MAX_UNSIGNED
  {
    var a: int, b: int, c: int, d: int := bytes[0], bytes[1], bytes[2], bytes[3];
    a * 0x1_000000 + b * 0x1_0000 + c * 256 + d
  }

  lemma LengthComesBack(n: nat)
    requires n < MAX_UNSIGNED
    ensures ReadLength(UnsignedLength(n)) == n
  {
    var a, b, c := n / 256, n / 0x1_0000, n / 0x1_000000;
    assert n == a * 256 + n % 256 && a == b * 256 + a % 256 && b == c * 256 + b % 256;
  }

  lemma LengthIsItsBytes(bytes: seq<Byte>)
    requires |bytes| == 4
    ensures UnsignedLength(ReadLength(bytes)) == bytes
  {
    var n := ReadLength(bytes);
    var a: int, b: int, c: int := bytes[0], bytes[1], bytes[2];
    assert n / 256 == a * 0x1_0000 + b * 256 + c;
    assert n / 0x1_0000 == a * 256 + b;
    assert n / 0x1_000000 == a;
  }

  // ---- The frame and its reader ----

  function Sized(bytes: seq<Byte>): seq<Byte>
    requires |bytes| < MAX_UNSIGNED
  {
    UnsignedLength(|bytes|) + bytes
  }

  function Body(context: Option<seq<Byte>>, value: seq<Byte>): seq<Byte>
    requires |value| < MAX_UNSIGNED && (context.Some? ==> |context.value| < MAX_UNSIGNED)
  {
    if context.None? then [0] + Sized([]) + Sized(value) else [1] + Sized(context.value) + Sized(value)
  }

  function Frame(context: Option<seq<Byte>>, value: seq<Byte>): seq<Byte>
    requires |value| < MAX_UNSIGNED && (context.Some? ==> |context.value| < MAX_UNSIGNED)
  {
    HEADER + Body(context, value)
  }

  datatype Parts = Parts(context: Option<seq<Byte>>, value: seq<Byte>)

  /** A length, that many bytes, and the rest. */
  function ReadSized(bytes: seq<Byte>): Option<(seq<Byte>, seq<Byte>)> {
    if |bytes| < 4 then None
    else
      var n := ReadLength(bytes[..4]);
      if |bytes| < 4 + n then None else Some((bytes[4..4 + n], bytes[4 + n..]))
  }

  function ReadBody(body: seq<Byte>): Option<Parts> {
    if body == [] || body[0] > 1 then None
    else
      var first := ReadSized(body[1..]);
      if first.None? || (body[0] == 0 && first.value.0 != []) then None
      else
        var second := ReadSized(first.value.1);
        if second.None? || second.value.1 != [] then None
        else Some(Parts(if body[0] == 1 then Some(first.value.0) else None, second.value.0))
  }

  function Unframe(frame: seq<Byte>): Option<Parts> {
    if |frame| < |HEADER| || frame[..|HEADER|] != HEADER then None else ReadBody(frame[|HEADER|..])
  }

  lemma SizedComesBack(bytes: seq<Byte>, rest: seq<Byte>)
    requires |bytes| < MAX_UNSIGNED
    ensures ReadSized(Sized(bytes) + rest) == Some((bytes, rest))
  {
    LengthComesBack(|bytes|);
    var all := Sized(bytes) + rest;
    assert all[..4] == UnsignedLength(|bytes|);
    assert all[4..4 + |bytes|] == bytes && all[4 + |bytes|..] == rest;
  }

  lemma ReadSizedIsSized(bytes: seq<Byte>)
    requires ReadSized(bytes).Some?
    ensures |ReadSized(bytes).value.0| < MAX_UNSIGNED
    ensures bytes == Sized(ReadSized(bytes).value.0) + ReadSized(bytes).value.1
  {
    LengthIsItsBytes(bytes[..4]);
    var n := ReadLength(bytes[..4]);
    assert bytes == bytes[..4] + bytes[4..4 + n] + bytes[4 + n..];
  }

  lemma PartsComeBack(flag: Byte, first: seq<Byte>, sized: seq<Byte>, second: seq<Byte>, value: seq<Byte>)
    requires flag <= 1 && (flag == 0 ==> first == [])
    requires ReadSized(sized + second) == Some((first, second)) && ReadSized(second) == Some((value, []))
    ensures ReadBody([flag] + sized + second) == Some(Parts(if flag == 1 then Some(first) else None, value))
  {
    var body := [flag] + sized + second;
    assert body[1..] == sized + second;
  }

  lemma BodyComesBack(context: Option<seq<Byte>>, value: seq<Byte>)
    requires |value| < MAX_UNSIGNED && (context.Some? ==> |context.value| < MAX_UNSIGNED)
    ensures ReadBody(Body(context, value)) == Some(Parts(context, value))
  {
    var first := if context.Some? then context.value else [];
    SizedComesBack(first, Sized(value));
    SizedComesBack(value, []);
    assert Sized(value) + [] == Sized(value);
    PartsComeBack(if context.Some? then 1 else 0, first, Sized(first), Sized(value), value);
  }

  lemma OnlyBodiesAreRead(body: seq<Byte>)
    requires ReadBody(body).Some?
    ensures var p := ReadBody(body).value;
            && |p.value| < MAX_UNSIGNED && (p.context.Some? ==> |p.context.value| < MAX_UNSIGNED)
            && body == Body(p.context, p.value)
  {
    var first := ReadSized(body[1..]).value;
    ReadSizedIsSized(body[1..]);
    ReadSizedIsSized(first.1);
    var p := ReadBody(body).value;
    assert body == [body[0]] + body[1..];
    assert first.1 == Sized(p.value) + [];
    assert first.1 == Sized(p.value);
    assert body == [body[0]] + Sized(first.0) + Sized(p.value);
  }

  /** The reader recovers whether there was a context, its bytes and the value's bytes. */
  lemma FrameComesBack(context: Option<seq<Byte>>, value: seq<Byte>)
    requires |value| < MAX_UNSIGNED && (context.Some? ==> |context.value| < MAX_UNSIGNED)
    ensures Unframe(Frame(context, value)) == Some(Parts(context, value))
  {
    BodyComesBack(context, value);
    Strip(HEADER, Body(context, value));
  }

  lemma Strip(header: seq<Byte>, rest: seq<Byte>)
    ensures (header + rest)[..|header|] == header && (header + rest)[|header|..] == rest
  {
  }

  /** The reader accepts nothing but frames. */
  lemma OnlyFramesAreRead(frame: seq<Byte>)
    requires Unframe(frame).Some?
    ensures var p := Unframe(frame).value;
            && |p.value| < MAX_UNSIGNED && (p.context.Some? ==> |p.context.value| < MAX_UNSIGNED)
            && frame == Frame(p.context, p.value)
  {
    OnlyBodiesAreRead(frame[|HEADER|..]);
    assert frame == frame[..|HEADER|] + frame[|HEADER|..];
  }

  /** Different inputs within the code's bounds are never hashed as the same bytes. */
  lemma FramingIsInjective(m: Material, n: Material)
    requires WithinBounds(m) && WithinBounds(n)
    ensures Frame(m.context, m.value) == Frame(n.context, n.value) <==> m.context == n.context && m.value == n.value
  {
    FrameComesBack(m.context, m.value);
    FrameComesBack(n.context, n.value);
  }

  // ---- The digest, fed part by part ----

  function Decimal(n: nat): seq<Byte> {
    if n < 10 then [48 + n] else Decimal(n / 10) + [48 + n % 10]
  }

  function LegacyFrame(context: Option<seq<Byte>>, value: seq<Byte>): seq<Byte> {
    if context.None? then value
    else LEGACY_HEADER + Decimal(|context.value|) + [0] + context.value + [0] + value
  }

  class Hasher {
    const key: seq<Byte>
    var fed: seq<Byte>

    constructor (key: seq<Byte>)
      ensures this.key == key && fed == []
    {
      this.key := key;
      fed := [];
    }

    method Update(bytes: seq<Byte>)
      modifies this
      ensures fed == old(fed) + bytes
    {
      fed := fed + bytes;
    }
  }

  method FeedBody(hmac: Hasher, m: Material)
    requires WithinBounds(m)
    modifies hmac
    ensures hmac.fed == old(hmac.fed) + Body(m.context, m.value)
  {
    ghost var before := hmac.fed;
    hmac.Update([if m.context.None? then 0 else 1]);
    hmac.Update(UnsignedLength(if m.context.Some? then |m.context.value| else 0));
    if m.context.Some? {
      hmac.Update(m.context.value);
    }
    assert hmac.fed == before + ([if m.context.None? then 0 else 1]
                                 + Sized(if m.context.Some? then m.context.value else []));
    hmac.Update(UnsignedLength(|m.value|));
    hmac.Update(m.value);
  }

  method FeedLegacy(hmac: Hasher, m: Material)
    modifies hmac
    ensures hmac.fed == old(hmac.fed) + LegacyFrame(m.context, m.value)
  {
    if m.context.Some? {
      hmac.Update(LEGACY_HEADER + Decimal(|m.context.value|) + [0]);
      hmac.Update(m.context.value);
      hmac.Update([0]);
    }
    hmac.Update(m.value);
  }

  /** `hmacDigest`; `mac` stands for HMAC-SHA-256 of a key and all the bytes fed. */
  method HmacDigest(m: Material, framing: Framing, mac: (seq<Byte>, seq<Byte>) -> seq<Byte>)
    returns (digest: seq<Byte>)
    requires WithinBounds(m)
    ensures digest == mac(m.key, if framing.V2? then Frame(m.context, m.value) else LegacyFrame(m.context, m.value))
  {
    var hmac := new Hasher(m.key);
    if framing.LegacyV1? {
      FeedLegacy(hmac, m);
      assert hmac.fed == LegacyFrame(m.context, m.value);
    } else {
      hmac.Update(HEADER);
      FeedBody(hmac, m);
      assert hmac.fed == HEADER + Body(m.context, m.value);
    }
    return mac(hmac.key, hmac.fed);
  }
}
