/** Sealing a secret into text and opening it again, with the cipher and the two text codecs kept abstract. */
module Sealing {
  import opened Common
  import opened Bytes

  const SEAL_ALGORITHM := "aes-256-gcm.v1"
  const MAX_CIPHERTEXT := 5_000_000
  const MAX_PLAINTEXT := 3_749_969
  const MAX_RAW := 5_000_000

  /** A point in time; `NotADate` is a date object that holds none. */
  datatype Moment = NoMoment | At(time: int) | NotADate

  datatype Sealed = Sealed(algorithm: string, keyId: string, ciphertext: string, expiresAt: Moment)

  datatype Box = Box(encrypted: seq<Byte>, tag: seq<Byte>)

  /** AES-256-GCM under one key: from iv, associated data and bytes. */
  datatype Cipher = Cipher(lock: (seq<Byte>, seq<Byte>, seq<Byte>) -> Box,
                           unlock: (seq<Byte>, seq<Byte>, Box) -> Option<seq<Byte>>)

  ghost predicate Inverts(c: Cipher) {
    forall iv, aad, plain ::
      && |c.lock(iv, aad, plain).encrypted| == |plain| && |c.lock(iv, aad, plain).tag| == 16
      && c.unlock(iv, aad, c.lock(iv, aad, plain)) == Some(plain)
  }

  datatype Sealer = Sealer(cipher: Cipher, keyId: string, utf8: Utf8, isoText: int -> string)

  predicate SafeIdentifier(text: string, maxLength: nat) {
    0 < |text| <= maxLength && forall i :: 0 <= i < |text| ==> '\U{20}' <= text[i] != '\U{7f}'
  }

  // ---- Encoding the value ----

  function EncodeValue(v: Scalar, utf8: Utf8): Option<seq<Byte>> {
    if ByteSize(v, utf8) > MAX_PLAINTEXT then None
    else
      match v
      case Text(text) => Some([0] + utf8.encode(text))
      case Binary(bytes) => Some([1] + bytes)
  }

  function DecodeValue(bytes: seq<Byte>, utf8: Utf8): Option<Scalar> {
    if bytes == [] then None
    else if bytes[0] == 0 then Some(Text(utf8.decode(bytes[1..])))
    else if bytes[0] == 1 then Some(Binary(bytes[1..]))
    else None
  }

  lemma ValueComesBack(v: Scalar, utf8: Utf8)
    requires Faithful(utf8) && EncodeValue(v, utf8).Some?
    ensures DecodeValue(EncodeValue(v, utf8).value, utf8) == Some(v)
    ensures |EncodeValue(v, utf8).value| == ByteSize(v, utf8) + 1
  {
  }

  // ---- The associated data ----

  const NUL: string := ['\U{0}']

  function SealAad(purpose: string, expiresAt: Moment, sealer: Sealer): string {
    purpose + NUL + if expiresAt.At? then sealer.isoText(expiresAt.time) else ""
  }

  /** Times are written differently, and never as nothing. */
  ghost predicate TellsTimesApart(isoText: int -> string) {
    && (forall t :: isoText(t) != "")
    && (forall t, u :: isoText(t) == isoText(u) ==> t == u)
  }

  lemma ShorterDiffers(p: string, s: string, q: string, t: string)
    requires |p| < |q| && forall i :: 0 <= i < |q| ==> q[i] != NUL[0]
    ensures p + NUL + s != q + NUL + t
  {
    assert (p + NUL + s)[|p|] == NUL[0];
    assert (q + NUL + t)[|p|] == q[|p|];
  }

  /** The associated data fixes both the purpose and the expiry: no purpose contains the separator. */
  lemma AadIsInjective(p: string, e: Moment, q: string, f: Moment, sealer: Sealer)
    requires SafeIdentifier(p, 2048) && SafeIdentifier(q, 2048) && !e.NotADate? && !f.NotADate?
    requires TellsTimesApart(sealer.isoText)
    ensures SealAad(p, e, sealer) == SealAad(q, f, sealer) <==> p == q && e == f
  {
    var a, b := SealAad(p, e, sealer), SealAad(q, f, sealer);
    if a == b {
      if |p| < |q| {
        ShorterDiffers(p, if e.At? then sealer.isoText(e.time) else "", q, if f.At? then sealer.isoText(f.time) else "");
      }
      if |q| < |p| {
        ShorterDiffers(q, if f.At? then sealer.isoText(f.time) else "", p, if e.At? then sealer.isoText(e.time) else "");
      }
      assert p == a[..|p|] && q == b[..|q|];
      assert a[|p| + 1..] == b[|q| + 1..];
      assert a[|p| + 1..] == if e.At? then sealer.isoText(e.time) else "";
      assert b[|q| + 1..] == if f.At? then sealer.isoText(f.time) else "";
    }
  }

  // ---- Splitting the text ----

  function Split(text: string, at: char): (parts: seq<string>)
    ensures parts != []
  {
    if text == "" then [""]
    else
      var rest := Split(text[1..], at);
      if text[0] == at then [""] + rest else [[text[0]] + rest[0]] + rest[1..]
  }

  lemma {:induction false} SplitPlain(text: string, at: char)
    requires at !in text
    ensures Split(text, at) == [text]
  {
    if text != "" {
      SplitPlain(text[1..], at);
      assert [text[0]] + text[1..] == text;
    }
  }

  lemma {:induction false} SplitFirst(first: string, rest: string, at: char)
    requires at !in first
    ensures Split(first + [at] + rest, at) == [first] + Split(rest, at)
  {
    if first == "" {
      assert ([at] + rest)[1..] == rest && first + [at] + rest == [at] + rest;
    } else {
      assert (first + [at] + rest)[1..] == first[1..] + [at] + rest;
      SplitFirst(first[1..], rest, at);
      assert [first[0]] + first[1..] == first;
    }
  }

  // ---- Sealing and opening ----

  function Joined(iv: seq<Byte>, box: Box): string {
    Encode(iv) + ['.'] + (Encode(box.tag) + ['.'] + Encode(box.encrypted))
  }

  function SealedText(sealer: Sealer, purpose: string, plain: seq<Byte>, expiresAt: Moment, iv: seq<Byte>): string {
    Joined(iv, sealer.cipher.lock(iv, sealer.utf8.encode(SealAad(purpose, expiresAt, sealer)), plain))
  }

  /** Seals under a random iv of twelve bytes. The value type refuses a ciphertext that is too long. */
  function Seal(sealer: Sealer, purpose: string, v: Scalar, expiresAt: Moment, iv: seq<Byte>): Option<Sealed> {
    if !SafeIdentifier(purpose, 2048) || expiresAt.NotADate? then None
    else
      var plain := EncodeValue(v, sealer.utf8);
      if plain.None? then None
      else
        var text := SealedText(sealer, purpose, plain.value, expiresAt, iv);
        if !SafeIdentifier(sealer.keyId, 512) || text == "" || |text| > MAX_CIPHERTEXT then None
        else Some(Sealed(SEAL_ALGORITHM, sealer.keyId, text, expiresAt))
  }

  function Unseal(sealer: Sealer, purpose: string, s: Sealed, now: int): Option<Scalar> {
    if !SafeIdentifier(purpose, 2048) || s.algorithm != SEAL_ALGORITHM || s.keyId != sealer.keyId
       || s.expiresAt.NotADate? || (s.expiresAt.At? && s.expiresAt.time <= now)
       || s.ciphertext == "" || |s.ciphertext| > MAX_CIPHERTEXT then None
    else
      var parts := Split(s.ciphertext, '.');
      if |parts| != 3 || !IsCanonical(parts[0]) || !IsCanonical(parts[1]) || !IsCanonical(parts[2]) then None
      else
        Open(sealer, purpose, s.expiresAt, Decode(parts[0]), Box(Decode(parts[2]), Decode(parts[1])))
  }

  function Open(sealer: Sealer, purpose: string, expiresAt: Moment, iv: seq<Byte>, box: Box): Option<Scalar> {
    if |iv| != 12 || |box.tag| != 16 || |box.encrypted| < 1 then None
    else
      var plain := sealer.cipher.unlock(iv, sealer.utf8.encode(SealAad(purpose, expiresAt, sealer)), box);
      if plain.None? then None
      else
        var v := DecodeValue(plain.value, sealer.utf8);
        if v.None? || ByteSize(v.value, sealer.utf8) > MAX_RAW then None else v
  }

  // ---- The size bound is exact ----

  /** Sixteen characters of iv, twenty-two of tag, two dots, and the encrypted bytes at four characters for three. */
  lemma JoinedLength(iv: seq<Byte>, box: Box)
    requires |iv| == 12 && |box.tag| == 16
    ensures |Joined(iv, box)| == 40 + (4 * |box.encrypted| + 2) / 3
  {
    EncodedLength(iv);
    EncodedLength(box.tag);
    EncodedLength(box.encrypted);
  }

  /** The text of a value of n bytes fits exactly when n is at most the plaintext limit: one byte more would not fit. */
  lemma SizeLimitIsTight(sealer: Sealer, purpose: string, plain: seq<Byte>, expiresAt: Moment, iv: seq<Byte>)
    requires Inverts(sealer.cipher) && |iv| == 12 && plain != []
    ensures |SealedText(sealer, purpose, plain, expiresAt, iv)| <= MAX_CIPHERTEXT <==> |plain| - 1 <= MAX_PLAINTEXT
  {
    var aad := sealer.utf8.encode(SealAad(purpose, expiresAt, sealer));
    JoinedLength(iv, sealer.cipher.lock(iv, aad, plain));
  }

  /** The joined text splits back into the same three parts, each canonical and read back as its bytes. */
  lemma JoinedSplits(iv: seq<Byte>, box: Box)
    requires iv != [] && box.tag != [] && box.encrypted != []
    ensures Split(Joined(iv, box), '.') == [Encode(iv), Encode(box.tag), Encode(box.encrypted)]
    ensures IsCanonical(Encode(iv)) && IsCanonical(Encode(box.tag)) && IsCanonical(Encode(box.encrypted))
    ensures Decode(Encode(iv)) == iv && Decode(Encode(box.tag)) == box.tag
            && Decode(Encode(box.encrypted)) == box.encrypted
  {
    EncodedChars(iv);
    EncodedChars(box.tag);
    EncodedChars(box.encrypted);
    SplitFirst(Encode(iv), Encode(box.tag) + ['.'] + Encode(box.encrypted), '.');
    SplitFirst(Encode(box.tag), Encode(box.encrypted), '.');
    SplitPlain(Encode(box.encrypted), '.');
    EncodingIsCanonical(iv);
    EncodingIsCanonical(box.tag);
    EncodingIsCanonical(box.encrypted);
  }

  // ---- Main results ----

  /** Sealing succeeds exactly on a safe purpose, a real or absent expiry and a value within the limit; the limit on
      the text never refuses what the limit on the value let through. */
  lemma SealsExactly(sealer: Sealer, purpose: string, v: Scalar, expiresAt: Moment, iv: seq<Byte>)
    requires Inverts(sealer.cipher) && Faithful(sealer.utf8) && SafeIdentifier(sealer.keyId, 512) && |iv| == 12
    ensures Seal(sealer, purpose, v, expiresAt, iv).Some?
            <==> SafeIdentifier(purpose, 2048) && !expiresAt.NotADate? && ByteSize(v, sealer.utf8) <= MAX_PLAINTEXT
  {
    if EncodeValue(v, sealer.utf8).Some? {
      ValueComesBack(v, sealer.utf8);
      var plain := EncodeValue(v, sealer.utf8).value;
      SizeLimitIsTight(sealer, purpose, plain, expiresAt, iv);
      EncodedLength(iv);
    }
  }

  lemma OpensAgain(sealer: Sealer, purpose: string, v: Scalar, expiresAt: Moment, iv: seq<Byte>)
    requires Inverts(sealer.cipher) && Faithful(sealer.utf8) && |iv| == 12
    requires EncodeValue(v, sealer.utf8).Some?
    ensures var aad := sealer.utf8.encode(SealAad(purpose, expiresAt, sealer));
            var box := sealer.cipher.lock(iv, aad, EncodeValue(v, sealer.utf8).value);
            box.tag != [] && box.encrypted != [] && Open(sealer, purpose, expiresAt, iv, box) == Some(v)
  {
  }

  /** What was sealed is opened again as the same value, exactly until it expires. */
  lemma UnsealsExactlyUntilExpiry(sealer: Sealer, purpose: string, v: Scalar, expiresAt: Moment, iv: seq<Byte>, now: int)
    requires Inverts(sealer.cipher) && Faithful(sealer.utf8) && |iv| == 12
    requires Seal(sealer, purpose, v, expiresAt, iv).Some?
    ensures var s := Seal(sealer, purpose, v, expiresAt, iv).value;
            Unseal(sealer, purpose, s, now) == if expiresAt.At? && expiresAt.time <= now then None else Some(v)
  {
    var s := Seal(sealer, purpose, v, expiresAt, iv).value;
    var aad := sealer.utf8.encode(SealAad(purpose, expiresAt, sealer));
    var box := sealer.cipher.lock(iv, aad, EncodeValue(v, sealer.utf8).value);
    OpensAgain(sealer, purpose, v, expiresAt, iv);
    JoinedSplits(iv, box);
    assert s.ciphertext == Joined(iv, box);
    assert Box(box.encrypted, box.tag) == box;
  }
}
