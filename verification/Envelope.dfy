/** The encrypted envelope around a portable archive (portability.py): magic bytes, a
four-byte big-endian header length, the header, and the sealed payload. */
module Envelope {
  import opened Prelude

  const MAGIC: Bytes := [83, 79, 85, 76, 77, 65, 84, 69, 45, 68, 84, 87, 0]
  const MAX_HEADER: nat := 16_384
  const MIN_PASSPHRASE_LENGTH: nat := 12
  const KDF_N: int := 32_768

  datatype Header = Header(
    formatVersion: int, cipher: string, kdf: string, n: int, r: int, p: int, salt: Bytes, nonce: Bytes)

  /** Code that is not part of this model: UTF-8, JSON with base64 fields, scrypt and AES-GCM. */
  datatype Crypto = Crypto(
    utf8: string -> Bytes,
    encode: Header -> Bytes,
    decode: Bytes -> Option<Header>,
    seal: (string, Header, Bytes, Bytes) -> Bytes,
    open: (string, Header, Bytes, Bytes) -> Option<Bytes>)

  /** The header the writer makes for one salt and nonce. */
  function WriterHeader(salt: Bytes, nonce: Bytes): Header {
    Header(1, "AES-256-GCM", "scrypt", KDF_N, 8, 1, salt, nonce)
  }

  /** Correctness and authenticity of the cipher, and the round trip of the writer's header text. */
  ghost predicate Lawful(c: Crypto) {
    && (forall salt, nonce :: |salt| == 16 && |nonce| == 12 ==>
          && c.decode(c.encode(WriterHeader(salt, nonce))) == Some(WriterHeader(salt, nonce))
          && |c.encode(WriterHeader(salt, nonce))| <= MAX_HEADER)
    && (forall pass, h, payload, text :: c.open(pass, h, c.seal(pass, h, payload, text), text) == Some(payload))
    && (forall pass, h, payload, text :: c.seal(pass, h, payload, text) != [])
    && (forall pass, h, sealed, text :: c.open(pass, h, sealed, text).Some?
          ==> c.seal(pass, h, c.open(pass, h, sealed, text).value, text) == sealed)
  }

  function BigEndian(n: nat): Bytes
    requires n < 0x1_0000_0000
  {
    [(n / 0x100_0000) as byte, (n / 0x1_0000 % 0x100) as byte, (n / 0x100 % 0x100) as byte, (n % 0x100) as byte]
  }

  function ReadBigEndian(b: Bytes): nat
    requires |b| == 4
  {
    b[0] as int * 0x100_0000 + b[1] as int * 0x1_0000 + b[2] as int * 0x100 + b[3] as int
  }

  lemma Digits(a: int, b: int, c: int, d: int)
    requires 0 <= a < 0x100 && 0 <= b < 0x100 && 0 <= c < 0x100 && 0 <= d < 0x100
    ensures var m := a * 0x100_0000 + b * 0x1_0000 + c * 0x100 + d;
      m / 0x100_0000 == a && m / 0x1_0000 % 0x100 == b && m / 0x100 % 0x100 == c && m % 0x100 == d
  {
    var m := a * 0x100_0000 + b * 0x1_0000 + c * 0x100 + d;
    assert m / 0x100 == a * 0x1_0000 + b * 0x100 + c;
    assert m / 0x1_0000 == a * 0x100 + b;
  }

  lemma BigEndianWritten(n: nat)
    requires n < 0x1_0000_0000
    ensures ReadBigEndian(BigEndian(n)) == n
  {
    assert n == n / 0x100_0000 * 0x100_0000 + n / 0x1_0000 % 0x100 * 0x1_0000 + n / 0x100 % 0x100 * 0x100 + n % 0x100;
  }

  lemma BigEndianRead(b: Bytes)
    requires |b| == 4
    ensures ReadBigEndian(b) < 0x1_0000_0000 && BigEndian(ReadBigEndian(b)) == b
  {
    Digits(b[0] as int, b[1] as int, b[2] as int, b[3] as int);
    assert b == [b[0], b[1], b[2], b[3]];
  }

  /** The length field is read back, and every four bytes are the field of the length they denote. */
  lemma BigEndianRoundTrip(n: nat, b: Bytes)
    requires n < 0x1_0000_0000 && |b| == 4
    ensures ReadBigEndian(BigEndian(n)) == n
    ensures ReadBigEndian(b) < 0x1_0000_0000 && BigEndian(ReadBigEndian(b)) == b
  {
    BigEndianWritten(n);
    BigEndianRead(b);
  }

  datatype EnvelopeError =
    | PassphraseTooShort | PassphraseTooLong | PassphraseRequired
    | HeaderIncomplete | HeaderInvalid | HeaderUnsupported | ParametersInvalid | NotAuthentic

  function CheckPassphrase(c: Crypto, passphrase: string): Result<(), EnvelopeError> {
    if |passphrase| < MIN_PASSPHRASE_LENGTH then Err(PassphraseTooShort)
    else if |c.utf8(passphrase)| > 1024 then Err(PassphraseTooLong)
    else Ok(())
  }

  predicate Supported(h: Header) {
    h.formatVersion == 1 && h.cipher == "AES-256-GCM" && h.kdf == "scrypt" && h.n == KDF_N && h.r == 8 && h.p == 1
  }

  ghost function Encrypt(c: Crypto, payload: Bytes, passphrase: string, salt: Bytes,
                         nonce: Bytes): Result<Bytes, EnvelopeError>
    requires Lawful(c) && |salt| == 16 && |nonce| == 12
  {
    var header := WriterHeader(salt, nonce);
    var text := c.encode(header);
    match CheckPassphrase(c, passphrase)
    case Err(e) => Err(e)
    case Ok(_) => Ok(MAGIC + BigEndian(|text|) + text + c.seal(passphrase, header, payload, text))
  }

  function Decrypt(c: Crypto, payload: Bytes, passphrase: Option<string>): Result<Bytes, EnvelopeError> {
    if !(MAGIC <= payload) then Ok(payload)
    else if passphrase.None? then Err(PassphraseRequired)
    else
      var offset := |MAGIC|;
      if |payload| < offset + 4 then Err(HeaderIncomplete)
      else
        var length := ReadBigEndian(payload[offset..offset + 4]);
        var end := offset + 4 + length;
        if length > MAX_HEADER || end >= |payload| then Err(HeaderInvalid)
        else OpenBody(c, payload[offset + 4..end], payload[end..], passphrase.value)
  }

  function OpenBody(c: Crypto, text: Bytes, sealed: Bytes, passphrase: string): Result<Bytes, EnvelopeError> {
    match c.decode(text)
    case None => Err(HeaderInvalid)
    case Some(h) =>
      if !Supported(h) then Err(HeaderUnsupported)
      else if |h.salt| != 16 || |h.nonce| != 12 then Err(ParametersInvalid)
      else match CheckPassphrase(c, passphrase)
        case Err(e) => Err(e)
        case Ok(_) =>
          match c.open(passphrase, h, sealed, text)
          case None => Err(NotAuthentic)
          case Some(plain) => Ok(plain)
  }

  /** A framed envelope is taken apart where it was put together. */
  lemma FrameSplits(text: Bytes, sealed: Bytes)
    requires |text| <= MAX_HEADER
    ensures var framed := MAGIC + BigEndian(|text|) + text + sealed; var end := |MAGIC| + 4 + |text|;
      && MAGIC <= framed && |framed| == end + |sealed|
      && ReadBigEndian(framed[|MAGIC|..|MAGIC| + 4]) == |text|
      && framed[|MAGIC| + 4..end] == text && framed[end..] == sealed
  {
    var framed := MAGIC + BigEndian(|text|) + text + sealed;
    assert framed[|MAGIC|..|MAGIC| + 4] == BigEndian(|text|);
    BigEndianWritten(|text|);
  }

  /** Decrypting an encrypted payload with the same passphrase returns it. */
  lemma EncryptThenDecrypt(c: Crypto, payload: Bytes, passphrase: string, salt: Bytes, nonce: Bytes)
    requires Lawful(c) && |salt| == 16 && |nonce| == 12
    ensures var r := Encrypt(c, payload, passphrase, salt, nonce);
      && (r.Ok? <==> |passphrase| >= MIN_PASSPHRASE_LENGTH && |c.utf8(passphrase)| <= 1024)
      && (r.Ok? ==> Decrypt(c, r.value, Some(passphrase)) == Ok(payload))
      && (r.Ok? ==> Decrypt(c, r.value, None) == Err(PassphraseRequired))
  {
    var header := WriterHeader(salt, nonce);
    var text := c.encode(header);
    FrameSplits(text, c.seal(passphrase, header, payload, text));
  }

  lemma OpenedIsSealed(c: Crypto, text: Bytes, sealed: Bytes, passphrase: string, plain: Bytes)
    requires Lawful(c) && OpenBody(c, text, sealed, passphrase) == Ok(plain)
    ensures var h := c.decode(text);
      && h.Some? && Supported(h.value) && |h.value.salt| == 16 && |h.value.nonce| == 12
      && CheckPassphrase(c, passphrase).Ok?
      && c.seal(passphrase, h.value, plain, text) == sealed && sealed != []
  {
    var h := c.decode(text).value;
    assert c.open(passphrase, h, sealed, text) == Some(plain);
    assert c.seal(passphrase, h, plain, text) == sealed;
  }

  lemma AcceptedIsFrame(c: Crypto, input: Bytes, passphrase: string, plain: Bytes) returns (text: Bytes, h: Header)
    requires Lawful(c) && MAGIC <= input && Decrypt(c, input, Some(passphrase)) == Ok(plain)
    ensures IsSealedFrame(c, input, passphrase, plain, text, h)
  {
    var offset := |MAGIC|;
    var field := input[offset..offset + 4];
    var end := offset + 4 + ReadBigEndian(field);
    text := input[offset + 4..end];
    OpenedIsSealed(c, text, input[end..], passphrase, plain);
    h := c.decode(text).value;
    BigEndianRead(field);
    assert input == MAGIC + field + text + input[end..];
  }

  lemma FrameIsAccepted(c: Crypto, input: Bytes, passphrase: string, plain: Bytes, text: Bytes, h: Header)
    requires Lawful(c) && IsSealedFrame(c, input, passphrase, plain, text, h)
    ensures Decrypt(c, input, Some(passphrase)) == Ok(plain)
  {
    FrameSplits(text, c.seal(passphrase, h, plain, text));
  }

  /** The parser accepts a magic-prefixed input if and only if it is a frame of a short header
  that decodes to supported parameters and of a non-empty body sealed under that header and
  passphrase; the result is exactly what was sealed. */
  lemma DecryptAcceptsExactly(c: Crypto, input: Bytes, passphrase: string, plain: Bytes)
    requires Lawful(c) && MAGIC <= input
    ensures Decrypt(c, input, Some(passphrase)) == Ok(plain) <==> exists text: Bytes, h: Header ::
      IsSealedFrame(c, input, passphrase, plain, text, h)
  {
    if Decrypt(c, input, Some(passphrase)) == Ok(plain) {
      var text, h := AcceptedIsFrame(c, input, passphrase, plain);
    }
    if text: Bytes, h: Header :| IsSealedFrame(c, input, passphrase, plain, text, h) {
      FrameIsAccepted(c, input, passphrase, plain, text, h);
    }
  }

  ghost predicate IsSealedFrame(c: Crypto, input: Bytes, passphrase: string, plain: Bytes, text: Bytes, h: Header) {
    && |text| <= MAX_HEADER
    && c.decode(text) == Some(h) && Supported(h) && |h.salt| == 16 && |h.nonce| == 12
    && CheckPassphrase(c, passphrase).Ok?
    && c.seal(passphrase, h, plain, text) != []
    && input == MAGIC + BigEndian(|text|) + text + c.seal(passphrase, h, plain, text)
  }

  // ---------- What is answered ----------

  /** A passphrase has at least 12 characters and at most 1024 bytes. */
  ghost predicate PassphraseAnswers(c: Crypto, passphrase: string, r: Result<Bytes, EnvelopeError>, legal: bool) {
    if |passphrase| < 12 then r == Err(PassphraseTooShort)
    else if |c.utf8(passphrase)| > 1024 then r == Err(PassphraseTooLong)
    else legal
  }

  /** Sealing is refused exactly for a passphrase that is too short or too long. */
  lemma SealingAnswersExactly(c: Crypto, payload: Bytes, passphrase: string, salt: Bytes, nonce: Bytes)
    requires Lawful(c) && |salt| == 16 && |nonce| == 12
    ensures var r := Encrypt(c, payload, passphrase, salt, nonce);
      PassphraseAnswers(c, passphrase, r, r.Ok?)
  {
  }

  /** The header parameters this version reads. */
  predicate Readable(h: Header) {
    h.formatVersion == 1 && h.cipher == "AES-256-GCM" && h.kdf == "scrypt" && h.n == 32_768 && h.r == 8 && h.p == 1
  }

  /** What opening a header and a body answers, in the order of the checks. */
  ghost predicate BodyAnswers(c: Crypto, text: Bytes, sealed: Bytes, passphrase: string,
                              r: Result<Bytes, EnvelopeError>)
  {
    var h := c.decode(text);
    if h.None? then r == Err(HeaderInvalid)
    else if !Readable(h.value) then r == Err(HeaderUnsupported)
    else if |h.value.salt| != 16 || |h.value.nonce| != 12 then r == Err(ParametersInvalid)
    else
      var plain := c.open(passphrase, h.value, sealed, text);
      PassphraseAnswers(c, passphrase, r, r == if plain.Some? then Ok(plain.value) else Err(NotAuthentic))
  }

  lemma BodyAnswersExactly(c: Crypto, text: Bytes, sealed: Bytes, passphrase: string)
    ensures BodyAnswers(c, text, sealed, passphrase, OpenBody(c, text, sealed, passphrase))
  {
  }

  /** What opening any input answers: an input without the magic bytes is taken as it is. */
  ghost predicate OpenAnswers(c: Crypto, input: Bytes, passphrase: Option<string>, r: Result<Bytes, EnvelopeError>) {
    if !(MAGIC <= input) then r == Ok(input)
    else if passphrase.None? then r == Err(PassphraseRequired)
    else if |input| < 17 then r == Err(HeaderIncomplete)
    else
      var length := ReadBigEndian(input[13..17]);
      if length > 16_384 || 17 + length >= |input| then r == Err(HeaderInvalid)
      else BodyAnswers(c, input[17..17 + length], input[17 + length..], passphrase.value, r)
  }

  lemma OpenAnswersExactly(c: Crypto, input: Bytes, passphrase: Option<string>)
    ensures OpenAnswers(c, input, passphrase, Decrypt(c, input, passphrase))
  {
    assert |MAGIC| == 13;
    if MAGIC <= input && passphrase.Some? && |input| >= 17 {
      var length := ReadBigEndian(input[13..17]);
      if length <= 16_384 && 17 + length < |input| {
        BodyAnswersExactly(c, input[17..17 + length], input[17 + length..], passphrase.value);
      }
    }
  }
}
