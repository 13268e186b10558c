/** The pairing payload (pairing.ts, pairing.py): encoded as a deep link by either side, parsed and
checked by the phone. JSON and UTF-8 are functions with a round-trip law. */
module Pairing {
  import opened Prelude
  import opened Base64Url

  const SCHEME: string := "soulmate://pair?data="
  const VERSION: int := 1

  datatype Payload = Payload(
    version: int, serviceUrl: string, serviceId: string, fingerprint: string, token: string, expiresAt: string)

  datatype Json = Text(text: string) | Number(number: int) | OtherValue

  datatype Parsed = NotJson | NotObject | Object(fields: map<string, Json>)

  /** One encoder and the decoder: text to UTF-8 bytes of a JSON object, and back. */
  datatype Codec = Codec(encode: Payload -> Bytes, parse: Bytes -> Parsed)

  function Fields(p: Payload): map<string, Json> {
    map["v" := Number(p.version), "service_url" := Text(p.serviceUrl), "service_id" := Text(p.serviceId),
        "fingerprint" := Text(p.fingerprint), "token" := Text(p.token), "expires_at" := Text(p.expiresAt)]
  }

  /** Parsing an encoded object returns its fields, in whatever order and spacing it was written. */
  ghost predicate Lawful(c: Codec) {
    forall p :: c.parse(c.encode(p)) == Object(Fields(p))
  }

  datatype Failure = NotPairing | Damaged | OtherVersion | Missing(key: string) | NotEncrypted | BadFingerprint

  /** White space and line ends that trim removes. */
  predicate Space(c: char) {
    || '\t' <= c <= '\r' || c == ' ' || c == '\U{A0}' || c == '\U{1680}' || '\U{2000}' <= c <= '\U{200A}'
    || c == '\U{2028}' || c == '\U{2029}' || c == '\U{202F}' || c == '\U{205F}' || c == '\U{3000}' || c == '\U{FEFF}'
  }

  function TrimStart(s: string): string {
    if s != "" && Space(s[0]) then TrimStart(s[1..]) else s
  }

  function TrimEnd(s: string): string {
    if s != "" && Space(s[|s| - 1]) then TrimEnd(s[..|s| - 1]) else s
  }

  function Trim(s: string): string {
    TrimEnd(TrimStart(s))
  }

  predicate HexDigit(c: char) {
    '0' <= c <= '9' || 'a' <= c <= 'f'
  }

  /** sha256: and 64 lower-case hexadecimal digits. */
  predicate IsFingerprint(s: string) {
    && |s| == 71 && s[..7] == "sha256:"
    && (forall i :: 7 <= i < 71 ==> HexDigit(s[i]))
  }

  function Require(fields: map<string, Json>, key: string): Result<string, Failure> {
    if key in fields && fields[key].Text? && fields[key].text != "" then Ok(fields[key].text) else Err(Missing(key))
  }

  /** The checks after the required strings are there. */
  function Check(p: Payload): Result<Payload, Failure> {
    if !("https://" <= p.serviceUrl) then Err(NotEncrypted)
    else if !IsFingerprint(p.fingerprint) then Err(BadFingerprint)
    else Ok(p)
  }

  function ReadFields(fields: map<string, Json>): Result<Payload, Failure> {
    if Lookup(fields, "v") != Some(Number(VERSION)) then Err(OtherVersion)
    else
      var url, id := Require(fields, "service_url"), Require(fields, "service_id");
      var fingerprint, token := Require(fields, "fingerprint"), Require(fields, "token");
      var expires := Require(fields, "expires_at");
      if url.Err? then Err(url.error)
      else if id.Err? then Err(id.error)
      else if fingerprint.Err? then Err(fingerprint.error)
      else if token.Err? then Err(token.error)
      else if expires.Err? then Err(expires.error)
      else Check(Payload(VERSION, url.value, id.value, fingerprint.value, token.value, expires.value))
  }

  function EncodePayload(c: Codec, p: Payload): string {
    SCHEME + Encode(c.encode(p))
  }

  function ParsePayload(c: Codec, scanned: string): Result<Payload, Failure> {
    var trimmed := Trim(scanned);
    if !(SCHEME <= trimmed) then Err(NotPairing)
    else
      var bytes := Decode(trimmed[|SCHEME|..]);
      if bytes.None? then Err(Damaged)
      else
        match c.parse(bytes.value)
        case Object(fields) => ReadFields(fields)
        case _ => Err(Damaged)
  }

  /** A complete invitation to a service behind TLS. */
  predicate Valid(p: Payload) {
    && p.version == VERSION
    && p.serviceUrl != "" && p.serviceId != "" && p.fingerprint != "" && p.token != "" && p.expiresAt != ""
    && "https://" <= p.serviceUrl
    && IsFingerprint(p.fingerprint)
  }
}

module PairingProofs {
  import opened Prelude
  import opened Regrouping
  import opened Base64Url
  import opened Base64UrlProofs
  import P = Pairing

  lemma ScannedStaysWhole(v: seq<sextet>)
    ensures P.Trim(P.SCHEME + Each(UrlChar, v)) == P.SCHEME + Each(UrlChar, v)
  {
    var s := P.SCHEME + Each(UrlChar, v);
    assert s[0] == 's';
    if v != [] { assert s[|s| - 1] == UrlChar(v[|v| - 1]); } else { assert s[|s| - 1] == '='; }
  }

  lemma ParseReadsFields(c: P.Codec, p: P.Payload)
    requires P.Lawful(c)
    ensures P.ParsePayload(c, P.EncodePayload(c, p)) == P.ReadFields(P.Fields(p))
  {
    var s := P.EncodePayload(c, p);
    EncodeIsUrlAlphabet(c.encode(p));
    ScannedStaysWhole(Sextets(c.encode(p)));
    DecodeOfEncode(c.encode(p));
    assert s[|P.SCHEME|..] == Encode(c.encode(p));
  }

  /** What the phone reads from a code is the encoded payload exactly when that payload is a valid
  invitation; every other payload is refused. The encoder may be the daemon's or the phone's. */
  lemma ParseOfEncodeExactly(c: P.Codec, p: P.Payload)
    requires P.Lawful(c)
    ensures P.ParsePayload(c, P.EncodePayload(c, p)) == Ok(p) <==> P.Valid(p)
    ensures P.ParsePayload(c, P.EncodePayload(c, p)).Ok? <==> P.Valid(p)
  {
    ParseReadsFields(c, p);
    FieldsRead(p);
  }

  lemma FieldsRead(p: P.Payload)
    ensures P.ReadFields(P.Fields(p)) == Ok(p) <==> P.Valid(p)
    ensures P.ReadFields(P.Fields(p)).Ok? <==> P.Valid(p)
  {
    assert Lookup(P.Fields(p), "v") == Some(P.Number(p.version));
    assert Lookup(P.Fields(p), "service_url") == Some(P.Text(p.serviceUrl));
    assert Lookup(P.Fields(p), "service_id") == Some(P.Text(p.serviceId));
    assert Lookup(P.Fields(p), "fingerprint") == Some(P.Text(p.fingerprint));
    assert Lookup(P.Fields(p), "token") == Some(P.Text(p.token));
    assert Lookup(P.Fields(p), "expires_at") == Some(P.Text(p.expiresAt));
  }

  /** Whatever is scanned, an accepted code is a valid invitation. */
  lemma AcceptedIsValid(c: P.Codec, scanned: string)
    ensures P.ParsePayload(c, scanned).Ok? ==> P.Valid(P.ParsePayload(c, scanned).value)
  {
  }

  /** Codes made by two encoders, of one daemon payload, are read alike. */
  lemma EncodersAgree(daemon: P.Codec, phone: P.Codec, p: P.Payload)
    requires P.Lawful(daemon) && P.Lawful(phone) && daemon.parse == phone.parse
    ensures P.ParsePayload(phone, P.EncodePayload(daemon, p)) == P.ParsePayload(phone, P.EncodePayload(phone, p))
  {
    var c := P.Codec(daemon.encode, phone.parse);
    assert P.Lawful(c);
    ParseReadsFields(c, p);
    ParseReadsFields(phone, p);
  }

  // ---------- White space around a code ----------

  /** The white space and line terminators of ECMAScript, sections 12.2 and 12.3. */
  const WHITE: set<char> := {
    '\U{09}', '\U{0A}', '\U{0B}', '\U{0C}', '\U{0D}', '\U{20}', '\U{A0}', '\U{1680}',
    '\U{2000}', '\U{2001}', '\U{2002}', '\U{2003}', '\U{2004}', '\U{2005}', '\U{2006}', '\U{2007}', '\U{2008}',
    '\U{2009}', '\U{200A}', '\U{2028}', '\U{2029}', '\U{202F}', '\U{205F}', '\U{3000}', '\U{FEFF}'}

  lemma SpaceExactly(c: char)
    ensures P.Space(c) <==> c in WHITE
  {
  }

  predicate AllSpace(s: string) {
    forall i :: 0 <= i < |s| ==> s[i] in WHITE
  }

  lemma {:induction false} StartTrimmed(before: string, s: string)
    requires AllSpace(before)
    ensures P.TrimStart(before + s) == P.TrimStart(s)
    decreases |before|
  {
    if before == "" {
      assert before + s == s;
    } else {
      assert (before + s)[1..] == before[1..] + s;
      StartTrimmed(before[1..], s);
    }
  }

  lemma {:induction false} EndTrimmed(s: string, after: string)
    requires AllSpace(after)
    ensures P.TrimEnd(s + after) == P.TrimEnd(s)
    decreases |after|
  {
    if after == "" {
      assert s + after == s;
    } else {
      assert (s + after)[..|s + after| - 1] == s + after[..|after| - 1];
      EndTrimmed(s, after[..|after| - 1]);
    }
  }

  lemma {:induction false} StartThenSpace(s: string, after: string)
    requires AllSpace(after)
    ensures P.TrimEnd(P.TrimStart(s + after)) == P.TrimEnd(P.TrimStart(s))
    decreases |s|
  {
    if s == "" {
      assert s + after == after + "";
      StartTrimmed(after, "");
    } else if P.Space(s[0]) {
      assert (s + after)[1..] == s[1..] + after;
      StartThenSpace(s[1..], after);
    } else {
      EndTrimmed(s, after);
    }
  }

  /** White space around any text does not change what is read from it. */
  lemma SpaceAroundIgnored(c: P.Codec, before: string, text: string, after: string)
    requires AllSpace(before) && AllSpace(after)
    ensures P.Trim(before + text + after) == P.Trim(text)
    ensures P.ParsePayload(c, before + text + after) == P.ParsePayload(c, text)
  {
    assert before + text + after == before + (text + after);
    StartTrimmed(before, text + after);
    StartThenSpace(text, after);
  }

  /** So a code pasted with blanks and line ends around it is read as the invitation it encodes. */
  lemma PastedCodeIsRead(c: P.Codec, p: P.Payload)
    requires P.Lawful(c) && P.Valid(p)
    ensures P.ParsePayload(c, " \t" + P.EncodePayload(c, p) + "\r\n") == Ok(p)
  {
    SpaceAroundIgnored(c, " \t", P.EncodePayload(c, p), "\r\n");
    ParseOfEncodeExactly(c, p);
  }

  // ---------- Why a code is refused ----------

  /** Each refusal of a text that decodes to an object, in the order of the checks. */
  ghost predicate ReadAnswers(fields: map<string, P.Json>, r: Result<P.Payload, P.Failure>) {
    if Lookup(fields, "v") != Some(P.Number(1)) then r == Err(P.OtherVersion)
    else if !HasText(fields, "service_url") then r == Err(P.Missing("service_url"))
    else if !HasText(fields, "service_id") then r == Err(P.Missing("service_id"))
    else if !HasText(fields, "fingerprint") then r == Err(P.Missing("fingerprint"))
    else if !HasText(fields, "token") then r == Err(P.Missing("token"))
    else if !HasText(fields, "expires_at") then r == Err(P.Missing("expires_at"))
    else if !("https://" <= fields["service_url"].text) then r == Err(P.NotEncrypted)
    else if !P.IsFingerprint(fields["fingerprint"].text) then r == Err(P.BadFingerprint)
    else
      r == Ok(P.Payload(1, fields["service_url"].text, fields["service_id"].text, fields["fingerprint"].text,
                        fields["token"].text, fields["expires_at"].text))
  }

  predicate HasText(fields: map<string, P.Json>, key: string) {
    key in fields && fields[key].Text? && fields[key].text != ""
  }

  lemma ReadAnswersExactly(fields: map<string, P.Json>)
    ensures ReadAnswers(fields, P.ReadFields(fields))
  {
  }

  /** A fingerprint is "sha256:" and 64 lower-case hexadecimal digits: an upper-case one is refused. */
  lemma FingerprintExactly(s: string)
    ensures P.IsFingerprint(s) <==>
      |s| == 71 && s[..7] == "sha256:" && forall i :: 7 <= i < 71 ==> s[i] in "0123456789abcdef"
  {
    HexExactly();
  }

  lemma HexExactly()
    ensures forall c: char :: P.HexDigit(c) <==> c in "0123456789abcdef"
  {
    forall c: char ensures P.HexDigit(c) <==> c in "0123456789abcdef" {
      var digits := "0123456789abcdef";
      if '0' <= c <= '9' { assert digits[c as int - '0' as int] == c; }
      if 'a' <= c <= 'f' { assert digits[c as int - 'a' as int + 10] == c; }
    }
  }

  /** Texts that are no pairing code, and codes whose content is damaged. */
  lemma ScanAnswersExactly(c: P.Codec, code: string)
    requires P.Trim(code) == code
    ensures P.ParsePayload(c, code) == Err(P.NotPairing) <==> !("soulmate://pair?data=" <= code)
    ensures "soulmate://pair?data=" <= code ==>
      var bytes := Decode(code[|P.SCHEME|..]);
      && (bytes.None? || !c.parse(bytes.value).Object? ==> P.ParsePayload(c, code) == Err(P.Damaged))
      && (bytes.Some? && c.parse(bytes.value).Object? ==>
            ReadAnswers(c.parse(bytes.value).fields, P.ParsePayload(c, code)))
  {
    if "soulmate://pair?data=" <= code {
      var bytes := Decode(code[|P.SCHEME|..]);
      if bytes.Some? && c.parse(bytes.value).Object? { ReadAnswersExactly(c.parse(bytes.value).fields); }
    }
  }
}
