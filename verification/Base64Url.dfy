/** Base64url without padding (sections 3.2 and 5 of RFC 4648), as the pairing code computes it:
through the standard alphabet, with padding stripped and restored. */
module Base64Url {
  import opened Prelude
  import opened Regrouping

  newtype sextet = x: int | 0 <= x < 64

  // ---------- Bytes and sextets ----------

  function S0(a: byte): sextet { (a as int / 4) as sextet }

  function S1(a: byte, b: byte): sextet { (a as int % 4 * 16 + b as int / 16) as sextet }

  function S2(b: byte, c: byte): sextet { (b as int % 16 * 4 + c as int / 64) as sextet }

  function S3(c: byte): sextet { (c as int % 64) as sextet }

  function First(p: sextet, q: sextet): byte { (p as int * 4 + q as int / 16) as byte }

  function Second(q: sextet, r: sextet): byte { (q as int % 16 * 16 + r as int / 4) as byte }

  function Third(r: sextet, t: sextet): byte { (r as int % 4 * 64 + t as int) as byte }

  /** Three bytes as four sextets; the last sextet of a short group must end in zero bits. */
  const GROUPS: Grouping<byte, sextet> :=
    Grouping(0, S0, S1, S2, S3, First, Second, Third, (q: sextet) => q % 16 == 0, (r: sextet) => r % 4 == 0)

  function Sextets(b: Bytes): (r: seq<sextet>)
    ensures |r| % 4 == (if |b| % 3 == 0 then 0 else |b| % 3 + 1)
  {
    Split(GROUPS, b)
  }

  function FromSextets(s: seq<sextet>): Bytes
    requires |s| % 4 != 1
  {
    Join(GROUPS, s)
  }

  // ---------- Alphabets ----------

  function StdChar(v: sextet): char {
    if v < 26 then (v as int + 'A' as int) as char
    else if v < 52 then (v as int - 26 + 'a' as int) as char
    else if v < 62 then (v as int - 52 + '0' as int) as char
    else if v == 62 then '+' else '/'
  }

  function StdValue(c: char): Option<sextet> {
    if 'A' <= c <= 'Z' then Some((c as int - 'A' as int) as sextet)
    else if 'a' <= c <= 'z' then Some((c as int - 'a' as int + 26) as sextet)
    else if '0' <= c <= '9' then Some((c as int - '0' as int + 52) as sextet)
    else if c == '+' then Some(62) else if c == '/' then Some(63) else None
  }

  /** The alphabet of section 5. */
  function UrlChar(v: sextet): char {
    if v == 62 then '-' else if v == 63 then '_' else StdChar(v)
  }

  function ToUrl(c: char): char {
    if c == '+' then '-' else if c == '/' then '_' else c
  }

  function ToStd(c: char): char {
    if c == '-' then '+' else if c == '_' then '/' else c
  }

  function Each<A, B>(f: A -> B, s: seq<A>): (r: seq<B>)
    ensures |r| == |s| && forall i :: 0 <= i < |s| ==> r[i] == f(s[i])
  {
    seq(|s|, i requires 0 <= i < |s| => f(s[i]))
  }

  function Pads(n: nat): (r: string)
    ensures |r| == n && forall i :: 0 <= i < n ==> r[i] == '='
  {
    seq(n, i => '=')
  }

  // ---------- The host's btoa and atob ----------

  /** btoa: the standard alphabet, padded to a multiple of four. */
  function Btoa(b: Bytes): string {
    Each(StdChar, Sextets(b)) + Pads(if |b| % 3 == 0 then 0 else 3 - |b| % 3)
  }

  predicate AsciiSpace(c: char) {
    c == '\t' || c == '\n' || c == '\U{0C}' || c == '\r' || c == ' '
  }

  function WithoutSpaces(s: string): string {
    if s == "" then "" else (if AsciiSpace(s[0]) then "" else [s[0]]) + WithoutSpaces(s[1..])
  }

  function WithoutPadding(s: string): string {
    if |s| % 4 != 0 || s == "" || s[|s| - 1] != '=' then s
    else if s[|s| - 2] != '=' then s[..|s| - 1]
    else s[..|s| - 2]
  }

  predicate InAlphabet(s: string) {
    forall i :: 0 <= i < |s| ==> StdValue(s[i]).Some?
  }

  function Values(s: string): (r: seq<sextet>)
    requires InAlphabet(s)
    ensures |r| == |s|
  {
    seq(|s|, i requires 0 <= i < |s| => StdValue(s[i]).value)
  }

  /** atob, the forgiving decoder: spaces ignored, padding optional, left-over bits dropped. */
  function Atob(s: string): Option<Bytes> {
    var t := WithoutPadding(WithoutSpaces(s));
    if |t| % 4 == 1 || !InAlphabet(t) then None else Some(FromSextets(Values(t)))
  }

  // ---------- The program's encoder and decoder ----------

  function StripPads(s: string): string {
    if s != "" && s[|s| - 1] == '=' then StripPads(s[..|s| - 1]) else s
  }

  function Encode(b: Bytes): string {
    StripPads(Each(ToUrl, Btoa(b)))
  }

  function PadLength(n: nat): nat {
    (4 - n % 4) % 4
  }

  function Decode(value: string): Option<Bytes> {
    Atob(Each(ToStd, value) + Pads(PadLength(|value|)))
  }

  /** The characters of a byte string, as code units below 256. */
  function Binary(b: Bytes): string {
    Each((x: byte) => x as int as char, b)
  }

  /** The bytes of a string of such characters. */
  function Codes(binary: string): Bytes {
    Each((c: char) => ((c as int) % 256) as byte, binary)
  }

  lemma CodesOfBinary(b: Bytes)
    ensures Codes(Binary(b)) == b
  {
  }

  method BinaryString(bytes: Bytes) returns (binary: string)
    ensures binary == Binary(bytes)
  {
    binary := "";
    for i := 0 to |bytes|
      invariant binary == Binary(bytes[..i])
    {
      assert bytes[..i + 1][..i] == bytes[..i];
      binary := binary + [bytes[i] as int as char];
    }
    assert bytes[..|bytes|] == bytes;
  }

  method StripPadding(padded: string) returns (text: string)
    ensures text == StripPads(padded)
  {
    text := padded;
    while text != "" && text[|text| - 1] == '='
      invariant StripPads(text) == StripPads(padded)
      decreases |text|
    {
      text := text[..|text| - 1];
    }
  }

  /** The encoder with its loop over the bytes. */
  method EncodeBase64Url(bytes: Bytes) returns (text: string)
    ensures text == Encode(bytes)
  {
    var binary := BinaryString(bytes);
    CodesOfBinary(bytes);
    text := StripPadding(Each(ToUrl, Btoa(Codes(binary))));
  }
}
