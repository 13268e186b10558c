/** The pairing text decodes to what was encoded, and exactly which texts decode at all. */
module Base64UrlProofs {
  import opened Prelude
  import opened Regrouping
  import opened Base64Url

  lemma BytesBack(a: byte, b: byte, c: byte)
    ensures First(S0(a), S1(a, b)) == a && Second(S1(a, b), S2(b, c)) == b && Third(S2(b, c), S3(c)) == c
  {
  }

  lemma SextetsBack(p: sextet, q: sextet, r: sextet, t: sextet)
    ensures S0(First(p, q)) == p && S1(First(p, q), Second(q, r)) == q
    ensures S2(Second(q, r), Third(r, t)) == r && S3(Third(r, t)) == t
    ensures S1(First(p, q), 0) == q <==> q % 16 == 0
    ensures S2(Second(q, r), 0) == r <==> r % 4 == 0
  {
    assert First(p, q) as int % 4 * 16 == q as int / 16 * 16;
    assert Second(q, r) as int % 16 * 4 == r as int / 4 * 4;
  }

  /** The bit arithmetic satisfies the laws of regrouping. */
  lemma GroupsLawful()
    ensures Lawful(GROUPS)
  {
    forall a, b, c ensures Fits(GROUPS, a, b, c) { BytesBack(a, b, c); }
    forall p, q, r, t ensures FitsBack(GROUPS, p, q, r, t) { SextetsBack(p, q, r, t); }
  }

  lemma AlphabetFacts(v: sextet)
    ensures StdValue(StdChar(v)) == Some(v)
    ensures ToStd(UrlChar(v)) == StdChar(v) && ToUrl(StdChar(v)) == UrlChar(v)
    ensures UrlChar(v) != '=' && StdChar(v) != '=' && !AsciiSpace(StdChar(v))
  {
  }

  const UPPER: string := "ABCDEFGHIJKLMNOPQRSTUVWXYZ"
  const LOWER: string := "abcdefghijklmnopqrstuvwxyz"
  const OTHERS: string := "0123456789-_"

  /** The alphabet as section 5 of RFC 4648 lists it. */
  const URL_ALPHABET: string := UPPER + LOWER + OTHERS

  lemma UpperListed(v: sextet)
    requires v < 26
    ensures |UPPER| == 26 && UrlChar(v) == UPPER[v as int]
  {
  }

  lemma LowerListed(v: sextet)
    requires 26 <= v < 52
    ensures |LOWER| == 26 && UrlChar(v) == LOWER[v as int - 26]
  {
  }

  lemma OthersListed(v: sextet)
    requires 52 <= v
    ensures |OTHERS| == 12 && UrlChar(v) == OTHERS[v as int - 52]
  {
  }

  lemma UrlCharListed(v: sextet)
    ensures |URL_ALPHABET| == 64 && UrlChar(v) == URL_ALPHABET[v as int]
  {
    if v < 26 { UpperListed(v); } else if v < 52 { LowerListed(v); } else { OthersListed(v); }
  }

  lemma {:induction false} StripPadsOf(s: string, n: nat)
    requires s == "" || s[|s| - 1] != '='
    ensures StripPads(s + Pads(n)) == s
    decreases n
  {
    if n == 0 {
      assert s + Pads(0) == s;
    } else {
      assert (s + Pads(n))[..|s| + n - 1] == s + Pads(n - 1);
      StripPadsOf(s, n - 1);
    }
  }

  /** The program's detour through the standard alphabet and its padding computes base64url without
  padding: the section 5 alphabet applied to the sextets. */
  lemma EncodeIsUrlAlphabet(b: Bytes)
    ensures Encode(b) == Each(UrlChar, Sextets(b))
  {
    var url := Each(UrlChar, Sextets(b));
    var n := if |b| % 3 == 0 then 0 else 3 - |b| % 3;
    forall i | 0 <= i < |Sextets(b)| ensures ToUrl(StdChar(Sextets(b)[i])) == url[i] && url[i] != '=' {
      AlphabetFacts(Sextets(b)[i]);
    }
    assert Each(ToUrl, Btoa(b)) == url + Pads(n);
    StripPadsOf(url, n);
  }

  /** Four sextets hold the 24 bits of three bytes, first bits first; a short group is filled with zero
  bits. */
  ghost predicate SameBits(b: Bytes, s: seq<sextet>) {
    match |b|
    case 1 => |s| == 2 && s[0] as int * 64 + s[1] as int == b[0] as int * 16
    case 2 => |s| == 3 && (s[0] as int * 64 + s[1] as int) * 64 + s[2] as int == (b[0] as int * 256 + b[1] as int) * 4
    case 3 =>
      && |s| == 4
      && ((s[0] as int * 64 + s[1] as int) * 64 + s[2] as int) * 64 + s[3] as int
         == (b[0] as int * 256 + b[1] as int) * 256 + b[2] as int
    case _ => false
  }

  lemma FirstGroup(b: Bytes)
    requires b != []
    ensures |Sextets(b)| >= 2 && SameBits(b[..Min(3, |b|)], Sextets(b)[..Min(4, |Sextets(b)|)])
    ensures |b| > 3 ==> |Sextets(b)| >= 4 && Sextets(b)[4..] == Sextets(b[3..])
  {
  }

  /** Group i of the sextets holds the bits of group i of the bytes. */
  ghost predicate GroupAt(b: Bytes, s: seq<sextet>, i: nat) {
    && 3 * i < |b| && 4 * i < |s|
    && SameBits(b[3 * i..Min(3 * i + 3, |b|)], s[4 * i..Min(4 * i + 4, |s|)])
  }

  lemma SliceOfRest<T>(s: seq<T>, n: nat, lo: nat, hi: nat)
    requires n <= lo <= hi <= |s|
    ensures s[n..][lo - n..hi - n] == s[lo..hi]
  {
  }

  lemma GroupOfRest(b: Bytes, s: seq<sextet>, i: nat)
    requires i > 0 && |b| >= 3 && |s| >= 4 && GroupAt(b[3..], s[4..], i - 1)
    ensures GroupAt(b, s, i)
  {
    SliceOfRest(b, 3, 3 * i, Min(3 * i + 3, |b|));
    SliceOfRest(s, 4, 4 * i, Min(4 * i + 4, |s|));
  }

  /** Group by group, in order, the sextets are the bits of the bytes. */
  lemma {:induction false} GroupsInOrder(b: Bytes, i: nat)
    requires 3 * i < |b|
    ensures GroupAt(b, Sextets(b), i)
    decreases i
  {
    FirstGroup(b);
    if i > 0 {
      GroupsInOrder(b[3..], i - 1);
      GroupOfRest(b, Sextets(b), i);
    }
  }

  /** And the code spells the sextets in the alphabet of section 5. */
  lemma CodeIsListed(b: Bytes, j: nat)
    requires j < |Sextets(b)|
    ensures |Encode(b)| == |Sextets(b)| && Encode(b)[j] == URL_ALPHABET[Sextets(b)[j] as int]
  {
    EncodeIsUrlAlphabet(b);
    UrlCharListed(Sextets(b)[j]);
  }

  /** The pad formula restores exactly the padding that was stripped. */
  lemma PadFormulaRestores(b: Bytes)
    ensures Each(ToStd, Encode(b)) + Pads(PadLength(|Encode(b)|)) == Btoa(b)
  {
    EncodeIsUrlAlphabet(b);
    forall i | 0 <= i < |Sextets(b)| ensures ToStd(UrlChar(Sextets(b)[i])) == StdChar(Sextets(b)[i]) {
      AlphabetFacts(Sextets(b)[i]);
    }
    assert Each(ToStd, Encode(b)) == Each(StdChar, Sextets(b));
  }

  lemma {:induction false} NoSpacesToDrop(s: string)
    requires forall i :: 0 <= i < |s| ==> !AsciiSpace(s[i])
    ensures WithoutSpaces(s) == s
    decreases |s|
  {
    if s != "" { NoSpacesToDrop(s[1..]); }
  }

  lemma {:induction false} SpacesBeforePads(s: string, n: nat)
    ensures WithoutSpaces(s + Pads(n)) == WithoutSpaces(s) + Pads(n)
    decreases |s|
  {
    if s == "" {
      assert s + Pads(n) == Pads(n);
      NoSpacesToDrop(Pads(n));
    } else {
      assert (s + Pads(n))[1..] == s[1..] + Pads(n);
      SpacesBeforePads(s[1..], n);
    }
  }

  lemma {:induction false} StripPadsLeaves(s: string)
    ensures var body := StripPads(s);
      && |body| <= |s| && s == body + Pads(|s| - |body|) && (body == "" || body[|body| - 1] != '=')
    decreases |s|
  {
    if s != "" && s[|s| - 1] == '=' {
      StripPadsLeaves(s[..|s| - 1]);
      assert s == s[..|s| - 1] + ['='];
    }
  }

  /** At most two padding signs are dropped, and only from a text of full groups. */
  function PadsLeft(body: nat, pads: nat): nat {
    if (body + pads) % 4 != 0 then pads else if pads <= 2 then 0 else pads - 2
  }

  lemma PaddingDrops(body: string, pads: nat)
    requires body == "" || body[|body| - 1] != '='
    ensures WithoutPadding(body + Pads(pads)) == body + Pads(PadsLeft(|body|, pads))
  {
    var t := body + Pads(pads);
    if |t| % 4 == 0 && pads > 0 {
      assert t[|t| - 1] == '=';
      assert pads == 1 ==> t[|t| - 2] == body[|body| - 1];
      assert pads >= 2 ==> t[|t| - 2] == '=';
    }
  }

  lemma AlphabetBeforePads(body: string, pads: nat)
    ensures InAlphabet(body + Pads(pads)) <==> InAlphabet(body) && pads == 0
    ensures pads == 0 ==> body + Pads(pads) == body
  {
    var t := body + Pads(pads);
    assert forall i :: 0 <= i < |body| ==> t[i] == body[i];
    if pads > 0 { assert t[|body|] == '=' && StdValue('=').None?; }
  }

  /** A body in the alphabet, of a possible length, followed by no padding sign or by those that
  complete its last group. */
  predicate Complete(body: string, pads: nat) {
    InAlphabet(body) && |body| % 4 != 1 && (pads == 0 || (pads <= 2 && (|body| + pads) % 4 == 0))
  }

  lemma NoPadLeft(body: nat, pads: nat)
    ensures PadsLeft(body, pads) == 0 <==> pads == 0 || (pads <= 2 && (body + pads) % 4 == 0)
  {
  }

  /** What atob makes of any text. */
  lemma AtobExactly(text: string, body: string, pads: nat)
    requires WithoutSpaces(text) == body + Pads(pads) && (body == "" || body[|body| - 1] != '=')
    ensures Atob(text) == if Complete(body, pads) then Some(FromSextets(Values(body))) else None
  {
    var left := PadsLeft(|body|, pads);
    PaddingDrops(body, pads);
    AlphabetBeforePads(body, left);
    NoPadLeft(|body|, pads);
    if left == 0 { assert WithoutPadding(WithoutSpaces(text)) == body; }
  }

  /** The text without spaces, in the standard alphabet, and without padding signs at its end. */
  function Body(value: string): string {
    StripPads(WithoutSpaces(Each(ToStd, value)))
  }

  /** How many padding signs it ends in for atob: its own, and those the program appends, which are
  counted from the length with the spaces. */
  function PadSigns(value: string): nat {
    StripPadsLeaves(WithoutSpaces(Each(ToStd, value)));
    |WithoutSpaces(Each(ToStd, value))| - |Body(value)| + PadLength(|value|)
  }

  lemma PadsJoin(body: string, own: nat, more: nat)
    ensures (body + Pads(own)) + Pads(more) == body + Pads(own + more)
  {
    assert Pads(own) + Pads(more) == Pads(own + more);
  }

  lemma PaddedText(value: string)
    ensures WithoutSpaces(Each(ToStd, value) + Pads(PadLength(|value|))) == Body(value) + Pads(PadSigns(value))
    ensures Body(value) == "" || Body(value)[|Body(value)| - 1] != '='
  {
    StripPadsLeaves(WithoutSpaces(Each(ToStd, value)));
    SpacesBeforePads(Each(ToStd, value), PadLength(|value|));
    PadsJoin(Body(value), |WithoutSpaces(Each(ToStd, value))| - |Body(value)|, PadLength(|value|));
  }

  /** Whatever the text: it decodes exactly when its body is complete with its padding signs, and then
  to the bytes of its sextets. */
  lemma DecodeAcceptsExactly(value: string)
    ensures Decode(value) ==
      if Complete(Body(value), PadSigns(value)) then Some(FromSextets(Values(Body(value)))) else None
  {
    PaddedText(value);
    AtobExactly(Each(ToStd, value) + Pads(PadLength(|value|)), Body(value), PadSigns(value));
  }

  lemma PlainStays(value: string, pads: nat)
    requires forall i :: 0 <= i < |value| ==> !AsciiSpace(value[i]) && value[i] != '='
    ensures var std := Each(ToStd, value);
      WithoutSpaces(std + Pads(pads)) == std + Pads(pads) && (std == "" || std[|std| - 1] != '=')
  {
    NoSpacesToDrop(Each(ToStd, value));
    SpacesBeforePads(Each(ToStd, value), pads);
  }

  /** Text without spaces and padding signs decodes exactly when its length is possible and each of
  its characters is in one of the two alphabets. */
  lemma PlainTextDecodesExactly(value: string)
    requires forall i :: 0 <= i < |value| ==> !AsciiSpace(value[i]) && value[i] != '='
    ensures Decode(value) ==
      if |value| % 4 != 1 && InAlphabet(Each(ToStd, value)) then Some(FromSextets(Values(Each(ToStd, value)))) else None
  {
    var std, pads := Each(ToStd, value), PadLength(|value|);
    PlainStays(value, pads);
    AtobExactly(std + Pads(pads), std, pads);
    PadLengthCompletes(|value|);
  }

  lemma PadLengthCompletes(n: nat)
    ensures n % 4 != 1 <==> PadLength(n) <= 2
    ensures (n + PadLength(n)) % 4 == 0
  {
  }

  /** Spaces are ignored by atob but counted by the program's padding, so a space can make a valid text
  invalid: after two characters it takes the place of a padding sign. */
  lemma SpaceSpoilsPadding()
    ensures Decode("QQ").Some? && Decode("QQ ").None?
  {
    var pair: string := ['Q', 'Q'];
    var spaced: string := ['Q', 'Q', ' '];
    assert spaced[1..] == ['Q', ' '] && spaced[1..][1..] == [' '] && spaced[1..][1..][1..] == "";
    assert WithoutSpaces([' ']) == "" && WithoutSpaces(['Q', ' ']) == ['Q'] && WithoutSpaces(spaced) == pair;
    assert Each(ToStd, spaced) == spaced && Each(ToStd, pair) == pair;
    SpacesBeforePads(spaced, 1);
    AtobExactly(spaced + Pads(1), pair, 1);
    PlainTextDecodesExactly(pair);
  }

  lemma {:induction false} DropSpacesOfJoin(s: string, t: string)
    ensures WithoutSpaces(s + t) == WithoutSpaces(s) + WithoutSpaces(t)
    decreases |s|
  {
    if s == "" {
      assert s + t == t;
    } else {
      assert (s + t)[1..] == s[1..] + t;
      DropSpacesOfJoin(s[1..], t);
    }
  }

  lemma DroppedSpaces(s: string, t: string, pads: nat)
    ensures WithoutSpaces(Each(ToStd, s + t) + Pads(pads))
      == WithoutSpaces(Each(ToStd, s)) + WithoutSpaces(Each(ToStd, t) + Pads(pads))
  {
    assert Each(ToStd, s + t) + Pads(pads) == Each(ToStd, s) + (Each(ToStd, t) + Pads(pads));
    DropSpacesOfJoin(Each(ToStd, s), Each(ToStd, t) + Pads(pads));
  }

  lemma {:induction false} OnlySpaces(s: string)
    requires forall i :: 0 <= i < |s| ==> s[i] in {'\t', '\n', '\U{0C}', '\r', ' '}
    ensures WithoutSpaces(Each(ToStd, s)) == ""
    decreases |s|
  {
    if s != "" {
      assert Each(ToStd, s)[1..] == Each(ToStd, s[1..]);
      OnlySpaces(s[1..]);
    }
  }

  lemma SpacesDropped(before: string, spaces: string, after: string, pads: nat)
    requires WithoutSpaces(Each(ToStd, spaces)) == ""
    ensures WithoutSpaces(Each(ToStd, before + (spaces + after)) + Pads(pads))
      == WithoutSpaces(Each(ToStd, before + after) + Pads(pads))
  {
    DroppedSpaces(before, spaces + after, pads);
    DroppedSpaces(spaces, after, pads);
    DroppedSpaces(before, after, pads);
  }

  lemma SameDecoded(s: string, t: string)
    requires WithoutSpaces(Each(ToStd, s) + Pads(PadLength(|s|)))
      == WithoutSpaces(Each(ToStd, t) + Pads(PadLength(|t|)))
    ensures Decode(s) == Decode(t)
  {
  }

  /** A multiple of four blanks, tabs, form feeds and line ends does no harm, wherever it stands. */
  lemma FourSpacesIgnored(before: string, spaces: string, after: string)
    requires |spaces| % 4 == 0
    requires forall i :: 0 <= i < |spaces| ==> spaces[i] in {'\t', '\n', '\U{0C}', '\r', ' '}
    ensures Decode(before + (spaces + after)) == Decode(before + after)
  {
    var s, t := before + (spaces + after), before + after;
    OnlySpaces(spaces);
    assert PadLength(|s|) == PadLength(|t|);
    SpacesDropped(before, spaces, after, PadLength(|t|));
    SameDecoded(s, t);
  }

  /** Decoding what was encoded returns the bytes, for every length. */
  lemma DecodeOfEncode(b: Bytes)
    ensures Decode(Encode(b)) == Some(b)
  {
    EncodeIsUrlAlphabet(b);
    var v := Encode(b);
    forall i | 0 <= i < |v| ensures StdValue(ToStd(v[i])) == Some(Sextets(b)[i]) && !AsciiSpace(v[i]) && v[i] != '=' {
      AlphabetFacts(Sextets(b)[i]);
    }
    PlainTextDecodesExactly(v);
    assert Values(Each(ToStd, v)) == Sextets(b);
    GroupsLawful();
    JoinOfSplit(GROUPS, b);
  }

  // ---------- Which text is canonical ----------

  /** Text in the section 5 alphabet is what encoding its bytes gives exactly when its left-over bits
  are zero. */
  lemma EncodeOfDecodeExactly(s: seq<sextet>)
    requires |s| % 4 != 1
    ensures var v := Each(UrlChar, s);
      && Decode(v) == Some(FromSextets(s))
      && (Encode(Decode(v).value) == v <==> Canonical(GROUPS, s))
  {
    var v := Each(UrlChar, s);
    forall i | 0 <= i < |v| ensures StdValue(ToStd(v[i])) == Some(s[i]) && !AsciiSpace(v[i]) && v[i] != '=' {
      AlphabetFacts(s[i]);
    }
    PlainTextDecodesExactly(v);
    assert Values(Each(ToStd, v)) == s;
    EncodeIsUrlAlphabet(FromSextets(s));
    GroupsLawful();
    SplitOfJoin(GROUPS, s);
    UrlInjective(s, Sextets(FromSextets(s)));
  }

  lemma UrlInjective(s: seq<sextet>, t: seq<sextet>)
    ensures Each(UrlChar, t) == Each(UrlChar, s) <==> t == s
  {
    if Each(UrlChar, t) == Each(UrlChar, s) {
      assert |t| == |Each(UrlChar, t)| == |s|;
      forall i | 0 <= i < |s| ensures t[i] == s[i] {
        AlphabetFacts(s[i]);
        AlphabetFacts(t[i]);
        assert Each(UrlChar, t)[i] == Each(UrlChar, s)[i];
      }
      assert t == s;
    }
  }

  /** So decoding is not injective: two texts stand for the byte 65. */
  lemma TwoTextsOneByte()
    ensures Decode("QQ") == Some([65]) && Decode("QR") == Some([65])
  {
    EncodeOfDecodeExactly([16, 16]);
    EncodeOfDecodeExactly([16, 17]);
    assert Each(UrlChar, [16 as sextet, 16]) == "QQ";
    assert Each(UrlChar, [16 as sextet, 17]) == "QR";
  }
}
