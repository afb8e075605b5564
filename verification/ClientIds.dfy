/**
  The two written forms of a qualified client id, `user:device@domain`: the Wire form spells the
  user as a UUID, the end-to-end identity form as the unpadded base64url encoding of its bytes.
 */
module ClientIds {
  import opened Base

  const COLON: byte := 58
  const HYPHEN: byte := 45

  // ----- Splitting at colons -----

  function Split(b: Bytes): (parts: seq<Bytes>)
    ensures |parts| > 0
  {
    if b == [] then [[]]
    else
      var rest := Split(b[1..]);
      if b[0] == COLON then [[]] + rest else [[b[0]] + rest[0]] + rest[1..]
  }

  function Join(user: Bytes, rest: Bytes): (b: Bytes) {
    user + [COLON] + rest
  }

  lemma {:induction false} SplitWithoutColon(b: Bytes)
    ensures Split(b) == [b] <==> COLON !in b
    ensures |Split(b)| == 1 ==> Split(b) == [b]
  {
    if b != [] {
      SplitWithoutColon(b[1..]);
      assert b == [b[0]] + b[1..];
    }
  }

  /** Two parts mean exactly one colon. */
  lemma {:induction false} SplitInTwo(b: Bytes)
    ensures |Split(b)| == 2 ==> COLON !in Split(b)[0] && COLON !in Split(b)[1] && b == Join(Split(b)[0], Split(b)[1])
  {
    if b != [] {
      var rest := Split(b[1..]);
      assert b == [b[0]] + b[1..];
      if b[0] == COLON {
        SplitWithoutColon(b[1..]);
      } else {
        SplitInTwo(b[1..]);
        if |rest| == 2 {
          assert [b[0]] + Join(rest[0], rest[1]) == Join([b[0]] + rest[0], rest[1]);
        }
      }
    }
  }

  lemma {:induction false} SplitJoined(user: Bytes, rest: Bytes)
    requires COLON !in user && COLON !in rest
    ensures Split(Join(user, rest)) == [user, rest]
  {
    var b := Join(user, rest);
    if user == [] {
      assert b[1..] == rest;
      SplitWithoutColon(rest);
    } else {
      assert b[1..] == Join(user[1..], rest);
      SplitJoined(user[1..], rest);
      assert [user[0]] + user[1..] == user;
    }
  }

  // ----- Unpadded base64url, section 5 of RFC 4648 -----

  type Sextet = x: int | 0 <= x < 64

  function Letter(v: Sextet): (c: byte) {
    if v < 26 then 65 + v
    else if v < 52 then 97 + (v - 26)
    else if v < 62 then 48 + (v - 52)
    else if v == 62 then 45
    else 95
  }

  function Value(c: byte): (v: Option<Sextet>) {
    if 65 <= c <= 90 then Some(c - 65)
    else if 97 <= c <= 122 then Some(c - 97 + 26)
    else if 48 <= c <= 57 then Some(c - 48 + 52)
    else if c == 45 then Some(62)
    else if c == 95 then Some(63)
    else None
  }

  lemma LetterValue(v: Sextet)
    ensures Value(Letter(v)) == Some(v) && Letter(v) != COLON
  {
  }

  lemma ValueLetter(c: byte)
    requires Value(c).Some?
    ensures Letter(Value(c).value) == c
  {
  }

  // The four sextets of three bytes, and back.

  function S0(a: byte): (v: Sextet) { a / 4 }

  function S1(a: byte, b: byte): (v: Sextet) { a % 4 * 16 + b / 16 }

  function S2(b: byte, c: byte): (v: Sextet) { b % 16 * 4 + c / 64 }

  function S3(c: byte): (v: Sextet) { c % 64 }

  function B0(v0: Sextet, v1: Sextet): (a: byte) { v0 * 4 + v1 / 16 }

  function B1(v1: Sextet, v2: Sextet): (b: byte) { v1 % 16 * 16 + v2 / 4 }

  function B2(v2: Sextet, v3: Sextet): (c: byte) { v2 % 4 * 64 + v3 }

  lemma BytesOfSextets(a: byte, b: byte, c: byte)
    ensures B0(S0(a), S1(a, b)) == a && B1(S1(a, b), S2(b, c)) == b && B2(S2(b, c), S3(c)) == c
    ensures S1(a, 0) % 16 == 0 && S2(b, 0) % 4 == 0
  {
  }

  lemma SextetsOfBytes(v0: Sextet, v1: Sextet, v2: Sextet, v3: Sextet)
    ensures S0(B0(v0, v1)) == v0 && S1(B0(v0, v1), B1(v1, v2)) == v1
    ensures S2(B1(v1, v2), B2(v2, v3)) == v2 && S3(B2(v2, v3)) == v3
    ensures v1 % 16 == 0 ==> S1(B0(v0, v1), 0) == v1
    ensures v2 % 4 == 0 ==> S2(B1(v1, v2), 0) == v2
  {
  }

  function Encode(b: Bytes): (s: Bytes) {
    if |b| == 0 then []
    else if |b| == 1 then [Letter(S0(b[0])), Letter(S1(b[0], 0))]
    else if |b| == 2 then [Letter(S0(b[0])), Letter(S1(b[0], b[1])), Letter(S2(b[1], 0))]
    else [Letter(S0(b[0])), Letter(S1(b[0], b[1])), Letter(S2(b[1], b[2])), Letter(S3(b[2]))] + Encode(b[3..])
  }

  /** The alphabet of base64url. */
  ghost predicate IsLetter(v: int, c: byte) {
    if v < 26 then c == 'A' as int + v
    else if v < 52 then c == 'a' as int + v - 26
    else if v < 62 then c == '0' as int + v - 52
    else if v == 62 then c == '-' as int
    else v == 63 && c == '_' as int
  }

  /** Three bytes and four letters spell the same number, most significant first. */
  lemma EncodedAsNumber(a: byte, b: byte, c: byte, rest: Bytes)
    ensures var s := Encode([a, b, c] + rest);
            && |s| >= 4 && s[4..] == Encode(rest)
            && (exists v0: Sextet, v1: Sextet, v2: Sextet, v3: Sextet ::
                  && IsLetter(v0, s[0]) && IsLetter(v1, s[1]) && IsLetter(v2, s[2]) && IsLetter(v3, s[3])
                  && v0 * 262144 + v1 * 4096 + v2 * 64 + v3 == a * 65536 + b * 256 + c)
  {
    var s := Encode([a, b, c] + rest);
    assert ([a, b, c] + rest)[3..] == rest;
    SextetsAsNumber(a, b, c);
    assert IsLetter(S0(a), s[0]) && IsLetter(S1(a, b), s[1]) && IsLetter(S2(b, c), s[2]) && IsLetter(S3(c), s[3]);
  }

  lemma SextetsAsNumber(a: byte, b: byte, c: byte)
    ensures S0(a) * 262144 + S1(a, b) * 4096 + S2(b, c) * 64 + S3(c) == a * 65536 + b * 256 + c
  {
  }

  /** One or two bytes at the end are spelled as if zeros followed, with the letters of those left out. */
  lemma EncodedTail(a: byte, b: byte)
    ensures Encode([a]) == Encode([a, 0, 0])[..2] && Encode([a, b]) == Encode([a, b, 0])[..3]
  {
    assert [a, 0, 0][3..] == [] && [a, b, 0][3..] == [];
  }

  /** Rejects other characters, an impossible length, and bits left over that are not zero. */
  function Decode(s: Bytes): (b: Option<Bytes>) {
    if |s| == 0 then Some([])
    else if |s| == 1 || Value(s[0]).None? || Value(s[1]).None? then None
    else
      var v0, v1 := Value(s[0]).value, Value(s[1]).value;
      if |s| == 2 then if v1 % 16 == 0 then Some([B0(v0, v1)]) else None
      else if Value(s[2]).None? then None
      else
        var v2 := Value(s[2]).value;
        if |s| == 3 then if v2 % 4 == 0 then Some([B0(v0, v1), B1(v1, v2)]) else None
        else if Value(s[3]).None? || Decode(s[4..]).None? then None
        else Some([B0(v0, v1), B1(v1, v2), B2(v2, Value(s[3]).value)] + Decode(s[4..]).value)
  }

  lemma DecodeQuad(a: byte, b: byte, c: byte, rest: Bytes)
    requires Decode(rest).Some?
    ensures Decode([Letter(S0(a)), Letter(S1(a, b)), Letter(S2(b, c)), Letter(S3(c))] + rest) ==
            Some([a, b, c] + Decode(rest).value)
  {
    BytesOfSextets(a, b, c);
    LetterValue(S0(a));
    LetterValue(S1(a, b));
    LetterValue(S2(b, c));
    LetterValue(S3(c));
    var s := [Letter(S0(a)), Letter(S1(a, b)), Letter(S2(b, c)), Letter(S3(c))] + rest;
    assert s[4..] == rest;
  }

  lemma DecodePair(v0: Sextet, v1: Sextet)
    requires v1 % 16 == 0
    ensures Decode([Letter(v0), Letter(v1)]) == Some([B0(v0, v1)])
  {
    LetterValue(v0);
    LetterValue(v1);
  }

  lemma DecodeTriple(v0: Sextet, v1: Sextet, v2: Sextet)
    requires v2 % 4 == 0
    ensures Decode([Letter(v0), Letter(v1), Letter(v2)]) == Some([B0(v0, v1), B1(v1, v2)])
  {
    LetterValue(v0);
    LetterValue(v1);
    LetterValue(v2);
  }

  lemma {:induction false} DecodeEncode(b: Bytes)
    ensures Decode(Encode(b)) == Some(b)
  {
    if |b| == 1 {
      DecodeEncodeOne(b[0]);
      assert b == [b[0]];
    } else if |b| == 2 {
      DecodeEncodeTwo(b[0], b[1]);
      assert b == [b[0], b[1]];
    } else if |b| > 2 {
      DecodeEncode(b[3..]);
      DecodeQuad(b[0], b[1], b[2], Encode(b[3..]));
      assert [b[0], b[1], b[2]] + b[3..] == b;
    }
  }

  lemma DecodeEncodeOne(a: byte)
    ensures Decode(Encode([a])) == Some([a])
  {
    BytesOfSextets(a, 0, 0);
    DecodePair(S0(a), S1(a, 0));
  }

  lemma DecodeEncodeTwo(a: byte, b: byte)
    ensures Decode(Encode([a, b])) == Some([a, b])
  {
    BytesOfSextets(a, b, 0);
    DecodeTriple(S0(a), S1(a, b), S2(b, 0));
  }

  /** Only letters are decoded, and a colon is none. */
  lemma {:induction false} DecodedHasNoColon(s: Bytes)
    requires Decode(s).Some?
    ensures COLON !in s
  {
    if |s| >= 4 {
      DecodedHasNoColon(s[4..]);
      assert s == [s[0], s[1], s[2], s[3]] + s[4..];
    }
  }

  lemma EncodeQuad(v0: Sextet, v1: Sextet, v2: Sextet, v3: Sextet, rest: Bytes)
    ensures Encode([B0(v0, v1), B1(v1, v2), B2(v2, v3)] + rest) ==
            [Letter(v0), Letter(v1), Letter(v2), Letter(v3)] + Encode(rest)
  {
    SextetsOfBytes(v0, v1, v2, v3);
    var b := [B0(v0, v1), B1(v1, v2), B2(v2, v3)] + rest;
    assert b[3..] == rest;
  }

  lemma {:induction false} EncodeShort(a: byte, b: byte)
    ensures Encode([a]) == [Letter(S0(a)), Letter(S1(a, 0))]
    ensures Encode([a, b]) == [Letter(S0(a)), Letter(S1(a, b)), Letter(S2(b, 0))]
  {
  }

  lemma {:induction false} EncodeTail(v0: Sextet, v1: Sextet, v2: Sextet)
    ensures v1 % 16 == 0 ==> Encode([B0(v0, v1)]) == [Letter(v0), Letter(v1)]
    ensures v2 % 4 == 0 ==> Encode([B0(v0, v1), B1(v1, v2)]) == [Letter(v0), Letter(v1), Letter(v2)]
  {
    var a, b := B0(v0, v1), B1(v1, v2);
    EncodeShort(a, b);
    assert S0(a) == v0 && S1(a, b) == v1 && (v1 % 16 == 0 ==> S1(a, 0) == v1) && (v2 % 4 == 0 ==> S2(b, 0) == v2) by {
      SextetsOfBytes(v0, v1, v2, 0);
    }
  }

  lemma {:induction false} EncodeDecode(s: Bytes)
    requires Decode(s).Some?
    ensures Encode(Decode(s).value) == s
  {
    if |s| > 0 {
      ValueLetter(s[0]);
      ValueLetter(s[1]);
      if |s| == 2 {
        EncodeTail(Value(s[0]).value, Value(s[1]).value, 0);
      } else {
        ValueLetter(s[2]);
        if |s| == 3 {
          EncodeTail(Value(s[0]).value, Value(s[1]).value, Value(s[2]).value);
        } else {
          ValueLetter(s[3]);
          EncodeDecode(s[4..]);
          EncodeQuad(Value(s[0]).value, Value(s[1]).value, Value(s[2]).value, Value(s[3]).value, Decode(s[4..]).value);
          assert [s[0], s[1], s[2], s[3]] + s[4..] == s;
        }
      }
    }
  }

  // ----- UUID text, section 4 of RFC 9562 -----

  type Nibble = x: int | 0 <= x < 16

  function HexDigit(n: Nibble): (c: byte) {
    if n < 10 then 48 + n else 97 + (n - 10)
  }

  /** Either case is read. */
  function HexValue(c: byte): (n: Option<Nibble>) {
    if 48 <= c <= 57 then Some(c - 48)
    else if 97 <= c <= 102 then Some(c - 97 + 10)
    else if 65 <= c <= 70 then Some(c - 65 + 10)
    else None
  }

  predicate LowerHex(c: byte) {
    48 <= c <= 57 || 97 <= c <= 102
  }

  function Hex(b: Bytes): (s: Bytes)
    ensures |s| == 2 * |b|
  {
    if b == [] then [] else [HexDigit(b[0] / 16), HexDigit(b[0] % 16)] + Hex(b[1..])
  }

  function ParseHex(s: Bytes): (b: Option<Bytes>)
    ensures b.Some? ==> 2 * |b.value| == |s|
  {
    if s == [] then Some([])
    else if |s| == 1 || HexValue(s[0]).None? || HexValue(s[1]).None? || ParseHex(s[2..]).None? then None
    else Some([HexValue(s[0]).value * 16 + HexValue(s[1]).value] + ParseHex(s[2..]).value)
  }

  lemma {:induction false} ParseHexOfHex(b: Bytes)
    ensures ParseHex(Hex(b)) == Some(b)
    ensures AllLowerHex(Hex(b)) && COLON !in Hex(b)
  {
    if b != [] {
      ParseHexOfHex(b[1..]);
      assert Hex(b)[2..] == Hex(b[1..]) && Hex(b)[1..][1..] == Hex(b[1..]);
      assert [b[0]] + b[1..] == b;
    }
  }

  predicate AllLowerHex(s: Bytes) {
    s == [] || (LowerHex(s[0]) && AllLowerHex(s[1..]))
  }

  lemma DigitPair(c: byte, d: byte)
    requires HexValue(c).Some? && HexValue(d).Some?
    ensures var b: byte := HexValue(c).value * 16 + HexValue(d).value;
            HexDigit(b / 16) == c && HexDigit(b % 16) == d <==> LowerHex(c) && LowerHex(d)
  {
  }

  lemma {:induction false} HexOfParseHex(s: Bytes)
    requires ParseHex(s).Some?
    ensures Hex(ParseHex(s).value) == s <==> AllLowerHex(s)
  {
    if s != [] {
      var b, rest := ParseHex(s).value, s[2..];
      HexOfParseHex(rest);
      DigitPair(s[0], s[1]);
      assert b[1..] == ParseHex(rest).value;
      assert s == [s[0], s[1]] + rest && s[1..][1..] == rest;
      var h := Hex(b);
      assert h[0] == HexDigit(b[0] / 16) && h[1] == HexDigit(b[0] % 16) && h[2..] == Hex(b[1..]);
    }
  }

  function Hyphenate(h: Bytes): (s: Bytes)
    requires |h| == 32
    ensures |s| == 36
  {
    h[..8] + [HYPHEN] + h[8..12] + [HYPHEN] + h[12..16] + [HYPHEN] + h[16..20] + [HYPHEN] + h[20..]
  }

  predicate Hyphenated(s: Bytes) {
    |s| == 36 && s[8] == s[13] == s[18] == s[23] == HYPHEN
  }

  function Dehyphenate(s: Bytes): (h: Bytes)
    requires |s| == 36
    ensures |h| == 32
  {
    s[..8] + s[9..13] + s[14..18] + s[19..23] + s[24..]
  }

  lemma DehyphenateHyphenate(h: Bytes)
    requires |h| == 32
    ensures Hyphenated(Hyphenate(h)) && Dehyphenate(Hyphenate(h)) == h
  {
    var s := Hyphenate(h);
    assert s[..8] == h[..8] && s[9..13] == h[8..12] && s[14..18] == h[12..16];
    assert s[19..23] == h[16..20] && s[24..] == h[20..];
    assert h[..8] + h[8..12] + h[12..16] + h[16..20] + h[20..] == h;
  }

  lemma HyphenateDehyphenate(s: Bytes)
    requires Hyphenated(s)
    ensures Hyphenate(Dehyphenate(s)) == s
  {
    var h := Dehyphenate(s);
    assert h[..8] == s[..8] && h[8..12] == s[9..13] && h[12..16] == s[14..18];
    assert h[16..20] == s[19..23] && h[20..] == s[24..];
    assert s == s[..8] + [s[8]] + s[9..13] + [s[13]] + s[14..18] + [s[18]] + s[19..23] + [s[23]] + s[24..];
  }

  function Format(u: Bytes): (s: Bytes)
    requires |u| == 16
  {
    Hyphenate(Hex(u))
  }

  function ParseHyphenated(s: Bytes): (u: Option<Bytes>) {
    if Hyphenated(s) then ParseHex(Dehyphenate(s)) else None
  }

  const URN_UUID: Bytes := [117, 114, 110, 58, 117, 117, 105, 100, 58]

  /** 32 digits, or the hyphenated form, bare, in braces, or after `urn:uuid:`. */
  function ParseUuid(s: Bytes): (u: Option<Bytes>)
    ensures u.Some? ==> |u.value| == 16
  {
    if |s| == 32 then ParseHex(s)
    else if |s| == 36 then ParseHyphenated(s)
    else if |s| == 38 && s[0] == 123 && s[37] == 125 then ParseHyphenated(s[1..37])
    else if |s| == 45 && s[..9] == URN_UUID then ParseHyphenated(s[9..])
    else None
  }

  predicate CanonicalUuid(s: Bytes) {
    Hyphenated(s) && AllLowerHex(Dehyphenate(s))
  }

  lemma ParseFormat(u: Bytes)
    requires |u| == 16
    ensures ParseUuid(Format(u)) == Some(u) && CanonicalUuid(Format(u)) && COLON !in Format(u)
  {
    ParseHexOfHex(u);
    DehyphenateHyphenate(Hex(u));
  }

  lemma FormatParse(s: Bytes)
    requires ParseUuid(s).Some?
    ensures Format(ParseUuid(s).value) == s <==> CanonicalUuid(s)
  {
    var u := ParseUuid(s).value;
    ParseFormat(u);
    if CanonicalUuid(s) {
      HexOfParseHex(Dehyphenate(s));
      HyphenateDehyphenate(s);
    }
  }

  // ----- The conversions -----

  /** `WireQualifiedClientId::try_from`. */
  function ToWire(b: Bytes): (w: Option<Bytes>) {
    var parts := Split(b);
    var user := Decode(parts[0]);
    if user.None? || |user.value| != 16 || |parts| != 2 then None
    else Some(Format(user.value) + [COLON] + parts[1])
  }

  /** `QualifiedE2eiClientId::try_from`. */
  function ToE2ei(b: Bytes): (e: Option<Bytes>) {
    var parts := Split(b);
    var user := ParseUuid(parts[0]);
    if user.None? || |parts| != 2 then None
    else Some(Encode(user.value) + [COLON] + parts[1])
  }

  /** `get_user_id`; None stands for a panic. */
  function GetUserId(w: Bytes): (s: Option<Bytes>) {
    var user := ParseUuid(Split(w)[0]);
    if user.None? then None else Some(Format(user.value))
  }

  /** Every accepted base64url id comes back unchanged. */
  lemma FromE2eiAndBack(e: Bytes)
    requires ToWire(e).Some?
    ensures ToE2ei(ToWire(e).value) == Some(e)
  {
    var parts := Split(e);
    var u := Decode(parts[0]).value;
    SplitInTwo(e);
    ParseFormat(u);
    SplitJoined(Format(u), parts[1]);
    EncodeDecode(parts[0]);
  }

  /** Every accepted Wire id comes back in canonical form: unchanged exactly when its user part was canonical. */
  lemma FromWireAndBack(w: Bytes)
    requires ToE2ei(w).Some?
    ensures ToWire(ToE2ei(w).value).Some?
    ensures ToWire(ToE2ei(w).value) == Some(w) <==> CanonicalUuid(Split(w)[0])
    ensures ToE2ei(ToWire(ToE2ei(w).value).value) == ToE2ei(w)
  {
    var parts := Split(w);
    var u := ParseUuid(parts[0]).value;
    SplitInTwo(w);
    DecodeEncode(u);
    DecodedHasNoColon(Encode(u));
    SplitJoined(Encode(u), parts[1]);
    FormatParse(parts[0]);
    var back := ToWire(ToE2ei(w).value).value;
    assert back == Join(Format(u), parts[1]);
    if back == w {
      ParseFormat(u);
      SplitJoined(Format(u), parts[1]);
    }
    FromE2eiAndBack(ToE2ei(w).value);
  }

  /** The user id of a converted value can always be read, and is the text before the colon. */
  lemma UserIdOfConverted(e: Bytes)
    requires ToWire(e).Some?
    ensures GetUserId(ToWire(e).value) == Some(Split(ToWire(e).value)[0])
  {
    var parts := Split(e);
    var u := Decode(parts[0]).value;
    SplitInTwo(e);
    ParseFormat(u);
    SplitJoined(Format(u), parts[1]);
  }

  /** An id is accepted exactly when it has one colon and the part before it spells 16 bytes. */
  lemma AcceptedIff(b: Bytes)
    ensures ToWire(b).Some? <==>
            exists u: Bytes, rest: Bytes :: |u| == 16 && COLON !in rest && b == Join(Encode(u), rest)
  {
    if ToWire(b).Some? {
      SplitInTwo(b);
      EncodeDecode(Split(b)[0]);
      assert b == Join(Encode(Decode(Split(b)[0]).value), Split(b)[1]);
    }
    if u: Bytes, rest: Bytes :| |u| == 16 && COLON !in rest && b == Join(Encode(u), rest) {
      DecodeEncode(u);
      DecodedHasNoColon(Encode(u));
      SplitJoined(Encode(u), rest);
    }
  }

  // ----- The written forms, spelled out -----

  predicate HexChar(c: byte) {
    '0' as int <= c <= '9' as int || 'a' as int <= c <= 'f' as int || 'A' as int <= c <= 'F' as int
  }

  lemma HexValueIff(c: byte)
    ensures HexValue(c).Some? <==> HexChar(c)
  {
  }

  lemma {:induction false} ParseHexIff(s: Bytes)
    ensures ParseHex(s).Some? <==> |s| % 2 == 0 && forall c :: c in s ==> HexChar(c)
  {
    if |s| >= 2 {
      ParseHexIff(s[2..]);
      assert s == [s[0], s[1]] + s[2..];
      assert s[0] in s && s[1] in s && forall c :: c in s[2..] ==> c in s;
      HexValueIff(s[0]);
      HexValueIff(s[1]);
    } else if |s| == 1 {
      assert s[0] in s;
    }
  }

  /** Thirty-six characters with hyphens in four places and hexadecimal digits elsewhere. */
  ghost predicate HyphenatedDigits(s: Bytes) {
    |s| == 36 && forall i :: 0 <= i < 36 ==>
      if i in {8, 13, 18, 23} then s[i] == '-' as int else HexChar(s[i])
  }

  lemma ParseHyphenatedIff(s: Bytes)
    ensures ParseHyphenated(s).Some? <==> HyphenatedDigits(s)
  {
    if Hyphenated(s) {
      var h := Dehyphenate(s);
      ParseHexIff(h);
      if HyphenatedDigits(s) {
        forall j | 0 <= j < 32 ensures HexChar(h[j]) {
          var i := if j < 8 then j else if j < 12 then j + 1 else if j < 16 then j + 2 else if j < 20 then j + 3
            else j + 4;
          assert h[j] == s[i];
        }
      }
      if ParseHex(h).Some? {
        forall i | 0 <= i < 36 && i !in {8, 13, 18, 23} ensures HexChar(s[i]) {
          var j := if i < 8 then i else if i < 13 then i - 1 else if i < 18 then i - 2 else if i < 23 then i - 3
            else i - 4;
          assert h[j] == s[i] && h[j] in h;
        }
      }
    }
  }

  /**
    A Wire id is accepted for conversion exactly when it has one colon and the text before it is a UUID of thirty-two
    digits, or hyphenated, bare or in braces; the form after `urn:uuid:` has colons of its own and never is.
   */
  lemma AcceptedWireIff(b: Bytes)
    ensures ToE2ei(b).Some? <==>
            exists k :: 0 <= k < |b| && b[k] == ':' as int && AcceptedUser(b[..k]) && ':' as int !in b[k + 1..]
  {
    if ToE2ei(b).Some? {
      SplitInTwo(b);
      var user, rest := Split(b)[0], Split(b)[1];
      AcceptedUserIff(user);
      assert b[..|user|] == user && b[|user| + 1..] == rest && b[|user|] == 58;
    }
    if k :| 0 <= k < |b| && b[k] == ':' as int && AcceptedUser(b[..k]) && ':' as int !in b[k + 1..] {
      AcceptedUserIff(b[..k]);
      SplitJoined(b[..k], b[k + 1..]);
      assert b == Join(b[..k], b[k + 1..]);
    }
  }

  ghost predicate AcceptedUser(user: Bytes) {
    || (|user| == 32 && forall c :: c in user ==> HexChar(c))
    || HyphenatedDigits(user)
    || (|user| == 38 && user[0] == '{' as int && user[37] == '}' as int && HyphenatedDigits(user[1..37]))
  }

  lemma AcceptedUserIff(user: Bytes)
    ensures ParseUuid(user).Some? && ':' as int !in user <==> AcceptedUser(user)
  {
    ParseHexIff(user);
    ParseHyphenatedIff(user);
    if |user| == 38 {
      ParseHyphenatedIff(user[1..37]);
    }
    if |user| == 45 && user[..9] == URN_UUID {
      assert user[3] == user[..9][3] == 58;
    }
    if AcceptedUser(user) {
      NoColonInDigits(user);
    }
  }

  lemma NoColonInDigits(user: Bytes)
    requires AcceptedUser(user)
    ensures ':' as int !in user
  {
    if HyphenatedDigits(user) {
      forall i | 0 <= i < |user| ensures user[i] != ':' as int {}
    } else if |user| == 38 {
      forall i | 0 <= i < |user| ensures user[i] != ':' as int {
        if 0 < i < 37 { assert user[1..37][i - 1] == user[i]; }
      }
    }
  }

  /** What is written is the hyphenated form in lower case. */
  lemma FormatIsHyphenated(u: Bytes)
    requires |u| == 16
    ensures HyphenatedDigits(Format(u))
    ensures forall c :: c in Format(u) ==> !('A' as int <= c <= 'F' as int)
  {
    ParseFormat(u);
    ParseHyphenatedIff(Format(u));
    ParseHexOfHex(u);
    LowerHexIsLower(Hex(u));
    forall c | c in Format(u) ensures !('A' as int <= c <= 'F' as int) {
      var s, h := Format(u), Hex(u);
      assert c in h || c == 45;
    }
  }

  /** Two digits a byte, the high half first. */
  lemma {:induction false} HexAt(b: Bytes, i: nat)
    requires i < |b|
    ensures IsDigit(b[i] / 16, Hex(b)[2 * i]) && IsDigit(b[i] % 16, Hex(b)[2 * i + 1])
  {
    if i > 0 {
      HexAt(b[1..], i - 1);
      assert Hex(b)[2..] == Hex(b[1..]);
      assert Hex(b)[2 * i] == Hex(b)[2..][2 * i - 2] && Hex(b)[2 * i + 1] == Hex(b)[2..][2 * i - 1];
    }
  }

  ghost predicate IsDigit(n: int, c: byte) {
    if n < 10 then c == '0' as int + n else c == 'a' as int + n - 10
  }

  lemma {:induction false} LowerHexIsLower(s: Bytes)
    requires AllLowerHex(s)
    ensures forall c :: c in s ==> !('A' as int <= c <= 'F' as int)
  {
    if s != [] {
      LowerHexIsLower(s[1..]);
      assert s == [s[0]] + s[1..];
    }
  }
}
