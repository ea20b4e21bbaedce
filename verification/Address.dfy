/** Keryx addresses: a prefix, a colon, base-32 payload and eight checksum characters. Texts are their UTF-8 bytes. */
module Address {
  import ByteOrder
  import opened Positional
  import opened AddressChecksum

  type Bytes = seq<nat>

  const COLON: nat := 58

  /** "qpzry9x8gf2tvdw0s3jn54khce6mua7l" */
  const CHARSET: Bytes := [
    113, 112, 122, 114, 121, 57, 120, 56, 103, 102, 50, 116, 118, 100, 119, 48,
    115, 51, 106, 110, 53, 52, 107, 104, 99, 101, 54, 109, 117, 97, 55, 108]

  // ----- the character table -----

  lemma CharsetIs()
    ensures CHARSET == ByteOrder.Ascii("qpzry9x8gf2tvdw0s3jn54khce6mua7l") && [COLON] == ByteOrder.Ascii(":")
  {}

  function Rank(c: nat): nat {
    match c
    case 113 => 0 case 112 => 1 case 122 => 2 case 114 => 3 case 121 => 4 case 57 => 5 case 120 => 6 case 56 => 7
    case 103 => 8 case 102 => 9 case 50 => 10 case 116 => 11 case 118 => 12 case 100 => 13 case 119 => 14 case 48 => 15
    case 115 => 16 case 51 => 17 case 106 => 18 case 110 => 19 case 53 => 20 case 52 => 21 case 107 => 22 case 104 => 23
    case 99 => 24 case 101 => 25 case 54 => 26 case 109 => 27 case 117 => 28 case 97 => 29 case 55 => 30 case 108 => 31
    case _ => 32
  }

  lemma CharsetRanked()
    ensures |CHARSET| == 32
    ensures forall i :: 0 <= i < 32 ==> CHARSET[i] < 128 && CHARSET[i] != COLON && Rank(CHARSET[i]) == i
  {
    forall i | 0 <= i < 32
      ensures CHARSET[i] < 128 && CHARSET[i] != COLON && Rank(CHARSET[i]) == i
    {
      if i < 8 { RanksTo8(i); } else if i < 16 { RanksTo16(i); } else if i < 24 { RanksTo24(i); } else { RanksTo32(i); }
    }
  }

  lemma RanksTo8(i: nat)
    requires i < 8
    ensures CHARSET[i] < 128 && CHARSET[i] != COLON && Rank(CHARSET[i]) == i
  {}

  lemma RanksTo16(i: nat)
    requires 8 <= i < 16
    ensures CHARSET[i] < 128 && CHARSET[i] != COLON && Rank(CHARSET[i]) == i
  {}

  lemma RanksTo24(i: nat)
    requires 16 <= i < 24
    ensures CHARSET[i] < 128 && CHARSET[i] != COLON && Rank(CHARSET[i]) == i
  {}

  lemma RanksTo32(i: nat)
    requires 24 <= i < 32
    ensures CHARSET[i] < 128 && CHARSET[i] != COLON && Rank(CHARSET[i]) == i
  {}

  function Print(groups: seq<nat>): (text: Bytes)
    requires DigitsBelow(groups, 32)
    ensures |text| == |groups|
  {
    seq(|groups|, i requires 0 <= i < |groups| => CHARSET[groups[i]])
  }

  /** The groups that print as `text`, when every character is in the charset. */
  predicate Spells(text: Bytes, groups: seq<nat>) {
    |groups| == |text| && DigitsBelow(groups, 32) && Print(groups) == text
  }

  ghost predicate InCharset(text: Bytes) {
    forall i :: 0 <= i < |text| ==> text[i] in CHARSET
  }

  function Ranks(text: Bytes): (groups: seq<nat>)
    ensures |groups| == |text|
  {
    seq(|text|, i requires 0 <= i < |text| => Rank(text[i]))
  }

  lemma RanksSpell(text: Bytes)
    requires InCharset(text)
    ensures Spells(text, Ranks(text))
  {
    CharsetRanked();
  }

  lemma PrintSpells(groups: seq<nat>)
    requires DigitsBelow(groups, 32)
    ensures InCharset(Print(groups)) && Ranks(Print(groups)) == groups && COLON !in Print(groups)
  {
    CharsetRanked();
  }

  // ----- regrouping bits -----

  /** Eight-bit digits to five-bit digits, the last one padded with zero bits. */
  method ToGroups(bytes: Bytes) returns (groups: seq<nat>)
    requires DigitsBelow(bytes, 256)
    ensures var pad := (5 - 8 * |bytes| % 5) % 5;
            groups == Digits(Value(bytes, 256) * Pow(2, pad), 32, (8 * |bytes| + pad) / 5)
  {
    hide Holds, Value, Pow, Mod, Div, Digits, ShiftIn;
    SmallPowers();
    groups := [];
    var acc: nat, bits: nat := 0, 0;
    Nothing();
    for i := 0 to |bytes|
      invariant bits < 5 && 5 * |groups| + bits == 8 * i && DigitsBelow(groups, 32)
      invariant Holds(Value(bytes[..i], 256), Value(groups, 32), bits, acc)
    {
      assert bytes[..i + 1] == bytes[..i] + [bytes[i]];
      ValueSnoc(bytes[..i], bytes[i], 256);
      HoldsIn(Value(bytes[..i], 256), Value(groups, 32), bits, acc, 8, bytes[i]);
      acc := ShiftIn(acc, 8, bytes[i]);
      bits := bits + 8;
      while bits >= 5
        invariant 5 * |groups| + bits == 8 * (i + 1) && DigitsBelow(groups, 32)
        invariant Holds(Value(bytes[..i + 1], 256), Value(groups, 32), bits, acc)
      {
        HoldsOut(Value(bytes[..i + 1], 256), Value(groups, 32), bits - 5, acc, 5);
        bits := bits - 5;
        var g := Mod(Div(acc, Pow(2, bits)), 32);
        ValueSnoc(groups, g, 32);
        groups := groups + [g];
      }
    }
    assert bytes[..|bytes|] == bytes;
    PadIs(|bytes|, |groups|, bits);
    if bits > 0 {
      var last := Mod(Mod(acc * Pow(2, 5 - bits), U32), 32);
      HoldsPadded(Value(bytes, 256), Value(groups, 32), bits, acc, 5 - bits);
      ValueSnoc(groups, last, 32);
      groups := groups + [last];
    } else {
      HoldsWhole(Value(bytes, 256), Value(groups, 32), acc);
    }
    DigitsOfValue(groups, 32);
  }

  lemma PadIs(n: nat, len: nat, bits: nat)
    requires 5 * len + bits == 8 * n && bits < 5
    ensures var pad := (5 - 8 * n % 5) % 5;
            if bits == 0 then pad == 0 && (8 * n + pad) / 5 == len else pad == 5 - bits && (8 * n + pad) / 5 == len + 1
  {
    var x := 8 * n;
    assert x % 5 == bits by { assert x == 5 * len + bits; }
  }

  lemma Nothing()
    ensures Holds(Value([], 256), Value([], 32), 0, 0)
    ensures Holds(Value([], 32), Value([], 256), 0, 0)
  {}

  lemma HoldsWhole(value: nat, v: nat, reg: nat)
    requires Holds(value, v, 0, reg)
    ensures value * Pow(2, 0) == v
  {}

  /** Five-bit digits to eight-bit digits; the bits left over are dropped. */
  method ToBytes(groups: seq<nat>) returns (bytes: Bytes)
    requires DigitsBelow(groups, 32)
    ensures bytes == Decoding(groups)
  {
    hide Holds, Value, Pow, Mod, Div, Digits, ShiftIn;
    SmallPowers();
    bytes := [];
    var buf: nat, bits: nat := 0, 0;
    Nothing();
    for i := 0 to |groups|
      invariant bits < 8 && 8 * |bytes| + bits == 5 * i && DigitsBelow(bytes, 256)
      invariant Holds(Value(groups[..i], 32), Value(bytes, 256), bits, buf)
    {
      assert groups[..i + 1] == groups[..i] + [groups[i]];
      ValueSnoc(groups[..i], groups[i], 32);
      HoldsIn(Value(groups[..i], 32), Value(bytes, 256), bits, buf, 5, groups[i]);
      buf := ShiftIn(buf, 5, groups[i]);
      bits := bits + 5;
      if bits >= 8 {
        HoldsOut(Value(groups[..i + 1], 32), Value(bytes, 256), bits - 8, buf, 8);
        bits := bits - 8;
        var b := Mod(Div(buf, Pow(2, bits)), 256);
        ValueSnoc(bytes, b, 256);
        bytes := bytes + [b];
      }
    }
    assert groups[..|groups|] == groups;
    HoldsQuotient(Value(groups, 32), Value(bytes, 256), bits, buf);
    DigitsOfValue(bytes, 256);
  }

  /** The whole bytes in a string of five-bit groups. */
  function Decoding(groups: seq<nat>): Bytes {
    Digits(Div(Value(groups, 32), Pow(2, 5 * |groups| % 8)), 256, 5 * |groups| / 8)
  }

  /** The 53 groups of a version byte and a 32-byte key: 264 bits and one zero. */
  function Payload(key: Bytes): (groups: seq<nat>)
    requires |key| == 32
    ensures |groups| == 53 && DigitsBelow(groups, 32)
  {
    Digits(Value([0] + key, 256) * 2, 32, 53)
  }

  lemma PayloadValue(key: Bytes)
    requires |key| == 32 && DigitsBelow(key, 256)
    ensures Value(Payload(key), 32) == Value([0] + key, 256) * 2
  {
    hide Value, Digits, Pow;
    ValueBound([0] + key, 256);
    PowersAgree();
    ValueOfDigits(Value([0] + key, 256) * 2, 32, 53);
  }

  lemma {:induction false} PowPow(b: nat, m: nat, n: nat)
    ensures Pow(Pow(b, m), n) == Pow(b, m * n)
  {
    if n > 0 {
      PowPow(b, m, n - 1);
      PowAdd(b, m, m * (n - 1));
      assert m * n == m + m * (n - 1);
    } else {
      assert m * n == 0;
    }
  }

  lemma PowersAgree()
    ensures Pow(256, 33) * 2 == Pow(32, 53)
  {
    hide Pow;
    SmallPowers();
    PowPow(2, 8, 33);
    PowPow(2, 5, 53);
    PowAdd(2, 264, 1);
  }

  lemma Halve(v: nat)
    ensures Div(v * 2, 2) == v
  {}

  /** Regrouping to five bits and back is the identity. */
  lemma PayloadRoundTrip(key: Bytes)
    requires |key| == 32 && DigitsBelow(key, 256)
    ensures Decoding(Payload(key)) == [0] + key
  {
    hide Value, Digits, Pow, Div, Payload;
    SmallPowers();
    PayloadValue(key);
    Halve(Value([0] + key, 256));
    DigitsOfValue([0] + key, 256);
  }

  lemma EvenValue(groups: seq<nat>)
    requires groups != [] && groups[|groups| - 1] % 2 == 0
    ensures Value(groups, 32) == Div(Value(groups, 32), 2) * 2
  {}

  lemma PayloadEven(key: Bytes)
    requires |key| == 32 && DigitsBelow(key, 256)
    ensures Payload(key)[52] % 2 == 0
  {
    hide Payload;
    PayloadValue(key);
    var groups := Payload(key);
    assert Value(groups, 32) == Value(groups[..52], 32) * 32 + groups[52];
  }

  /** The payloads of keys are exactly the 53-group strings with version 0 and a zero padding bit. */
  lemma PayloadsAre(groups: seq<nat>)
    requires DigitsBelow(groups, 32) && |groups| == 53 && Decoding(groups)[0] == 0 && groups[52] % 2 == 0
    ensures groups == Payload(Decoding(groups)[1..])
  {
    EvenValue(groups);
    hide Value, Digits, Pow, Div;
    var bytes := Decoding(groups);
    assert bytes == [0] + bytes[1..];
    DecodedValue(groups);
    DigitsOfValue(groups, 32);
  }

  lemma DecodedValue(groups: seq<nat>)
    requires DigitsBelow(groups, 32) && |groups| == 53 && Value(groups, 32) == Div(Value(groups, 32), 2) * 2
    ensures Value(Decoding(groups), 256) * 2 == Value(groups, 32)
  {
    hide Value, Digits, Pow, Div;
    SmallPowers();
    ValueBound(groups, 32);
    PowersAgree();
    ValueOfDigits(Div(Value(groups, 32), 2), 256, 33);
  }

  // ----- encoding -----

  /** encode_address. */
  function Encode(prefix: Bytes, key: Bytes): Bytes
    requires |key| == 32
  {
    prefix + [COLON] + Print(Payload(key)) + Print(ChecksumGroups(prefix, Payload(key)))
  }

  method EncodeAddress(prefix: Bytes, key: Bytes) returns (text: Bytes)
    requires |key| == 32 && DigitsBelow(key, 256)
    ensures text == Encode(prefix, key)
  {
    hide Value, Digits, Pow, Print, Polymod, Words, PrefixValues, Unpacked;
    SmallPowers();
    var groups := ToGroups([0] + key);
    var values := PrefixValues(prefix) + [0] + Words(groups) + ZEROS;
    var checksum := AddressPolymod(values);
    text := prefix + [COLON] + Print(groups) + Print(Unpacked(checksum));
  }

  // ----- decoding -----

  datatype Decoded = Ok(version: nat, key: Bytes) | MissingColon | TooShort | OffBoundary | BadCharacter | TooFewBytes

  function Find(text: Bytes, c: nat): (i: nat)
    ensures i <= |text| && c !in text[..i] && (i < |text| ==> text[i] == c)
  {
    if text == [] || text[0] == c then 0 else
      var i := 1 + Find(text[1..], c);
      assert text[..i] == [text[0]] + text[1..][..i - 1];
      i
  }

  /** decode_address; `OffBoundary` is the panic when the last eight bytes start inside a character. */
  ghost function Decode(text: Bytes): Decoded {
    var colon := Find(text, COLON);
    if colon == |text| then MissingColon else DecodeData(text[colon + 1..])
  }

  ghost function DecodeData(data: Bytes): Decoded {
    if |data| < 9 then TooShort
    else if 0x80 <= data[|data| - 8] < 0xc0 then OffBoundary
    else if !InCharset(data[..|data| - 8]) then BadCharacter
    else DecodeBytes(Decoding(Ranks(data[..|data| - 8])))
  }

  function DecodeBytes(bytes: Bytes): Decoded {
    if |bytes| < 33 then TooFewBytes else Ok(bytes[0], bytes[1..33])
  }

  /** The reverse table the decoder builds. */
  method ReverseTable() returns (rev: seq<nat>)
    ensures |rev| == 128
    ensures forall c :: 0 <= c < 128 ==> rev[c] == if c in CHARSET then Rank(c) else 0xff
  {
    CharsetRanked();
    rev := seq(128, _ => 0xff);
    for i := 0 to |CHARSET|
      invariant |rev| == 128
      invariant forall c :: 0 <= c < 128 ==> rev[c] == if c in CHARSET[..i] then Rank(c) else 0xff
    {
      rev := rev[CHARSET[i] := i];
    }
    assert CHARSET[..|CHARSET|] == CHARSET;
  }

  method DecodeAddress(text: Bytes) returns (r: Decoded)
    ensures r == Decode(text)
  {
    hide Decoding, InCharset, Ranks;
    var colon := Find(text, COLON);
    if colon == |text| { return MissingColon; }
    var data := text[colon + 1..];
    if |data| < 9 { return TooShort; }
    if 0x80 <= data[|data| - 8] < 0xc0 { return OffBoundary; }
    var body := data[..|data| - 8];
    var groups := ReadGroups(body);
    if |groups| < |body| { return BadCharacter; }
    assert groups == Ranks(body);
    RanksSpell(body);
    var bytes := ToBytes(groups);
    r := DecodeBytes(bytes);
  }

  /** The groups up to the first character outside the charset. */
  method ReadGroups(body: Bytes) returns (groups: seq<nat>)
    ensures |groups| <= |body| && groups == Ranks(body)[..|groups|]
    ensures |groups| == |body| <==> InCharset(body)
  {
    hide Rank, Ranks, InCharset, CHARSET;
    var rev := ReverseTable();
    groups := [];
    NoGroups(body);
    for i := 0 to |body|
      invariant |groups| == i && groups == Ranks(body)[..i] && InCharset(body[..i])
    {
      var c := body[i];
      CharsetChar(c);
      if c >= 128 || rev[c] == 0xff {
        NotInCharset(body, i);
        return;
      }
      NextGroup(body, i);
      groups := groups + [rev[c]];
    }
    assert body[..|body|] == body;
  }

  lemma CharsetChar(c: nat)
    ensures c in CHARSET ==> c < 128 && Rank(c) < 32
  {
    CharsetRanked();
  }

  lemma NoGroups(body: Bytes)
    ensures Ranks(body)[..0] == [] && InCharset(body[..0])
  {}

  lemma NotInCharset(body: Bytes, i: nat)
    requires i < |body| && body[i] !in CHARSET
    ensures !InCharset(body)
  {}

  lemma NextGroup(body: Bytes, i: nat)
    requires i < |body| && InCharset(body[..i]) && body[i] in CHARSET
    ensures InCharset(body[..i + 1]) && Ranks(body)[..i + 1] == Ranks(body)[..i] + [Rank(body[i])]
  {
    hide Rank, CHARSET;
    assert forall k :: 0 <= k < i ==> body[..i][k] == body[k];
  }

  // ----- the codec -----

  lemma FindIs(prefix: Bytes, rest: Bytes)
    requires COLON !in prefix
    ensures Find(prefix + [COLON] + rest, COLON) == |prefix|
  {
    var text := prefix + [COLON] + rest;
    var i := Find(text, COLON);
    assert text[|prefix|] == COLON;
    assert text[..|prefix|] == prefix;
    assert forall k :: 0 <= k < |prefix| ==> text[k] == prefix[k];
    assert forall k :: 0 <= k < i ==> text[k] in text[..i];
  }

  lemma DecodeSplit(prefix: Bytes, data: Bytes)
    requires COLON !in prefix
    ensures Decode(prefix + [COLON] + data) == DecodeData(data)
  {
    hide DecodeData;
    FindIs(prefix, data);
    assert (prefix + [COLON] + data)[|prefix| + 1..] == data;
  }

  lemma PrintedData(groups: seq<nat>, checksum: seq<nat>)
    requires DigitsBelow(groups, 32) && DigitsBelow(checksum, 32) && |checksum| == 8 && groups != []
    ensures DecodeData(Print(groups) + Print(checksum)) == DecodeBytes(Decoding(groups))
  {
    hide Decoding;
    var data := Print(groups) + Print(checksum);
    CharsetRanked();
    assert data[|data| - 8] == Print(checksum)[0];
    assert data[..|data| - 8] == Print(groups);
    PrintSpells(groups);
  }

  lemma ColonInData(data: Bytes, i: nat)
    requires |data| >= 9 && i < |data| - 8 && data[i] == COLON && data[|data| - 8] < 0x80
    ensures DecodeData(data) == BadCharacter
  {
    CharsetRanked();
    assert data[..|data| - 8][i] == COLON;
  }

  /**
   Decoding the address of a key gives back version 0 and the key exactly when the prefix holds no colon;
   otherwise the decoder refuses it.
   */
  lemma RoundTrip(prefix: Bytes, key: Bytes)
    requires |key| == 32 && DigitsBelow(key, 256)
    ensures COLON !in prefix ==> Decode(Encode(prefix, key)) == Ok(0, key)
    ensures COLON in prefix ==> Decode(Encode(prefix, key)) == BadCharacter
  {
    hide Payload, Decoding, Print, DecodeData, Decode, ChecksumGroups;
    var groups := Payload(key);
    var checksum := ChecksumGroups(prefix, groups);
    var printed := Print(groups) + Print(checksum);
    assert Encode(prefix, key) == prefix + [COLON] + printed;
    if COLON !in prefix {
      DecodeSplit(prefix, printed);
      PrintedData(groups, checksum);
      PayloadRoundTrip(key);
    } else {
      ColonRefused(prefix, groups, checksum);
    }
  }

  lemma ColonRefused(prefix: Bytes, groups: seq<nat>, checksum: seq<nat>)
    requires COLON in prefix && DigitsBelow(groups, 32) && DigitsBelow(checksum, 32) && |checksum| == 8
    ensures Decode(prefix + [COLON] + (Print(groups) + Print(checksum))) == BadCharacter
  {
    hide DecodeData, Decode;
    var first := Find(prefix, COLON);
    var data := prefix[first + 1..] + [COLON] + (Print(groups) + Print(checksum));
    assert prefix == prefix[..first] + [COLON] + prefix[first + 1..];
    assert prefix + [COLON] + (Print(groups) + Print(checksum)) == prefix[..first] + [COLON] + data;
    DecodeSplit(prefix[..first], data);
    CharsetRanked();
    assert data[|data| - 8] == Print(checksum)[0];
    ColonInData(data, |prefix| - first - 1);
  }

  lemma EncodeInjective(prefix: Bytes, a: Bytes, b: Bytes)
    requires |a| == 32 && DigitsBelow(a, 256) && |b| == 32 && DigitsBelow(b, 256)
    requires Encode(prefix, a) == Encode(prefix, b)
    ensures a == b
  {
    hide Payload, Print, ChecksumGroups, Decoding;
    EncodedParts(prefix, a);
    EncodedParts(prefix, b);
    PayloadRoundTrip(a);
    PayloadRoundTrip(b);
    assert a == ([0] + a)[1..] && b == ([0] + b)[1..];
  }

  lemma EncodedParts(prefix: Bytes, key: Bytes)
    requires |key| == 32
    ensures var text, n := Encode(prefix, key), |prefix| + 1;
            && |text| == n + 61 && text[..|prefix|] == prefix && text[|prefix|] == COLON
            && Ranks(text[n..n + 53]) == Payload(key) && InCharset(text[n + 53..])
            && Ranks(text[n + 53..]) == ChecksumGroups(prefix, Payload(key))
  {
    hide Payload, ChecksumGroups;
    var text, n := Encode(prefix, key), |prefix| + 1;
    assert text[n..n + 53] == Print(Payload(key));
    assert text[n + 53..] == Print(ChecksumGroups(prefix, Payload(key)));
    PrintSpells(Payload(key));
    PrintSpells(ChecksumGroups(prefix, Payload(key)));
  }

  /** Exactly which texts decode: a colon, then at least 53 charset characters, then eight bytes. */
  lemma DecodesIff(prefix: Bytes, data: Bytes)
    requires COLON !in prefix
    ensures Decode(prefix + [COLON] + data).Ok? <==>
              |data| >= 53 + 8 && !(0x80 <= data[|data| - 8] < 0xc0) && InCharset(data[..|data| - 8])
  {
    hide Decode, DecodeData, InCharset;
    DecodeSplit(prefix, data);
    DataAcceptedIff(data);
  }

  lemma NoColonNoAddress(text: Bytes)
    requires COLON !in text
    ensures Decode(text) == MissingColon
  {
    hide DecodeData;
    assert forall k :: 0 <= k < |text| ==> text[k] in text;
  }

  lemma DataAcceptedIff(data: Bytes)
    ensures DecodeData(data).Ok? <==>
              |data| >= 53 + 8 && !(0x80 <= data[|data| - 8] < 0xc0) && InCharset(data[..|data| - 8])
  {
    hide InCharset, Decoding;
    if |data| >= 9 { DecodingLength(Ranks(data[..|data| - 8])); }
  }

  lemma DecodingLength(groups: seq<nat>)
    ensures |Decoding(groups)| == 5 * |groups| / 8
  {}

  /** The decoder reads nothing of the last eight characters. */
  lemma ChecksumNotRead(prefix: Bytes, body: Bytes, a: Bytes, b: Bytes)
    requires |a| == 8 && |b| == 8 && DigitsBelow(a, 128) && DigitsBelow(b, 128) && COLON !in prefix
    ensures Decode(prefix + [COLON] + (body + a)) == Decode(prefix + [COLON] + (body + b))
  {
    hide Decode, InCharset, Decoding, Ranks;
    DecodeSplit(prefix, body + a);
    DecodeSplit(prefix, body + b);
    assert (body + a)[..|body|] == body && (body + b)[..|body|] == body;
    assert (body + a)[|body|] == a[0] && (body + b)[|body|] == b[0];
  }

  /** What makes the text of a key's address: version 0, 53 groups, a zero padding bit and a checksum that verifies. */
  ghost predicate Canonical(prefix: Bytes, body: Bytes, tail: Bytes) {
    && |body| == 53 && Decoding(Ranks(body))[0] == 0 && Ranks(body)[52] % 2 == 0
    && InCharset(tail) && Verifies(prefix, Ranks(body) + Ranks(tail))
  }

  /** Re-encoding a decoded address reproduces it exactly when it is canonical. */
  lemma DecodeEncodes(prefix: Bytes, body: Bytes, tail: Bytes)
    requires COLON !in prefix && |tail| == 8 && Decode(prefix + [COLON] + (body + tail)).Ok?
    ensures var text := prefix + [COLON] + (body + tail);
            Encode(prefix, Decode(text).key) == text <==> Canonical(prefix, body, tail)
  {
    hide Canonical, DecodeData, Decode, Encode, Decoding;
    DecodeSplit(prefix, body + tail);
    AcceptedData(body, tail);
    var bytes := Decoding(Ranks(body));
    var text, key := prefix + [COLON] + (body + tail), bytes[1..33];
    if Encode(prefix, key) == text { ReencodedIsCanonical(prefix, body, tail, key); }
    if Canonical(prefix, body, tail) { CanonicalReencodes(prefix, body, tail); }
  }

  lemma AcceptedData(body: Bytes, tail: Bytes)
    requires |tail| == 8 && DecodeData(body + tail).Ok?
    ensures InCharset(body) && DigitsBelow(Ranks(body), 32)
    ensures var bytes := Decoding(Ranks(body));
            |bytes| >= 33 && DigitsBelow(bytes, 256) && DecodeData(body + tail) == Ok(bytes[0], bytes[1..33])
  {
    assert (body + tail)[..|body|] == body;
    hide Digits, Value, Div, Pow;
    RanksSpell(body);
  }

  lemma ReencodedIsCanonical(prefix: Bytes, body: Bytes, tail: Bytes, key: Bytes)
    requires |key| == 32 && DigitsBelow(key, 256) && |tail| == 8 && Encode(prefix, key) == prefix + [COLON] + (body + tail)
    ensures Canonical(prefix, body, tail)
  {
    hide Encode, Payload, Decoding, Verifies, ChecksumGroups, Ranks, InCharset;
    EncodedParts(prefix, key);
    var text, n := Encode(prefix, key), |prefix| + 1;
    assert text[n..n + 53] == body && text[n + 53..] == tail;
    PayloadRoundTrip(key);
    PayloadEven(key);
    ChecksumVerifies(prefix, Payload(key));
  }

  lemma SpelledBack(text: Bytes)
    requires InCharset(text)
    ensures DigitsBelow(Ranks(text), 32) && Print(Ranks(text)) == text
  {
    RanksSpell(text);
  }

  lemma CanonicalParts(prefix: Bytes, body: Bytes, tail: Bytes)
    requires |tail| == 8 && InCharset(body) && Canonical(prefix, body, tail)
    ensures |Ranks(body)| == 53 && |Decoding(Ranks(body))| == 33
    ensures Decoding(Ranks(body))[0] == 0 && Ranks(body)[52] % 2 == 0
    ensures |Ranks(tail)| == 8 && InCharset(tail) && Verifies(prefix, Ranks(body) + Ranks(tail))
  {}

  lemma EncodeIs(prefix: Bytes, key: Bytes)
    requires |key| == 32
    ensures Encode(prefix, key) == prefix + [COLON] + (Print(Payload(key)) + Print(ChecksumGroups(prefix, Payload(key))))
  {}

  lemma CanonicalReencodes(prefix: Bytes, body: Bytes, tail: Bytes)
    requires |tail| == 8 && InCharset(body) && Canonical(prefix, body, tail)
    ensures |Decoding(Ranks(body))| == 33
    ensures Encode(prefix, Decoding(Ranks(body))[1..33]) == prefix + [COLON] + (body + tail)
  {
    hide *;
    CanonicalParts(prefix, body, tail);
    SpelledBack(body);
    SpelledBack(tail);
    PayloadsAre(Ranks(body));
    ChecksumUnique(prefix, Ranks(body), Ranks(tail));
    assert Decoding(Ranks(body))[1..33] == Decoding(Ranks(body))[1..];
    EncodeIs(prefix, Decoding(Ranks(body))[1..33]);
  }
}
