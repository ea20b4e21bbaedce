/** Base58 decoding of IPFS content identifiers. Texts are their bytes. */
module Base58 {
  import opened Wrappers
  import opened ByteOrder
  import opened Positional

  /** "123456789" */
  const NUMERALS: seq<nat> := [49, 50, 51, 52, 53, 54, 55, 56, 57]

  /** "ABCDEFGHJKLMNPQRSTUVWXYZ" */
  const CAPITALS: seq<nat> :=
    [65, 66, 67, 68, 69, 70, 71, 72, 74, 75, 76, 77, 78, 80, 81, 82, 83, 84, 85, 86, 87, 88, 89, 90]

  /** "abcdefghijkmnopqrstuvwxyz" */
  const SMALL: seq<nat> :=
    [97, 98, 99, 100, 101, 102, 103, 104, 105, 106, 107, 109, 110, 111, 112, 113, 114, 115, 116, 117, 118, 119, 120, 121, 122]

  const ALPHABET: seq<nat> := NUMERALS + CAPITALS + SMALL

  const ONE: nat := 49

  // ----- the alphabet -----

  lemma AlphabetIs()
    ensures NUMERALS == Ascii("123456789") && CAPITALS == Ascii("ABCDEFGHJKLMNPQRSTUVWXYZ")
    ensures SMALL == Ascii("abcdefghijkmnopqrstuvwxyz") && [ONE] == Ascii("1")
  {}

  /** The digit of a character; 58 for characters outside the alphabet. */
  function Rank(c: nat): (d: nat)
    ensures d <= 58
  {
    if 49 <= c <= 57 then c - 49
    else if 65 <= c <= 72 then c - 56
    else if 74 <= c <= 78 then c - 57
    else if 80 <= c <= 90 then c - 58
    else if 97 <= c <= 107 then c - 64
    else if 109 <= c <= 122 then c - 65
    else 58
  }

  function CharOf(d: nat): nat
    requires d < 58
  {
    if d < 9 then d + 49 else if d < 17 then d + 56 else if d < 22 then d + 57 else if d < 33 then d + 58
    else if d < 44 then d + 64 else d + 65
  }

  lemma RankOfChar(d: nat)
    requires d < 58
    ensures Rank(CharOf(d)) == d && CharOf(d) < 128 && (CharOf(d) == ONE <==> d == 0)
  {}

  lemma CharOfRank(c: nat)
    requires Rank(c) < 58
    ensures CharOf(Rank(c)) == c && c < 128
  {}

  lemma NumeralAt(i: nat)
    requires i < 9
    ensures NUMERALS[i] == CharOf(i)
  {}

  lemma CapitalAt(i: nat)
    requires i < 24
    ensures CAPITALS[i] == CharOf(i + 9)
  {
    if i < 8 {} else if i < 16 {} else {}
  }

  lemma SmallAt(i: nat)
    requires i < 25
    ensures SMALL[i] == CharOf(i + 33)
  {
    if i < 8 {} else if i < 16 {} else {}
  }

  lemma AlphabetAt(i: nat)
    requires i < 58
    ensures |ALPHABET| == 58 && ALPHABET[i] == CharOf(i)
  {
    if i < 9 { NumeralAt(i); } else if i < 33 { CapitalAt(i - 9); } else { SmallAt(i - 33); }
  }

  /** The table the decoder fills from its alphabet. */
  method Table() returns (table: seq<nat>)
    ensures |table| == 128
    ensures forall c :: 0 <= c < 128 ==> table[c] == if Rank(c) < 58 then Rank(c) else 0xff
  {
    hide Rank;
    table := seq(128, _ => 0xff);
    for i := 0 to 58
      invariant |table| == 128
      invariant forall c :: 0 <= c < 128 ==> table[c] == if Rank(c) < i then Rank(c) else 0xff
    {
      AlphabetAt(i);
      RankOfChar(i);
      forall c | 0 <= c < 128 && Rank(c) == i
        ensures c == CharOf(i)
      {
        CharOfRank(c);
      }
      table := table[ALPHABET[i] := i];
    }
  }

  ghost predicate InAlphabet(text: seq<nat>) { forall i :: 0 <= i < |text| ==> Rank(text[i]) < 58 }

  function Ranks(text: seq<nat>): (digits: seq<nat>)
    ensures |digits| == |text|
  {
    seq(|text|, i requires 0 <= i < |text| => Rank(text[i]))
  }

  // ----- shortest digit strings -----

  predicate Canonical(d: seq<nat>, base: nat) {
    d != [] && DigitsBelow(d, base) && (d[0] != 0 || |d| == 1)
  }

  /** The shortest digit string of a number; one zero for zero. */
  function MinDigits(v: nat, base: nat): (d: seq<nat>)
    requires base > 1
    ensures Canonical(d, base) && (v > 0 ==> d[0] != 0)
    decreases v
  {
    Euclid(v, base);
    QuotientSmaller(v, base);
    hide Div, Mod;
    if v < base then [v] else MinDigits(Div(v, base), base) + [Mod(v, base)]
  }

  lemma QuotientSmaller(v: nat, base: nat)
    requires base > 1
    ensures v >= base ==> 0 < Div(v, base) < v
  {
    Euclid(v, base);
    hide Div, Mod;
    if v >= base {
      var q, r := Div(v, base), Mod(v, base);
      MulMono(2, base, q);
    }
  }

  lemma {:induction false} ValueOfMin(v: nat, base: nat)
    requires base > 1
    ensures Value(MinDigits(v, base), base) == v
    decreases v
  {
    if v < base {
      assert [v][..0] == [];
    } else {
      QuotientSmaller(v, base);
      Euclid(v, base);
      hide Div, Mod;
      ValueOfMin(Div(v, base), base);
      ValueSnoc(MinDigits(Div(v, base), base), Mod(v, base), base);
    }
  }

  lemma {:induction false} LeadingDigit(d: seq<nat>, base: nat)
    requires d != [] && d[0] > 0
    ensures Value(d, base) >= Pow(base, |d| - 1)
  {
    if |d| == 1 {
      assert d[..0] == [];
    } else {
      var front := d[..|d| - 1];
      LeadingDigit(front, base);
      MulMono(Pow(base, |front| - 1), Value(front, base), base);
    }
  }

  lemma {:induction false} PowGrows(base: nat, m: nat, n: nat)
    requires base > 0 && m <= n
    ensures Pow(base, m) <= Pow(base, n)
    decreases n
  {
    if m < n {
      PowGrows(base, m, n - 1);
      MulMono(1, base, Pow(base, n - 1));
    }
  }

  /** A shorter canonical string denotes a smaller number. */
  lemma ShorterIsSmaller(a: seq<nat>, b: seq<nat>, base: nat)
    requires base > 1 && Canonical(a, base) && Canonical(b, base) && |a| < |b|
    ensures Value(a, base) < Value(b, base)
  {
    hide Value, Pow;
    ValueBound(a, base);
    LeadingDigit(b, base);
    PowGrows(base, |a|, |b| - 1);
  }

  lemma CanonicalUnique(a: seq<nat>, b: seq<nat>, base: nat)
    requires base > 1 && Canonical(a, base) && Canonical(b, base) && Value(a, base) == Value(b, base)
    ensures a == b
  {
    hide Value, Digits;
    if |a| < |b| {
      ShorterIsSmaller(a, b, base);
    } else if |b| < |a| {
      ShorterIsSmaller(b, a, base);
    } else {
      DigitsOfValue(a, base);
      DigitsOfValue(b, base);
    }
  }

  // ----- the decoder -----

  function Reversed<T>(s: seq<T>): (r: seq<T>)
    ensures |r| == |s| && forall i :: 0 <= i < |s| ==> r[i] == s[|s| - 1 - i]
  {
    seq(|s|, i requires 0 <= i < |s| => s[|s| - 1 - i])
  }

  lemma {:induction false} LeIsReversed(bytes: seq<u8>)
    ensures LeValue(bytes) == Value(Reversed(bytes), 256)
  {
    if bytes != [] {
      LeIsReversed(bytes[1..]);
      assert Reversed(bytes) == Reversed(bytes[1..]) + [bytes[0]];
      ValueSnoc(Reversed(bytes[1..]), bytes[0], 256);
    }
  }

  /** Shortest little-endian form. */
  predicate Trimmed(result: seq<u8>) { result != [] && (result[|result| - 1] != 0 || |result| == 1) }

  lemma {:induction false} LeAppend(a: seq<u8>, b: seq<u8>)
    ensures LeValue(a + b) == LeValue(a) + Power256(|a|) * LeValue(b)
  {
    if a == [] {
      assert a + b == b;
    } else {
      LeAppend(a[1..], b);
      assert (a + b)[1..] == a[1..] + b;
      assert Power256(|a|) * LeValue(b) == 256 * (Power256(|a| - 1) * LeValue(b));
    }
  }

  /** The number held while byte `k` is next: what is done, the carry, and what is left of the old number. */
  function Held(next: seq<u8>, k: nat, carry: nat, result: seq<u8>): nat
    requires k <= |next| == |result|
  {
    LeValue(next[..k]) + Power256(k) * (carry + 58 * LeValue(result[k..]))
  }

  lemma HeldAtStart(digit: nat, result: seq<u8>)
    ensures Held(result, 0, digit, result) == 58 * LeValue(result) + digit
  {
    assert result[0..] == result && result[..0] == [];
  }

  lemma HeldAtEnd(next: seq<u8>, carry: nat, result: seq<u8>)
    requires |next| == |result|
    ensures Held(next, |result|, carry, result) == LeValue(next) + Power256(|next|) * carry
  {
    assert next[..|result|] == next && result[|result|..] == [];
  }

  /** Multiply by 58 and add a digit, byte by byte from the low end, with a carry that never exceeds 57. */
  method MultiplyAdd(result: seq<u8>, digit: nat) returns (next: seq<u8>)
    requires Trimmed(result) && digit < 58
    ensures LeValue(next) == 58 * LeValue(result) + digit && Trimmed(next)
  {
    hide LeValue, Held, Power256;
    next := result;
    var carry: nat := digit;
    HeldAtStart(digit, result);
    for k := 0 to |result|
      invariant |next| == |result| && carry <= 57 && Held(next, k, carry, result) == 58 * LeValue(result) + digit
      invariant k == |result| > 1 ==> carry > 0 || next[k - 1] != 0
    {
      var sum := carry + 58 * (result[k] as int);
      StepHeld(next, k, carry, result, sum % 256, sum / 256);
      next := next[k := sum % 256];
      carry := sum / 256;
    }
    HeldAtEnd(next, carry, result);
    // What is left of the carry fits one byte.
    if carry > 0 {
      LeAppend(next, [carry]);
      OneByte(carry);
      next := next + [carry];
    }
  }

  lemma OneByte(b: u8)
    ensures LeValue([b]) == b
  {
    assert [b][1..] == [];
  }

  lemma StepHeld(next: seq<u8>, k: nat, carry: nat, result: seq<u8>, low: u8, high: nat)
    requires k < |next| == |result| && carry + 58 * (result[k] as int) == 256 * high + low
    ensures Held(next[k := low], k + 1, high, result) == Held(next, k, carry, result)
  {
    var done, rest, p := next[..k], LeValue(result[k + 1..]), Power256(k);
    assert next[k := low][..k + 1] == done + [low];
    assert result[k..][1..] == result[k + 1..];
    LeAppend(done, [low]);
    OneByte(low);
    Rearrange(p, low, high, carry, result[k], rest);
  }

  lemma Rearrange(p: nat, low: nat, high: nat, carry: nat, b: nat, rest: nat)
    requires carry + 58 * b == 256 * high + low
    ensures p * low + 256 * p * (high + 58 * rest) == p * (carry + 58 * (b + 256 * rest))
  {
    assert low + 256 * (high + 58 * rest) == carry + 58 * (b + 256 * rest);
    assert p * low + 256 * p * (high + 58 * rest) == p * (low + 256 * (high + 58 * rest)) by {
      assert 256 * p * (high + 58 * rest) == p * (256 * (high + 58 * rest));
    }
  }

  /** Leading '1' characters. */
  function Ones(text: seq<nat>): (n: nat)
    ensures n <= |text| && (forall i :: 0 <= i < n ==> text[i] == ONE) && (n < |text| ==> text[n] != ONE)
  {
    if text == [] || text[0] != ONE then 0 else 1 + Ones(text[1..])
  }

  function Zeros(n: nat): seq<nat> { seq(n, _ => 0) }

  /** What base58btc_decode returns: a zero for every leading '1', then the number in its shortest form. */
  ghost function Decode(text: seq<nat>): Option<seq<nat>> {
    if !InAlphabet(text) then None else Some(Zeros(Ones(text)) + MinDigits(Value(Ranks(text), 58), 256))
  }

  lemma RanksPrefix(text: seq<nat>, k: nat)
    requires k < |text|
    ensures Ranks(text[..k + 1]) == Ranks(text[..k]) + [Rank(text[k])]
  {}

  lemma TrimmedIsMin(result: seq<u8>, v: nat)
    requires Trimmed(result) && LeValue(result) == v
    ensures Reversed(result) == MinDigits(v, 256)
  {
    LeIsReversed(result);
    ValueOfMin(v, 256);
    CanonicalUnique(Reversed(result), MinDigits(v, 256), 256);
  }

  method Base58btcDecode(text: seq<nat>) returns (out: Option<seq<nat>>)
    ensures out == Decode(text)
  {
    hide LeValue, Value, Rank, MinDigits, Ranks, Ones;
    var table := Table();
    var result: seq<u8> := [0];
    OneByte(0);
    Nothing(text);
    for k := 0 to |text|
      invariant InAlphabet(text[..k]) && Trimmed(result) && LeValue(result) == Value(Ranks(text[..k]), 58)
    {
      var c := text[k];
      if c >= 128 || table[c] == 0xff {
        Outside(text, k);
        return None;
      }
      RanksPrefix(text, k);
      ValueSnoc(Ranks(text[..k]), Rank(c), 58);
      result := MultiplyAdd(result, table[c]);
    }
    assert text[..|text|] == text;
    TrimmedIsMin(result, Value(Ranks(text), 58));
    out := Some(Zeros(Ones(text)) + Reversed(result));
  }

  lemma Nothing(text: seq<nat>)
    ensures InAlphabet(text[..0]) && Value(Ranks(text[..0]), 58) == 0
  {}

  lemma Outside(text: seq<nat>, k: nat)
    requires k < |text| && (text[k] >= 128 || Rank(text[k]) >= 58)
    ensures !InAlphabet(text)
  {
    if Rank(text[k]) < 58 { CharOfRank(text[k]); }
  }

  // ----- theorems -----

  lemma {:induction false} ZerosValue(n: nat, d: seq<nat>, base: nat)
    ensures Value(Zeros(n) + d, base) == Value(d, base)
    decreases |d|, n
  {
    var all := Zeros(n) + d;
    if d != [] {
      assert all[..|all| - 1] == Zeros(n) + d[..|d| - 1];
      ZerosValue(n, d[..|d| - 1], base);
    } else if n > 0 {
      assert all[..n - 1] == Zeros(n - 1) + [];
      ZerosValue(n - 1, [], base);
    }
  }

  /** Decoding keeps the number, leading zeros included. */
  lemma DecodeKeepsValue(text: seq<nat>)
    requires Decode(text).Some?
    ensures Value(Decode(text).value, 256) == Value(Ranks(text), 58)
  {
    hide Value, MinDigits, Ranks, Rank;
    var v := Value(Ranks(text), 58);
    ZerosValue(Ones(text), MinDigits(v, 256), 256);
    ValueOfMin(v, 256);
  }

  /** Base58 as it is usually defined: zero itself takes no byte beyond those of its leading ones. */
  ghost function Standard(text: seq<nat>): Option<seq<nat>> {
    if !InAlphabet(text) then None
    else
      var v := Value(Ranks(text), 58);
      Some(Zeros(Ones(text)) + if v == 0 then [] else MinDigits(v, 256))
  }

  lemma {:induction false} OnesAreZero(text: seq<nat>)
    requires InAlphabet(text)
    ensures Value(Ranks(text), 58) == 0 <==> Ones(text) == |text|
  {
    if Ones(text) == |text| {
      assert Ranks(text) == Zeros(|text|) + [];
      ZerosValue(|text|, [], 58);
    } else {
      var n := Ones(text);
      var rest := Ranks(text)[n..];
      assert Ranks(text) == Zeros(n) + rest;
      ZerosValue(n, rest, 58);
      CharOfRank(text[n]);
      LeadingDigit(rest, 58);
      assert Pow(58, |rest| - 1) > 0;
    }
  }

  /** The decoder agrees with the usual definition exactly on texts that are not all '1'; those come out a zero too long. */
  lemma StandardIff(text: seq<nat>)
    requires InAlphabet(text)
    ensures Decode(text) == Standard(text) <==> Ones(text) < |text|
    ensures Ones(text) == |text| ==> Decode(text) == Some(Zeros(|text| + 1))
  {
    hide Value, Ranks, Rank, Ones;
    OnesAreZero(text);
    if Ones(text) == |text| {
      assert MinDigits(0, 256) == [0];
      assert Zeros(|text|) + [0] == Zeros(|text| + 1);
    }
  }

  /** cid_v0_to_multihash. */
  ghost function Multihash(text: seq<nat>): Option<seq<nat>> {
    match Decode(text)
    case None => None
    case Some(bytes) => if |bytes| != 34 || bytes[0] != 0x12 || bytes[1] != 0x20 then None else Some(bytes)
  }

  method CidV0ToMultihash(text: seq<nat>) returns (out: Option<seq<nat>>)
    ensures out == Multihash(text)
  {
    hide Decode;
    out := Base58btcDecode(text);
    if out.Some? && (|out.value| != 34 || out.value[0] != 0x12 || out.value[1] != 0x20) { out := None; }
  }

  lemma LeadingZero(text: seq<nat>)
    requires InAlphabet(text) && Ones(text) > 0
    ensures Decode(text).Some? && Decode(text).value[0] == 0
  {
    hide MinDigits, Value;
  }

  lemma EmptyText()
    ensures Decode([]) == Some([0])
  {
    assert Ranks([]) == [] && Zeros(0) + [0] == [0];
  }

  lemma AcceptedIsCanonical(text: seq<nat>)
    requires Multihash(text).Some?
    ensures Ones(text) == 0 && Canonical(Ranks(text), 58) && Multihash(text).value == MinDigits(Value(Ranks(text), 58), 256)
  {
    EmptyText();
    if Ones(text) > 0 { LeadingZero(text); }
    hide Value, MinDigits;
    assert Zeros(0) + MinDigits(Value(Ranks(text), 58), 256) == MinDigits(Value(Ranks(text), 58), 256);
    CharOfRank(text[0]);
  }

  /** No two different texts are accepted as the same multihash. */
  lemma MultihashInjective(s: seq<nat>, t: seq<nat>)
    requires Multihash(s).Some? && Multihash(s) == Multihash(t)
    ensures s == t
  {
    hide Value, MinDigits, Decode;
    AcceptedIsCanonical(s);
    AcceptedIsCanonical(t);
    ValueOfMin(Value(Ranks(s), 58), 256);
    ValueOfMin(Value(Ranks(t), 58), 256);
    CanonicalUnique(Ranks(s), Ranks(t), 58);
    forall i | 0 <= i < |s|
      ensures s[i] == t[i]
    {
      assert Ranks(s)[i] == Ranks(t)[i];
      CharOfRank(s[i]);
      CharOfRank(t[i]);
    }
  }

  /** The text of a multihash. */
  function CidOf(bytes: seq<nat>): (text: seq<nat>)
    ensures Ranks(text) == MinDigits(Value(bytes, 256), 58) && InAlphabet(text)
  {
    var digits := MinDigits(Value(bytes, 256), 58);
    assert forall i :: 0 <= i < |digits| ==> Rank(CharOf(digits[i])) == digits[i] by {
      forall i | 0 <= i < |digits|
        ensures Rank(CharOf(digits[i])) == digits[i]
      {
        RankOfChar(digits[i]);
      }
    }
    seq(|digits|, i requires 0 <= i < |digits| => CharOf(digits[i]))
  }

  /** Every sha2-256 multihash has a text that decodes to it. */
  lemma EveryMultihashHasText(bytes: seq<nat>)
    requires |bytes| == 34 && bytes[0] == 0x12 && bytes[1] == 0x20 && DigitsBelow(bytes, 256)
    ensures Multihash(CidOf(bytes)) == Some(bytes)
  {
    hide Value, MinDigits, CidOf, Pow;
    var text, v := CidOf(bytes), Value(bytes, 256);
    LeadingDigit(bytes, 256);
    assert v > 0;
    ValueOfMin(v, 58);
    ValueOfMin(v, 256);
    CanonicalUnique(MinDigits(v, 256), bytes, 256);
    assert Ranks(text)[0] != 0;
    assert Ones(text) == 0;
    assert Zeros(0) + MinDigits(v, 256) == MinDigits(v, 256);
  }
}
