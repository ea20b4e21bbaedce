/** The address checksum: a 40-bit linear code over five-bit digits. */
module AddressChecksum {
  import opened Positional

  const GENERATORS: seq<bv64> := [0x98f2bc8e61, 0x79b76d99e2, 0xf33e5fb3c4, 0xae2eabe2a8, 0x1e4f43e470]

  // ----- words -----

  function Xor(a: bv64, b: bv64): bv64 { a ^ b }

  function Shl5(a: bv64): bv64 { a << 5 }

  function Top(c: bv64): bv64 { c >> 35 }

  /** `(c & 0x7ffffffff) << 5`. */
  function Shifted(c: bv64): bv64 { (c & 0x07_ffff_ffff) << 5 }

  lemma XorAssoc(a: bv64, b: bv64, c: bv64)
    ensures Xor(Xor(a, b), c) == Xor(a, Xor(b, c))
  {}

  lemma XorComm(a: bv64, b: bv64)
    ensures Xor(a, b) == Xor(b, a)
  {}

  lemma XorZero(a: bv64)
    ensures Xor(a, 0) == a
  {}

  lemma XorSame(a: bv64, b: bv64)
    ensures Xor(a, b) == 0 <==> a == b
  {}

  // ----- the code -----

  function Bit(i: nat): bv64
    requires i < 5
  {
    if i == 0 then 1 else if i == 1 then 2 else if i == 2 then 4 else if i == 3 then 8 else 16
  }

  /** The generators selected by the low `n` bits of `top`. */
  function Taps(top: bv64, n: nat): (taps: bv64)
    requires n <= 5
    ensures taps < 0x100_0000_0000
    decreases n
  {
    if n == 0 then 0 else XorBound(Taps(top, n - 1), Tap(top, n - 1)); Xor(Taps(top, n - 1), Tap(top, n - 1))
  }

  function Tap(top: bv64, i: nat): (g: bv64)
    requires i < 5
    ensures g < 0x100_0000_0000
  {
    if Selected(top, i) then GENERATORS[i] else 0
  }

  predicate Selected(top: bv64, i: nat)
    requires i < 5
  {
    top & Bit(i) != 0
  }

  lemma XorBound(a: bv64, b: bv64)
    requires a < 0x100_0000_0000 && b < 0x100_0000_0000
    ensures Xor(a, b) < 0x100_0000_0000
  {}

  function Step(c: bv64, d: bv64): bv64 {
    Xor(Xor(Shifted(c), d), Taps(Top(c), 5))
  }

  function Fold(c: bv64, values: seq<bv64>): bv64 {
    if values == [] then c else Step(Fold(c, values[..|values| - 1]), values[|values| - 1])
  }

  /** address_polymod. */
  function Polymod(values: seq<bv64>): bv64 { Xor(Fold(1, values), 1) }

  method AddressPolymod(values: seq<bv64>) returns (c: bv64)
    ensures c == Polymod(values)
  {
    hide Step;
    c := 1;
    for k := 0 to |values|
      invariant c == Fold(1, values[..k])
    {
      assert values[..k + 1][..k] == values[..k];
      c := PolymodStep(c, values[k]);
    }
    assert values[..|values|] == values;
    c := Xor(c, 1);
  }

  method PolymodStep(start: bv64, d: bv64) returns (c: bv64)
    ensures c == Step(start, d)
  {
    hide Shifted, Selected, Xor, Top;
    var top := Top(start);
    var shifted := Xor(Shifted(start), d);
    c := shifted;
    XorZero(shifted);
    for i := 0 to 5
      invariant c == Xor(shifted, Taps(top, i))
    {
      XorAssoc(shifted, Taps(top, i), Tap(top, i));
      XorZero(c);
      if Selected(top, i) { c := Xor(c, GENERATORS[i]); }
    }
  }

  // ----- digits and words -----

  /** A five-bit digit as a machine word. */
  function Word(d: nat): bv64 {
    (if d % 2 == 1 then 1 else 0) | (if d / 2 % 2 == 1 then 2 else 0) | (if d / 4 % 2 == 1 then 4 else 0)
    | (if d / 8 % 2 == 1 then 8 else 0) | (if d / 16 % 2 == 1 then 16 else 0)
  }

  /** The five low bits of a machine word as a digit. */
  function Low5(w: bv64): (d: nat)
    ensures d < 32
  {
    (if w & 1 != 0 then 1 else 0) + (if w & 2 != 0 then 2 else 0) + (if w & 4 != 0 then 4 else 0)
    + (if w & 8 != 0 then 8 else 0) + (if w & 16 != 0 then 16 else 0)
  }

  lemma WordOfLow5(w: bv64)
    ensures Word(Low5(w)) == w & 0x1f
  {
    var d := Low5(w);
    assert (d % 2 == 1) == (w & 1 != 0) && (d / 2 % 2 == 1) == (w & 2 != 0) && (d / 4 % 2 == 1) == (w & 4 != 0);
    assert (d / 8 % 2 == 1) == (w & 8 != 0) && (d / 16 % 2 == 1) == (w & 16 != 0);
    Bits5(w);
  }

  lemma Bits5(w: bv64)
    ensures w & 0x1f == (if w & 1 != 0 then 1 else 0) | (if w & 2 != 0 then 2 else 0) | (if w & 4 != 0 then 4 else 0)
                        | (if w & 8 != 0 then 8 else 0) | (if w & 16 != 0 then 16 else 0)
  {}

  lemma WordBound(d: nat)
    ensures Word(d) < 32
  {}

  lemma Low5OfWord(d: nat)
    requires d < 32
    ensures Low5(Word(d)) == d
  {}

  function Words(groups: seq<nat>): (ws: seq<bv64>)
    ensures |ws| == |groups|
  {
    seq(|groups|, i requires 0 <= i < |groups| => Word(groups[i]))
  }

  /** The prefix takes part with the low five bits of each byte. */
  function PrefixValues(prefix: seq<nat>): (ws: seq<bv64>)
    ensures |ws| == |prefix|
  {
    seq(|prefix|, i requires 0 <= i < |prefix| => Word(prefix[i] % 32))
  }

  const ZEROS: seq<bv64> := [0, 0, 0, 0, 0, 0, 0, 0]

  /** The eight printed checksum groups, most significant first. */
  function Unpacked(c: bv64): (groups: seq<nat>)
    ensures |groups| == 8 && DigitsBelow(groups, 32)
  {
    seq(8, i requires 0 <= i < 8 => Low5(DownTo(c, i)))
  }

  /** `c >> 5 * (7 - i)`. */
  function DownTo(c: bv64, i: nat): bv64
    requires i < 8
  {
    if i == 0 then c >> 35 else if i == 1 then c >> 30 else if i == 2 then c >> 25 else if i == 3 then c >> 20
    else if i == 4 then c >> 15 else if i == 5 then c >> 10 else if i == 6 then c >> 5 else c
  }

  function DigitAt(c: bv64, i: nat): bv64
    requires i < 8
  {
    DownTo(c, i) & 0x1f
  }

  function ChecksumGroups(prefix: seq<nat>, payload: seq<nat>): (groups: seq<nat>)
    ensures |groups| == 8 && DigitsBelow(groups, 32)
  {
    Unpacked(Polymod(PrefixValues(prefix) + [0] + Words(payload) + ZEROS))
  }

  /** What a reader checks: the polymod over prefix, separator, payload and checksum is zero. */
  predicate Verifies(prefix: seq<nat>, groups: seq<nat>) {
    Polymod(PrefixValues(prefix) + [0] + Words(groups)) == 0
  }

  // ----- linearity -----

  lemma LowBitsPass(a: bv64, t: bv64)
    requires t < 0x8_0000_0000
    ensures Top(Xor(a, t)) == Top(a) && Shifted(Xor(a, t)) == Xor(Shifted(a), Shl5(t))
  {}

  lemma XorShuffle(s: bv64, t: bv64, d: bv64, taps: bv64)
    ensures Xor(Xor(Xor(s, t), d), taps) == Xor(Xor(Xor(s, 0), taps), Xor(t, d))
  {
    hide Xor;
    XorZero(s);
    XorAssoc(s, t, d);
    XorAssoc(s, Xor(t, d), taps);
    XorComm(Xor(t, d), taps);
    XorAssoc(s, taps, Xor(t, d));
  }

  /** While the low part stays under 35 bits it passes through a step unreduced. */
  lemma StepSplits(a: bv64, t: bv64, d: bv64)
    requires t < 0x8_0000_0000
    ensures Step(Xor(a, t), d) == Xor(Step(a, 0), Next(t, d))
  {
    hide Shifted, Taps, Xor, Top, Shl5;
    LowBitsPass(a, t);
    XorShuffle(Shifted(a), Shl5(t), d, Taps(Top(a), 5));
  }

  lemma ShiftedBound(a: bv64)
    ensures Xor(Shifted(a), 0) < 0x100_0000_0000
  {}

  lemma StepBound(a: bv64)
    ensures Step(a, 0) < 0x100_0000_0000
  {
    hide Shifted, Taps, Xor, Top;
    ShiftedBound(a);
    XorBound(Xor(Shifted(a), 0), Taps(Top(a), 5));
  }

  lemma FoldSnoc(c: bv64, values: seq<bv64>, d: bv64)
    ensures Fold(c, values + [d]) == Step(Fold(c, values), d)
  {
    hide Step;
    assert (values + [d])[..|values|] == values;
  }

  function Next(t: bv64, d: bv64): bv64 { Xor(Shl5(t), d) }

  /** Digits shifted together. */
  function Packed(g: seq<bv64>): bv64 {
    if g == [] then 0 else Next(Packed(g[..|g| - 1]), g[|g| - 1])
  }

  function PackLimit(n: nat): bv64
    requires n <= 8
  {
    if n == 0 then 1 else if n == 1 then 0x20 else if n == 2 then 0x400 else if n == 3 then 0x8000
    else if n == 4 then 0x10_0000 else if n == 5 then 0x200_0000 else if n == 6 then 0x4000_0000
    else if n == 7 then 0x8_0000_0000 else 0x100_0000_0000
  }

  /** A word of `n` digits. */
  predicate Fits(t: bv64, n: nat)
    requires n <= 8
  {
    t < PackLimit(n)
  }

  predicate IsDigit(d: bv64) { d < 32 }

  lemma PackStep(t: bv64, d: bv64, n: nat)
    requires n < 8 && Fits(t, n) && IsDigit(d)
    ensures Fits(Next(t, d), n + 1) && t < 0x8_0000_0000
  {
    if n == 0 {} else if n == 1 {} else if n == 2 {} else if n == 3 {} else if n == 4 {} else if n == 5 {} else if n == 6 {}
  }

  predicate Five(g: seq<bv64>) { forall i :: 0 <= i < |g| ==> IsDigit(g[i]) }

  /** Shifting digits in instead of zeros leaves the same state, xor the digits themselves. */
  lemma {:induction false} FoldSplits(a: bv64, g: seq<bv64>)
    requires |g| <= 8 && Five(g)
    ensures Fits(Packed(g), |g|)
    ensures Fold(a, g) == Xor(Fold(a, ZEROS[..|g|]), Packed(g))
  {
    hide Step, Fits, Xor, Next, IsDigit;
    if g == [] {
      EmptyPack();
      XorZero(a);
    } else {
      var n := |g| - 1;
      var front := g[..n];
      FoldSplits(a, front);
      PackStep(Packed(front), g[n], n);
      StepSplits(Fold(a, ZEROS[..n]), Packed(front), g[n]);
      assert ZEROS[..n + 1] == ZEROS[..n] + [0];
      FoldSnoc(a, ZEROS[..n], 0);
    }
  }

  lemma EmptyPack()
    ensures Fits(0, 0)
  {}

  lemma {:induction false} FoldAppend(c: bv64, xs: seq<bv64>, ys: seq<bv64>)
    ensures Fold(c, xs + ys) == Fold(Fold(c, xs), ys)
  {
    hide Step;
    if ys == [] {
      assert xs + ys == xs;
    } else {
      var front, d := ys[..|ys| - 1], ys[|ys| - 1];
      FoldAppend(c, xs, front);
      assert xs + ys == (xs + front) + [d] && ys == front + [d];
      FoldSnoc(c, xs + front, d);
      FoldSnoc(Fold(c, xs), front, d);
    }
  }

  lemma FoldZerosBound(a: bv64)
    ensures Fold(a, ZEROS) < 0x100_0000_0000
  {
    hide Step, Fold;
    assert ZEROS == ZEROS[..7] + [0];
    FoldSnoc(a, ZEROS[..7], 0);
    StepBound(Fold(a, ZEROS[..7]));
  }

  // ----- packing -----

  function Pack4(t: bv64, a: bv64, b: bv64, c: bv64, d: bv64): bv64 {
    Next(Next(Next(Next(t, a), b), c), d)
  }

  lemma PackedSnoc(g: seq<bv64>, n: nat)
    requires n < |g|
    ensures Packed(g[..n + 1]) == Next(Packed(g[..n]), g[n])
  {
    hide Next;
    assert g[..n + 1][..n] == g[..n];
  }

  lemma PackedFour(w: seq<bv64>, n: nat)
    requires n + 4 <= |w|
    ensures Packed(w[..n + 4]) == Pack4(Packed(w[..n]), w[n], w[n + 1], w[n + 2], w[n + 3])
  {
    hide Packed, Next;
    PackedSnoc(w, n);
    PackedSnoc(w, n + 1);
    PackedSnoc(w, n + 2);
    PackedSnoc(w, n + 3);
  }

  lemma PackedIs(w: seq<bv64>)
    requires |w| == 8
    ensures Packed(w) == Pack4(Pack4(0, w[0], w[1], w[2], w[3]), w[4], w[5], w[6], w[7])
  {
    hide Pack4;
    assert w[..8] == w && w[..0] == [];
    PackedFour(w, 0);
    PackedFour(w, 4);
  }

  lemma Pack8Splits(c: bv64)
    requires c < 0x100_0000_0000
    ensures Pack4(Pack4(0, DigitAt(c, 0), DigitAt(c, 1), DigitAt(c, 2), DigitAt(c, 3)),
                  DigitAt(c, 4), DigitAt(c, 5), DigitAt(c, 6), DigitAt(c, 7)) == c
  {}

  lemma HighDigits(a: bv64, b: bv64, c: bv64, d: bv64, e: bv64, f: bv64, g: bv64, h: bv64)
    requires a < 32 && b < 32 && c < 32 && d < 32 && e < 32 && f < 32 && g < 32 && h < 32
    ensures var p := Pack4(Pack4(0, a, b, c, d), e, f, g, h);
            DigitAt(p, 0) == a && DigitAt(p, 1) == b && DigitAt(p, 2) == c && DigitAt(p, 3) == d
  {}

  lemma LowDigits(t: bv64, e: bv64, f: bv64, g: bv64, h: bv64)
    requires e < 32 && f < 32 && g < 32 && h < 32
    ensures var p := Pack4(t, e, f, g, h);
            DigitAt(p, 4) == e && DigitAt(p, 5) == f && DigitAt(p, 6) == g && DigitAt(p, 7) == h
  {}

  /** Unpacking a 40-bit word and packing it again is the identity. */
  lemma PackedUnpacked(c: bv64)
    requires c < 0x100_0000_0000
    ensures Packed(Words(Unpacked(c))) == c
  {
    hide Packed, Pack4, Word, Low5, DownTo;
    var w := Words(Unpacked(c));
    PackedIs(w);
    forall i | 0 <= i < 8
      ensures w[i] == DigitAt(c, i)
    {
      WordOfLow5(DownTo(c, i));
    }
    Pack8Splits(c);
  }

  lemma SameLow5(d: nat, w: bv64)
    requires d < 32 && w & 0x1f == Word(d)
    ensures Low5(w) == d
  {
    hide Word, Low5;
    WordOfLow5(w);
    Low5OfWord(d);
    Low5OfWord(Low5(w));
  }

  lemma PackedDigits(w: seq<bv64>, i: nat)
    requires |w| == 8 && Five(w) && i < 8
    ensures DigitAt(Packed(w), i) == w[i]
  {
    hide Packed, Pack4, DigitAt;
    PackedIs(w);
    HighDigits(w[0], w[1], w[2], w[3], w[4], w[5], w[6], w[7]);
    LowDigits(Pack4(0, w[0], w[1], w[2], w[3]), w[4], w[5], w[6], w[7]);
  }

  lemma UnpackedPacked(g: seq<nat>)
    requires |g| == 8 && DigitsBelow(g, 32)
    ensures Unpacked(Packed(Words(g))) == g
  {
    hide Packed, Word, Low5, DownTo, IsDigit;
    WordsFive(g);
    forall i | 0 <= i < 8
      ensures Unpacked(Packed(Words(g)))[i] == g[i]
    {
      PackedDigits(Words(g), i);
      SameLow5(g[i], DownTo(Packed(Words(g)), i));
    }
  }

  lemma WordsFive(g: seq<nat>)
    ensures Five(Words(g))
  {
    hide Word;
    forall i | 0 <= i < |g|
      ensures IsDigit(Words(g)[i])
    {
      WordBound(g[i]);
    }
  }

  lemma XorCancels(z: bv64, p: bv64)
    ensures Xor(Xor(z, p), 1) == 0 <==> p == Xor(z, 1)
  {
    hide Xor;
    XorComm(z, p);
    XorAssoc(p, z, 1);
    XorSame(p, Xor(z, 1));
  }

  /** A payload with eight groups verifies exactly when those groups pack to the payload's own checksum. */
  lemma VerifiesIffPacked(prefix: seq<nat>, payload: seq<nat>, checksum: seq<nat>)
    requires |checksum| == 8
    ensures var c := Polymod(PrefixValues(prefix) + [0] + Words(payload) + ZEROS);
            c < 0x100_0000_0000 && (Verifies(prefix, payload + checksum) <==> Packed(Words(checksum)) == c)
  {
    hide Fold, Packed, Word, Xor, Fits;
    var head := PrefixValues(prefix) + [0] + Words(payload);
    var a := Fold(1, head);
    assert PrefixValues(prefix) + [0] + Words(payload + checksum) == head + Words(checksum);
    FoldAppend(1, head, Words(checksum));
    FoldAppend(1, head, ZEROS);
    WordsFive(checksum);
    assert ZEROS[..8] == ZEROS;
    FoldSplits(a, Words(checksum));
    FoldZerosBound(a);
    XorBound(Fold(a, ZEROS), 1);
    XorCancels(Fold(a, ZEROS), Packed(Words(checksum)));
  }

  /** The printed checksum verifies. */
  lemma ChecksumVerifies(prefix: seq<nat>, payload: seq<nat>)
    ensures Verifies(prefix, payload + ChecksumGroups(prefix, payload))
  {
    hide Verifies, Polymod, Packed, Unpacked, Words;
    VerifiesIffPacked(prefix, payload, ChecksumGroups(prefix, payload));
    PackedUnpacked(Polymod(PrefixValues(prefix) + [0] + Words(payload) + ZEROS));
  }

  /** No other eight groups verify. */
  lemma ChecksumUnique(prefix: seq<nat>, payload: seq<nat>, checksum: seq<nat>)
    requires |checksum| == 8 && DigitsBelow(checksum, 32) && Verifies(prefix, payload + checksum)
    ensures checksum == ChecksumGroups(prefix, payload)
  {
    hide Verifies, Polymod, Packed, Unpacked, Words;
    VerifiesIffPacked(prefix, payload, checksum);
    UnpackedPacked(checksum);
  }
}
