/** Positional notation and the arithmetic behind shift registers. */
module Positional {
  function Pow(base: nat, n: nat): (p: nat)
    ensures base > 0 ==> p > 0
  {
    if n == 0 then 1 else base * Pow(base, n - 1)
  }

  lemma {:induction false} PowAdd(base: nat, m: nat, n: nat)
    ensures Pow(base, m + n) == Pow(base, m) * Pow(base, n)
  {
    if m > 0 {
      PowAdd(base, m - 1, n);
      PowNext(base, m - 1);
      PowNext(base, m - 1 + n);
      MulAssociates(base, Pow(base, m - 1), Pow(base, n));
    }
  }

  lemma PowNext(base: nat, n: nat)
    ensures Pow(base, n + 1) == base * Pow(base, n)
  {}

  lemma MulAssociates(a: nat, b: nat, c: nat)
    ensures a * (b * c) == (a * b) * c
  {}

  // ----- division -----

  function Div(x: nat, y: nat): nat
    requires y > 0
  {
    x / y
  }

  function Mod(x: nat, y: nat): (r: nat)
    requires y > 0
    ensures r < y
  {
    x % y
  }

  lemma MulMono(a: nat, b: nat, c: nat)
    requires a <= b
    ensures a * c <= b * c
  {}

  lemma Euclid(x: nat, y: nat)
    requires y > 0
    ensures x == Div(x, y) * y + Mod(x, y)
  {}

  lemma SmallerQuotient(p: nat, r: nat, q: nat, s: nat, y: nat)
    requires p * y + r == q * y + s && r < y && s < y
    ensures p >= q
  {
    if p < q {
      MulMono(p + 1, q, y);
    }
  }

  /** Quotient and remainder are determined by x == q * y + r with r < y. */
  lemma Quotient(x: nat, y: nat, q: nat, r: nat)
    requires y > 0 && x == q * y + r && r < y
    ensures Div(x, y) == q && Mod(x, y) == r
  {
    hide Div, Mod;
    Euclid(x, y);
    SmallerQuotient(Div(x, y), Mod(x, y), q, r, y);
    SmallerQuotient(q, r, Div(x, y), Mod(x, y), y);
  }

  lemma BelowNext(r: nat, k: nat, s: nat, p: nat)
    requires r < k && s < p
    ensures r * p + s < k * p
  {
    MulMono(r + 1, k, p);
  }

  lemma Regroup(a: nat, b: nat, c: nat)
    ensures a * b * c == a * (c * b)
  {}

  lemma Distribute(a: nat, b: nat, c: nat)
    ensures (a + b) * c == a * c + b * c
  {}

  /** x mod (p * k), split into its upper digit and lower part. */
  lemma SplitMod(x: nat, p: nat, k: nat)
    requires p > 0 && k > 0
    ensures p * k > 0 && Mod(x, p * k) == Mod(Div(x, p), k) * p + Mod(x, p)
  {
    hide Div, Mod;
    var q, r := Div(x, p), Mod(x, p);
    var q2, r2 := Div(q, k), Mod(q, k);
    Euclid(x, p);
    Euclid(q, k);
    Distribute(q2 * k, r2, p);
    Regroup(q2, k, p);
    BelowNext(r2, k, r, p);
    assert k * p == p * k;
    Quotient(x, p * k, q2, r2 * p + r);
  }

  lemma ModOfMod(x: nat, p: nat, k: nat)
    requires p > 0 && k > 0
    ensures p * k > 0 && Mod(Mod(x, p * k), p) == Mod(x, p)
  {
    hide Div, Mod;
    SplitMod(x, p, k);
    Quotient(Mod(x, p * k), p, Mod(Div(x, p), k), Mod(x, p));
  }

  lemma ScaledMod(x: nat, b: nat, p: nat, m: nat)
    requires p > 0 && b < m
    ensures p * m > 0 && Mod(x * m + b, p * m) == Mod(x, p) * m + b
  {
    hide Div, Mod;
    var q, r := Div(x, p), Mod(x, p);
    Euclid(x, p);
    Distribute(q * p, r, m);
    Regroup(q, p, m);
    BelowNext(r, p, b, m);
    assert m * p == p * m;
    Quotient(x * m + b, p * m, q, r * m + b);
  }

  // ----- digit strings -----

  predicate DigitsBelow(d: seq<nat>, base: nat) {
    forall i :: 0 <= i < |d| ==> d[i] < base
  }

  /** The number a digit string denotes, most significant digit first. */
  function Value(d: seq<nat>, base: nat): nat {
    if d == [] then 0 else Value(d[..|d| - 1], base) * base + d[|d| - 1]
  }

  lemma ValueSnoc(d: seq<nat>, x: nat, base: nat)
    ensures Value(d + [x], base) == Value(d, base) * base + x
  {
    assert (d + [x])[..|d|] == d;
  }

  /** The last `n` digits of a number. */
  function Digits(v: nat, base: nat, n: nat): (d: seq<nat>)
    requires base > 0
    ensures |d| == n && DigitsBelow(d, base)
    decreases n
  {
    hide Div, Mod;
    if n == 0 then [] else Digits(Div(v, base), base, n - 1) + [Mod(v, base)]
  }

  lemma {:induction false} DigitsOfValue(d: seq<nat>, base: nat)
    requires base > 0 && DigitsBelow(d, base)
    ensures Digits(Value(d, base), base, |d|) == d
  {
    hide Div, Mod;
    if d != [] {
      var front, last := d[..|d| - 1], d[|d| - 1];
      DigitsOfValue(front, base);
      Quotient(Value(d, base), base, Value(front, base), last);
      assert d == front + [last];
    }
  }

  lemma {:induction false} ValueOfDigits(v: nat, base: nat, n: nat)
    requires base > 0 && v < Pow(base, n)
    ensures Value(Digits(v, base, n), base) == v
  {
    hide Div, Mod, Pow, Value;
    NoDigits(base);
    if n > 0 {
      Euclid(v, base);
      PowNext(base, n - 1);
      QuotientBelow(v, base, Pow(base, n - 1));
      ValueOfDigits(Div(v, base), base, n - 1);
      ValueSnoc(Digits(Div(v, base), base, n - 1), Mod(v, base), base);
    }
  }

  lemma NoDigits(base: nat)
    ensures Value([], base) == 0 && Pow(base, 0) == 1
  {}

  lemma QuotientBelow(v: nat, base: nat, p: nat)
    requires base > 0 && v < base * p
    ensures Div(v, base) < p
  {
    hide Div, Mod;
    Euclid(v, base);
    if Div(v, base) >= p {
      MulMono(p, Div(v, base), base);
    }
  }

  lemma {:induction false} ValueBound(d: seq<nat>, base: nat)
    requires DigitsBelow(d, base)
    ensures Value(d, base) < Pow(base, |d|)
  {
    if d != [] {
      var front := d[..|d| - 1];
      ValueBound(front, base);
      BelowNext(Value(front, base), Pow(base, |front|), d[|d| - 1], base);
    }
  }

  // ----- shift registers -----

  const U32: nat := 0x1_0000_0000

  lemma SmallPowers()
    ensures Pow(2, 5) == 32 && Pow(2, 8) == 256 && Pow(2, 1) == 2 && Pow(2, 32) == U32
  {
    assert Pow(2, 4) == 2 * (2 * (2 * (2 * Pow(2, 0))));
    PowAdd(2, 4, 1);
    PowAdd(2, 4, 4);
    PowAdd(2, 8, 8);
    PowAdd(2, 16, 16);
  }

  /** `(acc << w) | b` on 32-bit words. */
  function ShiftIn(acc: nat, w: nat, b: nat): nat {
    Mod(acc * Pow(2, w), U32) + b
  }

  /** Shifting in a digit multiplies what the register's low bits hold, whatever falls off the top. */
  lemma ShiftInLow(acc: nat, bits: nat, w: nat, b: nat)
    requires bits + w <= 32 && b < Pow(2, w)
    ensures Mod(ShiftIn(acc, w, b), Pow(2, bits + w)) == Mod(acc, Pow(2, bits)) * Pow(2, w) + b
  {
    hide Mod;
    var m, p, rest := Pow(2, w), Pow(2, bits), Pow(2, 32 - w - bits);
    SmallPowers();
    PowAdd(2, 32 - w, w);
    PowAdd(2, bits, 32 - w - bits);
    PowAdd(2, bits, w);
    hide Pow;
    var top := p * rest;
    ScaledMod(acc, 0, top, m);
    assert ShiftIn(acc, w, b) == Mod(acc, top) * m + b;
    ScaledMod(Mod(acc, top), b, p, m);
    ModOfMod(acc, p, rest);
  }

  /** Taking the digit above `bits` out of the register leaves the bits below it. */
  lemma ShiftOutLow(acc: nat, bits: nat, w: nat)
    ensures Mod(acc, Pow(2, bits + w)) == Join(Mod(Div(acc, Pow(2, bits)), Pow(2, w)), Pow(2, bits), Mod(acc, Pow(2, bits)))
  {
    hide Mod, Div;
    PowAdd(2, bits, w);
    SplitMod(acc, Pow(2, bits), Pow(2, w));
  }

  /** `v` followed by the low `bits` bits of the register is `value`. */
  ghost predicate Holds(value: nat, v: nat, bits: nat, reg: nat) {
    value == Join(v, Pow(2, bits), Mod(reg, Pow(2, bits)))
  }

  function Join(high: nat, p: nat, low: nat): nat { high * p + low }

  lemma HoldsIn(value: nat, v: nat, bits: nat, reg: nat, w: nat, b: nat)
    requires Holds(value, v, bits, reg) && bits + w <= 32 && b < Pow(2, w)
    ensures Holds(value * Pow(2, w) + b, v, bits + w, ShiftIn(reg, w, b))
  {
    hide Pow, Mod, ShiftIn;
    ShiftInLow(reg, bits, w, b);
    PowAdd(2, bits, w);
    Distribute(v * Pow(2, bits), Mod(reg, Pow(2, bits)), Pow(2, w));
    MulAssoc(v, Pow(2, bits), Pow(2, w));
  }

  lemma MulAssoc(a: nat, b: nat, c: nat)
    ensures a * b * c == a * (b * c)
  {}

  lemma HoldsOut(value: nat, v: nat, bits: nat, reg: nat, w: nat)
    requires Holds(value, v, bits + w, reg)
    ensures Holds(value, Join(v, Pow(2, w), Mod(Div(reg, Pow(2, bits)), Pow(2, w))), bits, reg)
  {
    hide Join, Pow, Mod, Div;
    ShiftOutLow(reg, bits, w);
    PowAdd(2, bits, w);
    var digit, low := Mod(Div(reg, Pow(2, bits)), Pow(2, w)), Mod(reg, Pow(2, bits));
    JoinAssoc(v, Pow(2, bits), Pow(2, w), digit, low);
  }

  lemma JoinAssoc(v: nat, p: nat, q: nat, digit: nat, low: nat)
    ensures Join(v, p * q, Join(digit, p, low)) == Join(Join(v, q, digit), p, low)
  {
    Distribute(v * q, digit, p);
    Regroup(v, q, p);
  }

  lemma HoldsQuotient(value: nat, v: nat, bits: nat, reg: nat)
    requires Holds(value, v, bits, reg)
    ensures v == Div(value, Pow(2, bits))
  {
    hide Mod, Div;
    Quotient(value, Pow(2, bits), v, Mod(reg, Pow(2, bits)));
  }

  /** Shifting up to a whole digit and keeping that digit pads the value with zero bits. */
  lemma HoldsPadded(value: nat, v: nat, bits: nat, reg: nat, pad: nat)
    requires Holds(value, v, bits, reg) && bits + pad <= 32
    ensures value * Pow(2, pad) == v * Pow(2, bits + pad) + Mod(Mod(reg * Pow(2, pad), U32), Pow(2, bits + pad))
  {
    hide Pow, Mod;
    HoldsIn(value, v, bits, reg, pad, 0);
  }
}
