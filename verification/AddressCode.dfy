/**
 The address checksum as the CashAddr specification, section "Checksum", defines it: the remainder of a polynomial
 over GF(32) on division by x^8 + 19x^7 + 3x^6 + 25x^5 + 11x^4 + 25x^3 + 3x^2 + 19x + 1.
 */
module AddressCode {
  import opened AddressChecksum

  // ----- GF(32) -----

  /** Times a, where a^5 + a^3 + 1 = 0; an element is the bits of a polynomial in a. */
  function TimesA(x: bv64): bv64 { (x << 1) ^ (if x & 0x10 != 0 then 0x29 else 0) }

  /** Times a^n. */
  function Power(x: bv64, n: nat): bv64 { if n == 0 then x else TimesA(Power(x, n - 1)) }

  /** The coefficient of a^n. */
  predicate Has(x: bv64, n: nat) { if n == 0 then x & 1 != 0 else Has(x >> 1, n - 1) }

  /** The multiples of `y` by those of the first `n` powers of a that `x` holds. */
  function MulLow(x: bv64, y: bv64, n: nat): bv64 {
    if n == 0 then 0 else Xor(MulLow(x, y, n - 1), if Has(x, n - 1) then Power(y, n - 1) else 0)
  }

  /** The product in GF(32). */
  function Mul(x: bv64, y: bv64): bv64 { MulLow(x, y, 5) }

  /** An element of GF(32) as the coefficient of a polynomial. */
  datatype Element = Element(bits: bv64)

  const ZERO := Element(0)

  function Plus(x: Element, y: Element): Element { Element(Xor(x.bits, y.bits)) }

  function Times(x: Element, y: Element): Element { Element(Mul(x.bits, y.bits)) }

  lemma PlusZero(x: Element)
    ensures Plus(x, ZERO) == x == Plus(ZERO, x)
  {
    hide Xor;
    XorZero(x.bits);
    XorComm(0, x.bits);
  }

  lemma PlusCancels(a: Element, m: Element, x: Element)
    ensures Plus(Plus(a, m), Plus(x, m)) == Plus(a, x)
  {
    hide Xor;
    Cancel(a.bits, m.bits, x.bits);
  }

  lemma PlusLeft(a: Element, x: Element, y: Element)
    requires Plus(a, x) == Plus(a, y)
    ensures x == y
  {
    hide Xor;
    XorLeft(a.bits, x.bits, y.bits);
  }

  lemma Cancel(a: bv64, m: bv64, x: bv64)
    ensures Xor(Xor(a, m), Xor(x, m)) == Xor(a, x)
  {
    hide Xor;
    XorComm(x, m);
    XorAssoc(Xor(a, m), m, x);
    XorAssoc(a, m, m);
    XorSame(m, m);
    XorZero(a);
  }

  lemma XorLeft(a: bv64, x: bv64, y: bv64)
    ensures Xor(a, x) == Xor(a, y) ==> x == y
  {}

  /** The divisor below its leading x^8. */
  const CODE: seq<bv64> := [19, 3, 25, 11, 25, 3, 19, 1]

  // ----- one step -----

  lemma Generator0(i: nat)
    requires i < 8
    ensures DigitAt(GENERATORS[0], i) == Power(CODE[i], 0)
  {
    if i == 0 {} else if i == 1 {} else if i == 2 {} else if i == 3 {} else if i == 4 {} else if i == 5 {} else if i == 6 {}
  }

  lemma Generator1(i: nat)
    requires i < 8
    ensures DigitAt(GENERATORS[1], i) == Power(CODE[i], 1)
  {
    if i == 0 {} else if i == 1 {} else if i == 2 {} else if i == 3 {} else if i == 4 {} else if i == 5 {} else if i == 6 {}
  }

  lemma Generator2(i: nat)
    requires i < 8
    ensures DigitAt(GENERATORS[2], i) == Power(CODE[i], 2)
  {
    if i == 0 {} else if i == 1 {} else if i == 2 {} else if i == 3 {} else if i == 4 {} else if i == 5 {} else if i == 6 {}
  }

  lemma Generator3(i: nat)
    requires i < 8
    ensures DigitAt(GENERATORS[3], i) == Power(CODE[i], 3)
  {
    if i == 0 {} else if i == 1 {} else if i == 2 {} else if i == 3 {} else if i == 4 {} else if i == 5 {} else if i == 6 {}
  }

  lemma Generator4(i: nat)
    requires i < 8
    ensures DigitAt(GENERATORS[4], i) == Power(CODE[i], 4)
  {
    if i == 0 {} else if i == 1 {} else if i == 2 {} else if i == 3 {} else if i == 4 {} else if i == 5 {} else if i == 6 {}
  }

  /** Generator `k` is a^k times the divisor. */
  lemma GeneratorDigit(k: nat, i: nat)
    requires k < 5 && i < 8
    ensures DigitAt(GENERATORS[k], i) == Power(CODE[i], k)
  {
    hide DigitAt, Power, CODE, GENERATORS;
    if k == 0 { Generator0(i); } else if k == 1 { Generator1(i); } else if k == 2 { Generator2(i); }
    else if k == 3 { Generator3(i); } else { Generator4(i); }
  }

  lemma Selected0(top: bv64)
    ensures Selected(top, 0) == (top & 1 != 0)
  {}

  lemma Selected1(top: bv64)
    ensures Selected(top, 1) == (top & 2 != 0)
  {}

  lemma Selected2(top: bv64)
    ensures Selected(top, 2) == (top & 4 != 0)
  {}

  lemma Selected3(top: bv64)
    ensures Selected(top, 3) == (top & 8 != 0)
  {}

  lemma Selected4(top: bv64)
    ensures Selected(top, 4) == (top & 16 != 0)
  {}

  lemma SelectedIs(top: bv64, k: nat)
    requires k < 5
    ensures Selected(top, k) == Has(top, k)
  {
    hide Selected, Has;
    Has4(top);
    if k == 0 { Selected0(top); } else if k == 1 { Selected1(top); } else if k == 2 { Selected2(top); }
    else if k == 3 { Selected3(top); } else { Selected4(top); }
  }

  lemma Has4(x: bv64)
    ensures Has(x, 0) == (x & 1 != 0) && Has(x, 1) == (x & 2 != 0) && Has(x, 2) == (x & 4 != 0)
    ensures Has(x, 3) == (x & 8 != 0) && Has(x, 4) == (x & 16 != 0)
  {
    assert Has(x, 1) == Has(x >> 1, 0);
    assert Has(x, 2) == Has(x >> 1 >> 1, 0);
    assert Has(x, 3) == Has(x >> 1 >> 1 >> 1, 0);
    assert Has(x, 4) == Has(x >> 1 >> 1 >> 1 >> 1, 0);
  }

  lemma Digit0(a: bv64, b: bv64)
    ensures DigitAt(Xor(a, b), 0) == Xor(DigitAt(a, 0), DigitAt(b, 0))
  {}

  lemma Digit1(a: bv64, b: bv64)
    ensures DigitAt(Xor(a, b), 1) == Xor(DigitAt(a, 1), DigitAt(b, 1))
  {}

  lemma Digit2(a: bv64, b: bv64)
    ensures DigitAt(Xor(a, b), 2) == Xor(DigitAt(a, 2), DigitAt(b, 2))
  {}

  lemma Digit3(a: bv64, b: bv64)
    ensures DigitAt(Xor(a, b), 3) == Xor(DigitAt(a, 3), DigitAt(b, 3))
  {}

  lemma Digit4(a: bv64, b: bv64)
    ensures DigitAt(Xor(a, b), 4) == Xor(DigitAt(a, 4), DigitAt(b, 4))
  {}

  lemma Digit5(a: bv64, b: bv64)
    ensures DigitAt(Xor(a, b), 5) == Xor(DigitAt(a, 5), DigitAt(b, 5))
  {}

  lemma Digit6(a: bv64, b: bv64)
    ensures DigitAt(Xor(a, b), 6) == Xor(DigitAt(a, 6), DigitAt(b, 6))
  {}

  lemma Digit7(a: bv64, b: bv64)
    ensures DigitAt(Xor(a, b), 7) == Xor(DigitAt(a, 7), DigitAt(b, 7))
  {}

  lemma DigitXor(a: bv64, b: bv64, i: nat)
    requires i < 8
    ensures DigitAt(Xor(a, b), i) == Xor(DigitAt(a, i), DigitAt(b, i))
  {
    hide DigitAt, Xor;
    if i == 0 { Digit0(a, b); } else if i == 1 { Digit1(a, b); } else if i == 2 { Digit2(a, b); } else if i == 3 { Digit3(a, b); }
    else if i == 4 { Digit4(a, b); } else if i == 5 { Digit5(a, b); } else if i == 6 { Digit6(a, b); } else { Digit7(a, b); }
  }

  lemma DigitZero(i: nat)
    requires i < 8
    ensures DigitAt(0, i) == 0
  {}

  /** Digit `i` of the generators that `top` selects is the product of `top` with the divisor's coefficient. */
  lemma {:induction false} TapDigit(top: bv64, i: nat, n: nat)
    requires i < 8 && n <= 5
    ensures DigitAt(Taps(top, n), i) == MulLow(top, CODE[i], n)
    decreases n
  {
    hide DigitAt, Xor, Power, Has, Selected, CODE, GENERATORS;
    DigitZero(i);
    if n > 0 {
      TapDigit(top, i, n - 1);
      DigitXor(Taps(top, n - 1), Tap(top, n - 1), i);
      GeneratorDigit(n - 1, i);
      SelectedIs(top, n - 1);
    }
  }

  lemma ShiftedDigit(c: bv64, d: bv64, i: nat)
    requires c < 0x100_0000_0000 && d < 32 && i < 8
    ensures DigitAt(Xor(Shifted(c), d), i) == if i < 7 then DigitAt(c, i + 1) else d
    ensures Top(c) == DigitAt(c, 0) < 32
  {
    if i == 0 {} else if i == 1 {} else if i == 2 {} else if i == 3 {} else if i == 4 {} else if i == 5 {} else if i == 6 {}
  }

  lemma StepSmall(c: bv64, d: bv64)
    requires d < 32
    ensures Step(c, d) < 0x100_0000_0000
  {
    hide Taps, Top;
    ShiftedSmall(c, d);
    hide Xor, Shifted;
    XorBound(Xor(Shifted(c), d), Taps(Top(c), 5));
  }

  lemma ShiftedSmall(c: bv64, d: bv64)
    requires d < 32
    ensures Xor(Shifted(c), d) < 0x100_0000_0000
  {}

  /** One step multiplies the state by x, adds the next digit, and takes the top digit's multiple of the divisor away. */
  lemma StepDigits(c: bv64, d: bv64, i: nat)
    requires c < 0x100_0000_0000 && d < 32 && i < 8
    ensures DigitAt(Step(c, d), i) == Xor(if i < 7 then DigitAt(c, i + 1) else d, Mul(DigitAt(c, 0), CODE[i]))
  {
    hide MulLow, DigitAt, Taps, Shifted, Top, Xor;
    ShiftedDigit(c, d, i);
    TapDigit(Top(c), i, 5);
    DigitXor(Xor(Shifted(c), d), Taps(Top(c), 5), i);
  }

  // ----- polynomials, leading coefficient first -----

  type Poly = seq<Element>

  function Zeros(n: nat): Poly { seq(n, _ => ZERO) }

  function Add(p: Poly, q: Poly): Poly
    requires |p| == |q|
  {
    seq(|p|, i requires 0 <= i < |p| => Plus(p[i], q[i]))
  }

  function Coefficient(i: nat): Element
    requires i < 8
  {
    Element(CODE[i])
  }

  /** The divisor, times `t`. */
  function Multiple(t: Element): (p: Poly)
    ensures |p| == 9
  {
    [t] + seq(8, i requires 0 <= i < 8 => Times(t, Coefficient(i)))
  }

  /** `q` times the divisor. */
  function TimesCode(q: Poly): (p: Poly)
    ensures |p| == |q| + 8
  {
    if q == [] then Zeros(8)
    else Add(TimesCode(q[..|q| - 1]) + [ZERO], Zeros(|q| - 1) + Multiple(q[|q| - 1]))
  }

  /** `p` is `q` times the divisor plus a rest of degree below eight. */
  ghost predicate Divides(p: Poly, q: Poly, rest: Poly) {
    |p| == |q| + 8 && |rest| == 8 && p == Add(TimesCode(q), Zeros(|q|) + rest)
  }

  function Elements(values: seq<bv64>): (p: Poly)
    ensures |p| == |values|
  {
    seq(|values|, i requires 0 <= i < |values| => Element(values[i]))
  }

  function Digit(c: bv64, i: nat): Element
    requires i < 8
  {
    Element(DigitAt(c, i))
  }

  /** The polynomial a 40-bit state stands for. */
  function State(c: bv64): (p: Poly)
    ensures |p| == 8
  {
    seq(8, i requires 0 <= i < 8 => Digit(c, i))
  }

  /** The digits of a message behind a leading one. */
  function Message(values: seq<bv64>): Poly { Zeros(7) + [Element(1)] + Elements(values) }

  lemma DividesAt(p: Poly, q: Poly, rest: Poly, i: nat)
    requires Divides(p, q, rest) && i < |p|
    ensures |p| == |q| + 8 && |rest| == 8 && p[i] == Plus(TimesCode(q)[i], if i < |q| then ZERO else rest[i - |q|])
  {
    hide TimesCode, Plus;
  }

  lemma DividesLength(p: Poly, q: Poly, rest: Poly)
    requires Divides(p, q, rest)
    ensures |p| == |q| + 8 && |rest| == 8
  {}

  lemma TimesCodeSnoc(q: Poly, t: Element)
    ensures TimesCode(q + [t]) == Add(TimesCode(q) + [ZERO], Zeros(|q|) + Multiple(t))
  {
    hide Add, Multiple;
    assert (q + [t])[..|q|] == q;
  }

  lemma TimesCodeAt(q: Poly, t: Element, i: nat)
    requires i < |q| + 9
    ensures TimesCode(q + [t])[i]
            == Plus(if i < |q| + 8 then TimesCode(q)[i] else ZERO, if i < |q| then ZERO else Multiple(t)[i - |q|])
  {
    hide Plus, Multiple, TimesCode;
    TimesCodeSnoc(q, t);
  }

  /** One step, as polynomials. */
  lemma StepState(c: bv64, d: bv64, i: nat)
    requires c < 0x100_0000_0000 && d < 32 && i < 8
    ensures State(Step(c, d))[i] == Plus(if i < 7 then State(c)[i + 1] else Element(d), Multiple(State(c)[0])[i + 1])
  {
    hide DigitAt, Step, Mul, Xor;
    StepDigits(c, d, i);
  }

  /** One more digit: the rest shifts up, and what leaves it joins the quotient. */
  lemma DivideStep(p: Poly, q: Poly, c: bv64, d: bv64)
    requires Divides(p, q, State(c)) && c < 0x100_0000_0000 && d < 32
    ensures Divides(p + [Element(d)], q + [State(c)[0]], State(Step(c, d)))
  {
    hide State, Step, Plus, TimesCode, Multiple;
    var t, grown, next := State(c)[0], p + [Element(d)], State(Step(c, d));
    var right := Add(TimesCode(q + [t]), Zeros(|q| + 1) + next);
    forall i: nat | i < |q| + 9 ensures grown[i] == right[i] {
      DivideAt(p, q, c, d, i);
    }
  }

  lemma DivideAt(p: Poly, q: Poly, c: bv64, d: bv64, i: nat)
    requires Divides(p, q, State(c)) && c < 0x100_0000_0000 && d < 32 && i < |q| + 9
    ensures |p| == |q| + 8
    ensures (p + [Element(d)])[i]
            == Plus(TimesCode(q + [State(c)[0]])[i], if i <= |q| then ZERO else State(Step(c, d))[i - |q| - 1])
  {
    hide Divides, State, Step, Plus, TimesCode, Multiple, ZERO;
    var t, n, rest := State(c)[0], |q|, State(c);
    DividesLength(p, q, rest);
    TimesCodeAt(q, t, i);
    if i < n + 8 { DividesAt(p, q, rest, i); }
    if i <= n {
      MultipleFirst(t);
      PlusZero(TimesCode(q + [t])[i]);
    } else {
      StepState(c, d, i - n - 1);
      var kept := if i < n + 8 then TimesCode(q)[i] else ZERO;
      PlusCancels(kept, Multiple(t)[i - n], if i < n + 8 then rest[i - n] else Element(d));
      PlusZero(Element(d));
    }
  }

  lemma MultipleFirst(t: Element)
    ensures Multiple(t)[0] == t
  {}

  /** The quotient that the steps divide out. */
  ghost function Quotient(values: seq<bv64>): (q: Poly)
    ensures |q| == |values|
  {
    if values == [] then []
    else
      var front := values[..|values| - 1];
      Quotient(front) + [State(Fold(1, front))[0]]
  }

  lemma {:induction false} FoldSmall(values: seq<bv64>)
    requires Five(values)
    ensures Fold(1, values) < 0x100_0000_0000
  {
    hide Step;
    if values != [] { StepSmall(Fold(1, values[..|values| - 1]), values[|values| - 1]); }
  }

  /** The polymod state after any values is the rest of their message on division by the code's polynomial. */
  lemma {:induction false} FoldDivides(values: seq<bv64>)
    requires Five(values)
    ensures Divides(Message(values), Quotient(values), State(Fold(1, values)))
  {
    hide Step, State, Divides;
    if values == [] {
      NothingDivided();
    } else {
      var front, d := values[..|values| - 1], values[|values| - 1];
      FoldDivides(front);
      FoldSmall(front);
      DivideStep(Message(front), Quotient(front), Fold(1, front), d);
      assert Message(values) == Message(front) + [Element(d)];
    }
  }

  lemma NothingDivided()
    ensures Divides(Message([]), [], State(1))
  {
    FirstState();
    hide State, Plus;
    PlusZero(ZERO);
    PlusZero(Element(1));
    assert Message([]) == Add(TimesCode([]), Zeros(0) + State(1));
  }

  const ONE: Poly := [ZERO, ZERO, ZERO, ZERO, ZERO, ZERO, ZERO, Element(1)]

  lemma FirstState()
    ensures State(1) == ONE
  {}

  // ----- there is only one rest -----

  lemma {:induction false} TimesCodePrefix(q: Poly, k: nat)
    requires k < |q|
    ensures TimesCode(q)[k] == Plus(TimesCode(q[..k])[k], q[k])
    decreases |q|
  {
    hide Plus, Multiple, TimesCode;
    var front, last := q[..|q| - 1], q[|q| - 1];
    assert q == front + [last];
    TimesCodeAt(front, last, k);
    if k == |q| - 1 {
      assert q[..k] == front;
      MultipleFirst(last);
    } else {
      TimesCodePrefix(front, k);
      assert front[..k] == q[..k];
      PlusZero(TimesCode(front)[k]);
    }
  }

  lemma {:induction false} SameQuotient(p: Poly, q: Poly, r: Poly, q': Poly, r': Poly, n: nat)
    requires Divides(p, q, r) && Divides(p, q', r') && n <= |q|
    ensures |q'| == |q| && q[..n] == q'[..n]
    decreases n
  {
    hide Divides, Plus, TimesCode;
    DividesLength(p, q, r);
    DividesLength(p, q', r');
    if n > 0 {
      var k := n - 1;
      SameQuotient(p, q, r, q', r', k);
      TimesCodePrefix(q, k);
      TimesCodePrefix(q', k);
      PlusZero(TimesCode(q)[k]);
      PlusZero(TimesCode(q')[k]);
      DividesAt(p, q, r, k);
      DividesAt(p, q', r', k);
      PlusLeft(TimesCode(q[..k])[k], q[k], q'[k]);
      assert q[..n] == q[..k] + [q[k]] && q'[..n] == q'[..k] + [q'[k]];
    }
  }

  /** Quotient and rest are unique. */
  lemma RestUnique(p: Poly, q: Poly, r: Poly, q': Poly, r': Poly)
    requires Divides(p, q, r) && Divides(p, q', r')
    ensures q == q' && r == r'
  {
    hide Divides, Plus, TimesCode;
    SameQuotient(p, q, r, q', r', |q|);
    DividesLength(p, q, r);
    DividesLength(p, q', r');
    assert q[..|q|] == q && q'[..|q|] == q';
    forall i: nat | i < 8 ensures r[i] == r'[i] {
      var k := |q| + i;
      DividesAt(p, q, r, k);
      DividesAt(p, q', r', k);
      PlusLeft(TimesCode(q)[k], r[i], r'[i]);
    }
  }

  // ----- the checksum -----

  /** The element whose coefficients are the binary digits of `d`. */
  function Binary(d: nat): bv64 { if d == 0 then 0 else Twice(Binary(d / 2), d % 2 == 1) }

  function Twice(x: bv64, odd: bool): bv64 { (x << 1) | (if odd then 1 else 0) }

  /** What is checked: the low five bits of each prefix byte, a zero, and the groups. */
  function Checked(prefix: seq<nat>, groups: seq<nat>): seq<bv64> {
    var digits := seq(|prefix|, i requires 0 <= i < |prefix| => prefix[i] % 32) + [0] + groups;
    seq(|digits|, i requires 0 <= i < |digits| => Binary(digits[i]))
  }

  lemma BinaryStep(d: nat)
    ensures Binary(d) == Twice(Binary(d / 2), d % 2 == 1)
  {}

  lemma BinaryFive(d: nat)
    requires d < 32
    ensures Binary(d) == Twice(Twice(Twice(Twice(Twice(0, d / 16 % 2 == 1), d / 8 % 2 == 1), d / 4 % 2 == 1), d / 2 % 2 == 1), d % 2 == 1)
  {
    BinaryZero();
    hide Binary, Twice;
    BinaryStep(d);
    BinaryStep(d / 2);
    BinaryStep(d / 4);
    BinaryStep(d / 8);
    BinaryStep(d / 16);
    assert d / 2 / 2 == d / 4 && d / 4 / 2 == d / 8 && d / 8 / 2 == d / 16 && d / 16 / 2 == 0;
  }

  lemma BinaryZero()
    ensures Binary(0) == 0
  {}

  lemma WordIsBinary(d: nat)
    requires d < 32
    ensures Binary(d) == Word(d)
  {
    hide Binary, Twice;
    BinaryFive(d);
    Joined(d % 2 == 1, d / 2 % 2 == 1, d / 4 % 2 == 1, d / 8 % 2 == 1, d / 16 % 2 == 1);
  }

  lemma Joined(a: bool, b: bool, c: bool, d: bool, e: bool)
    ensures Twice(Twice(Twice(Twice(Twice(0, e), d), c), b), a)
            == (if a then 1 else 0) | (if b then 2 else 0) | (if c then 4 else 0) | (if d then 8 else 0) | (if e then 16 else 0)
  {}

  /** The message of these values leaves the rest 1. */
  ghost predicate LeavesOne(values: seq<bv64>) { exists q :: Divides(Message(values), q, ONE) }

  lemma SameDigits(c: bv64)
    requires c < 0x100_0000_0000 && State(c) == ONE
    ensures c == 1
  {
    FirstState();
    hide DigitAt, Pack4;
    forall i: nat | i < 8 ensures DigitAt(c, i) == DigitAt(1, i) {
      assert State(c)[i] == State(1)[i];
    }
    Pack8Splits(c);
    Pack8Splits(1);
  }

  /** The polymod of any digits is zero exactly when their message leaves the rest 1. */
  lemma PolymodZeroIff(values: seq<bv64>)
    requires Five(values)
    ensures Polymod(values) == 0 <==> LeavesOne(values)
  {
    hide Fold, Divides, Xor, State;
    FoldSmall(values);
    FoldDivides(values);
    XorSame(Fold(1, values), 1);
    FirstState();
    if LeavesOne(values) {
      var q :| Divides(Message(values), q, ONE);
      RestUnique(Message(values), q, ONE, Quotient(values), State(Fold(1, values)));
      SameDigits(Fold(1, values));
    }
  }

  lemma CheckedIs(prefix: seq<nat>, groups: seq<nat>)
    requires forall i :: 0 <= i < |groups| ==> groups[i] < 32
    ensures Checked(prefix, groups) == PrefixValues(prefix) + [0] + Words(groups)
    ensures Five(Checked(prefix, groups))
  {
    assert Word(0) == 0;
    hide Word, Binary;
    var digits := seq(|prefix|, i requires 0 <= i < |prefix| => prefix[i] % 32) + [0] + groups;
    forall i | 0 <= i < |digits| ensures Binary(digits[i]) == Word(digits[i]) { WordIsBinary(digits[i]); }
    assert Checked(prefix, groups) == Words(digits);
    WordsFive(digits);
  }

  /** The printed checksum is the one that makes the whole address a multiple of the divisor, plus 1. */
  lemma ChecksumIff(prefix: seq<nat>, payload: seq<nat>, checksum: seq<nat>)
    requires forall i :: 0 <= i < |payload| ==> payload[i] < 32
    requires |checksum| == 8 && forall i :: 0 <= i < 8 ==> checksum[i] < 32
    ensures checksum == ChecksumGroups(prefix, payload) <==> LeavesOne(Checked(prefix, payload + checksum))
  {
    hide Polymod, LeavesOne, ChecksumGroups, Checked, PrefixValues, Words;
    CheckedIs(prefix, payload + checksum);
    PolymodZeroIff(Checked(prefix, payload + checksum));
    if checksum == ChecksumGroups(prefix, payload) { ChecksumVerifies(prefix, payload); }
    if Verifies(prefix, payload + checksum) { ChecksumUnique(prefix, payload, checksum); }
  }
}
