/** The mixing functions of the v4 walk, bit for bit. */
module PomMixing {
  import opened ByteOrder
  import opened PomWalk

  const S0_ROW_SALT: bv64 := 0x03421325594C3C51
  const OFFSET_FIRST_SALT: bv64 := 0x6D1CCF96AC4D76F9
  const OFFSET_STEP_SALT: bv64 := 0x89050E78D34609EF

  function Xor(x: bv64, y: bv64): bv64 { x ^ y }

  function Shift30(x: bv64): bv64 { x ^ (x >> 30) }
  function Shift27(x: bv64): bv64 { x ^ (x >> 27) }
  function Shift31(x: bv64): bv64 { x ^ (x >> 31) }
  function Scale1(x: bv64): bv64 { x * 0xbf58476d1ce4e5b9 }
  function Scale2(x: bv64): bv64 { x * 0x94d049bb133111eb }

  function Mix64(x: bv64): bv64 { Shift31(Scale2(Shift27(Scale1(Shift30(x))))) }

  // Every shift is undone by two more, and the two multipliers are odd.
  function Unshift30(x: bv64): bv64 { x ^ (x >> 30) ^ (x >> 60) }
  function Unshift27(x: bv64): bv64 { x ^ (x >> 27) ^ (x >> 54) }
  function Unshift31(x: bv64): bv64 { x ^ (x >> 31) ^ (x >> 62) }
  function Unscale1(x: bv64): bv64 { x * 0x96de1b173f119089 }
  function Unscale2(x: bv64): bv64 { x * 0x319642b2d24d8ec3 }

  /** Mix64 run backwards. */
  function Unmix64(y: bv64): bv64 { Unshift30(Unscale1(Unshift27(Unscale2(Unshift31(y))))) }

  lemma UndoShift30(x: bv64)
    ensures Unshift30(Shift30(x)) == x == Shift30(Unshift30(x))
  {
    RawShift30(x);
    RawUnshift30(x);
  }

  lemma RawShift30(x: bv64)
    ensures Unshift30(x ^ (x >> 30)) == x
  {}

  lemma RawUnshift30(x: bv64)
    ensures Shift30(x ^ (x >> 30) ^ (x >> 60)) == x
  {}

  lemma UndoShift27(x: bv64)
    ensures Unshift27(Shift27(x)) == x == Shift27(Unshift27(x))
  {
    RawShift27(x);
    RawUnshift27(x);
  }

  lemma RawShift27(x: bv64)
    ensures Unshift27(x ^ (x >> 27)) == x
  {}

  lemma RawUnshift27(x: bv64)
    ensures Shift27(x ^ (x >> 27) ^ (x >> 54)) == x
  {}

  lemma UndoShift31(x: bv64)
    ensures Unshift31(Shift31(x)) == x == Shift31(Unshift31(x))
  {
    RawShift31(x);
    RawUnshift31(x);
  }

  lemma RawShift31(x: bv64)
    ensures Unshift31(x ^ (x >> 31)) == x
  {}

  lemma RawUnshift31(x: bv64)
    ensures Shift31(x ^ (x >> 31) ^ (x >> 62)) == x
  {}

  lemma UndoScale1(x: bv64)
    ensures Unscale1(Scale1(x)) == x == Scale1(Unscale1(x))
  {
    RawScale1(x);
    RawUnscale1(x);
  }

  lemma RawScale1(x: bv64)
    ensures Unscale1(x * 0xbf58476d1ce4e5b9) == x
  {}

  lemma RawUnscale1(x: bv64)
    ensures Scale1(x * 0x96de1b173f119089) == x
  {}

  lemma UndoScale2(x: bv64)
    ensures Unscale2(Scale2(x)) == x == Scale2(Unscale2(x))
  {
    RawScale2(x);
    RawUnscale2(x);
  }

  lemma RawScale2(x: bv64)
    ensures Unscale2(x * 0x94d049bb133111eb) == x
  {}

  lemma RawUnscale2(x: bv64)
    ensures Scale2(x * 0x319642b2d24d8ec3) == x
  {}

  /** mix64 is a bijection of the 64-bit words. */
  lemma MixInverse(x: bv64)
    ensures Unmix64(Mix64(x)) == x && Mix64(Unmix64(x)) == x
  {
    hide Shift30, Shift27, Shift31, Scale1, Scale2, Unshift30, Unshift27, Unshift31, Unscale1, Unscale2;
    var a := Shift30(x);
    var b := Scale1(a);
    var c := Shift27(b);
    UndoShift30(x);
    UndoScale1(a);
    UndoShift27(b);
    UndoScale2(c);
    UndoShift31(Scale2(c));
    var d := Unshift31(x);
    var e := Unscale2(d);
    var f := Unshift27(e);
    UndoShift31(x);
    UndoScale2(d);
    UndoShift27(e);
    UndoScale1(f);
    UndoShift30(Unscale1(f));
  }

  lemma MixInjective(x: bv64, y: bv64)
    requires Mix64(x) == Mix64(y)
    ensures x == y
  {
    hide Mix64, Unmix64;
    MixInverse(x);
    MixInverse(y);
  }

  function RhoTweak(step: bv32, row: bv32, col: bv32): bv32 {
    step * 0x9E3779B9 + row * 0xC2B2AE35 + col * 0x85EBCA6B
  }

  function Rho8(acc: bv32, tweak: bv32): u8 {
    var a := (acc ^ tweak) * 0x9E3779B9;
    var b := (a ^ (a >> 16)) * 0x85EBCA6B;
    LowByte(b ^ (b >> 13))
  }

  function LowByte(x: bv32): u8 { (x & 0xff) as u8 }

  function AsU32(x: int): bv32 { (x % 0x1_0000_0000) as bv32 }

  function AsU64(x: int): bv64 { (x % 0x1_0000_0000_0000_0000) as bv64 }

  function Bit(x: nat): bv64 { if x % 2 == 1 then 1 else 0 }

  function Bits(a: bv64, b: bv64, c: bv64, d: bv64, e: bv64, f: bv64, g: bv64, h: bv64): bv64 {
    a | (b << 1) | (c << 2) | (d << 3) | (e << 4) | (f << 5) | (g << 6) | (h << 7)
  }

  /** `x / 2^n`, by halving. */
  function Halved(x: nat, n: nat): nat { if n == 0 then x else Halved(x, n - 1) / 2 }

  function BitAt(x: u8, n: nat): bv64 { Bit(Halved(x, n)) }

  /** A byte as a 64-bit word, bit by bit. */
  function Wide(b: u8): bv64 {
    Bits(BitAt(b, 0), BitAt(b, 1), BitAt(b, 2), BitAt(b, 3), BitAt(b, 4), BitAt(b, 5), BitAt(b, 6), BitAt(b, 7))
  }

  lemma BitsInjective(a: bv64, b: bv64, c: bv64, d: bv64, e: bv64, f: bv64, g: bv64, h: bv64,
                      a': bv64, b': bv64, c': bv64, d': bv64, e': bv64, f': bv64, g': bv64, h': bv64)
    requires a < 2 && b < 2 && c < 2 && d < 2 && e < 2 && f < 2 && g < 2 && h < 2
    requires a' < 2 && b' < 2 && c' < 2 && d' < 2 && e' < 2 && f' < 2 && g' < 2 && h' < 2
    requires Bits(a, b, c, d, e, f, g, h) == Bits(a', b', c', d', e', f', g', h')
    ensures a == a' && b == b' && c == c' && d == d' && e == e' && f == f' && g == g' && h == h'
  {}

  lemma BitSmall(x: u8, n: nat)
    ensures BitAt(x, n) < 2
  {}

  /** Eight halvings leave nothing of a byte. */
  lemma HalvedAway(x: u8)
    ensures Halved(x, 8) == 0
  {
    assert Halved(x, 0) < 256;
    assert Halved(x, 1) < 128;
    assert Halved(x, 2) < 64;
    assert Halved(x, 3) < 32;
    assert Halved(x, 4) < 16;
    assert Halved(x, 5) < 8;
    assert Halved(x, 6) < 4;
    assert Halved(x, 7) < 2;
  }

  /** Equal from bit `n` up, with nothing above. */
  lemma {:induction false} SameAbove(x: u8, y: u8, n: nat)
    requires n <= 8 && forall k :: n <= k < 8 ==> BitAt(x, k) == BitAt(y, k)
    ensures Halved(x, n) == Halved(y, n)
    decreases 8 - n
  {
    hide BitAt, Halved;
    if n == 8 {
      HalvedAway(x);
      HalvedAway(y);
    } else {
      SameAbove(x, y, n + 1);
      SameBit(x, y, n);
    }
  }

  lemma SameBit(x: u8, y: u8, n: nat)
    requires BitAt(x, n) == BitAt(y, n) && Halved(x, n + 1) == Halved(y, n + 1)
    ensures Halved(x, n) == Halved(y, n)
  {}

  lemma WideInjective(x: u8, y: u8)
    requires Wide(x) == Wide(y)
    ensures x == y
  {
    hide BitAt, Bits;
    forall k: nat | k < 8 ensures BitAt(x, k) < 2 && BitAt(y, k) < 2 {
      BitSmall(x, k);
      BitSmall(y, k);
    }
    BitsInjective(BitAt(x, 0), BitAt(x, 1), BitAt(x, 2), BitAt(x, 3), BitAt(x, 4), BitAt(x, 5), BitAt(x, 6), BitAt(x, 7),
                  BitAt(y, 0), BitAt(y, 1), BitAt(y, 2), BitAt(y, 3), BitAt(y, 4), BitAt(y, 5), BitAt(y, 6), BitAt(y, 7));
    SameAbove(x, y, 0);
  }

  /** A little-endian 32-bit word. */
  function Word32(b: seq<u8>, n: nat): bv64
    requires n + 4 <= |b|
  {
    Join(Wide(b[n]), Wide(b[n + 1]), Wide(b[n + 2]), Wide(b[n + 3]))
  }

  function Join(a: bv64, b: bv64, c: bv64, d: bv64): bv64 { a | (b << 8) | (c << 16) | (d << 24) }

  /** Bits and bytes stand for their place values, least significant first. */
  lemma JoinIs(a: bv64, b: bv64, c: bv64, d: bv64)
    requires a < 256 && b < 256 && c < 256 && d < 256
    ensures Join(a, b, c, d) == a + 0x100 * b + 0x1_0000 * c + 0x100_0000 * d
  {}

  lemma BitsAre(a: bv64, b: bv64, c: bv64, d: bv64, e: bv64, f: bv64, g: bv64, h: bv64)
    requires a < 2 && b < 2 && c < 2 && d < 2 && e < 2 && f < 2 && g < 2 && h < 2
    ensures Bits(a, b, c, d, e, f, g, h) == a + 2 * b + 4 * c + 8 * d + 16 * e + 32 * f + 64 * g + 128 * h
  {}

  lemma JoinInjective(a: bv64, b: bv64, c: bv64, d: bv64, a': bv64, b': bv64, c': bv64, d': bv64)
    requires a < 256 && b < 256 && c < 256 && d < 256 && a' < 256 && b' < 256 && c' < 256 && d' < 256
    requires Join(a, b, c, d) == Join(a', b', c', d')
    ensures a == a' && b == b' && c == c' && d == d'
  {}

  lemma WideSmall(b: u8)
    ensures Wide(b) < 256
  {
    hide BitAt, Bits;
    forall k: nat | k < 8 ensures BitAt(b, k) < 2 { BitSmall(b, k); }
    BitsSmall(BitAt(b, 0), BitAt(b, 1), BitAt(b, 2), BitAt(b, 3), BitAt(b, 4), BitAt(b, 5), BitAt(b, 6), BitAt(b, 7));
  }

  lemma BitsSmall(a: bv64, b: bv64, c: bv64, d: bv64, e: bv64, f: bv64, g: bv64, h: bv64)
    requires a < 2 && b < 2 && c < 2 && d < 2 && e < 2 && f < 2 && g < 2 && h < 2
    ensures Bits(a, b, c, d, e, f, g, h) < 256
  {}

  lemma WordInjective(x: seq<u8>, y: seq<u8>, n: nat)
    requires n + 4 <= |x| && n + 4 <= |y| && Word32(x, n) == Word32(y, n)
    ensures x[n..n + 4] == y[n..n + 4]
  {
    hide Wide, Join;
    forall i | n <= i < n + 4 ensures Wide(x[i]) < 256 && Wide(y[i]) < 256 {
      WideSmall(x[i]);
      WideSmall(y[i]);
    }
    JoinInjective(Wide(x[n]), Wide(x[n + 1]), Wide(x[n + 2]), Wide(x[n + 3]),
                  Wide(y[n]), Wide(y[n + 1]), Wide(y[n + 2]), Wide(y[n + 3]));
    WideInjective(x[n], y[n]);
    WideInjective(x[n + 1], y[n + 1]);
    WideInjective(x[n + 2], y[n + 2]);
    WideInjective(x[n + 3], y[n + 3]);
  }

  // ----- the snippet fold -----

  function Folded(snippet: Snippet, words: nat): bv64
    requires words <= 8
  {
    if words == 0 then 0 else Mix64(Xor(Folded(snippet, words - 1), Word32(snippet, 4 * (words - 1))))
  }

  /** Same bytes, except perhaps in word `w`. */
  predicate SameButFor(a: Snippet, b: Snippet, w: nat)
    requires w < 8
  {
    a[..4 * w] == b[..4 * w] && a[4 * w + 4..] == b[4 * w + 4..]
  }

  lemma XorCancels(x: bv64, a: bv64, b: bv64)
    ensures Xor(x, a) == Xor(x, b) ==> a == b
    ensures Xor(a, x) == Xor(b, x) ==> a == b
  {}

  lemma SameWord(a: Snippet, b: Snippet, w: nat, i: nat)
    requires w < 8 && i < 8 && i != w && SameButFor(a, b, w)
    ensures Word32(a, 4 * i) == Word32(b, 4 * i)
  {
    hide Wide, Join;
    forall j | 4 * i <= j < 4 * i + 4 ensures a[j] == b[j] {
      if i < w {
        assert a[..4 * w][j] == b[..4 * w][j];
      } else {
        assert a[4 * w + 4..][j - 4 * w - 4] == b[4 * w + 4..][j - 4 * w - 4];
      }
    }
  }

  /** Before word `w` the folds agree; from there on they agree only if that word does. */
  lemma {:induction false} FoldTracks(a: Snippet, b: Snippet, w: nat, words: nat)
    requires w < 8 && words <= 8 && SameButFor(a, b, w)
    ensures words <= w ==> Folded(a, words) == Folded(b, words)
    ensures words > w && Folded(a, words) == Folded(b, words) ==> Word32(a, 4 * w) == Word32(b, 4 * w)
    decreases words
  {
    hide Mix64, Word32, SameButFor, Xor;
    if words > 0 {
      var i: nat := words - 1;
      FoldTracks(a, b, w, i);
      if i != w { SameWord(a, b, w, i); }
      if Folded(a, words) == Folded(b, words) {
        MixInjective(Xor(Folded(a, i), Word32(a, 4 * i)), Xor(Folded(b, i), Word32(b, 4 * i)));
        XorCancels(Folded(a, i), Word32(a, 4 * i), Word32(b, 4 * i));
        XorCancels(Word32(a, 4 * i), Folded(a, i), Folded(b, i));
      }
    }
  }

  /** Snippets that agree in all words but one have the same fold only if they are the same: no single word can be changed. */
  lemma FoldBinds(a: Snippet, b: Snippet, w: nat)
    requires w < 8 && SameButFor(a, b, w) && Folded(a, 8) == Folded(b, 8)
    ensures a == b
  {
    hide Word32, Folded;
    FoldTracks(a, b, w, 8);
    WordInjective(a, b, 4 * w);
    assert a == a[..4 * w] + a[4 * w..4 * w + 4] + a[4 * w + 4..];
    assert b == b[..4 * w] + b[4 * w..4 * w + 4] + b[4 * w + 4..];
  }

  method SnippetFold(snippet: Snippet) returns (sf: bv64)
    ensures sf == Folded(snippet, 8)
  {
    hide Mix64, Word32, Xor;
    sf := 0;
    for w := 0 to 8
      invariant sf == Folded(snippet, w)
    {
      sf := Mix64(Xor(sf, Word32(snippet, 4 * w)));
    }
  }

  // ----- the initial state -----

  function Le4(x: bv64): (b: seq<u8>)
    ensures |b| == 4
  {
    [(x & 0xff) as u8, ((x >> 8) & 0xff) as u8, ((x >> 16) & 0xff) as u8, ((x >> 24) & 0xff) as u8]
  }

  /** Mixing `n` times. */
  function Mixed(x: bv64, n: nat): bv64 { if n == 0 then x else Mix64(Mixed(x, n - 1)) }

  function RowStart(seed: bv64, r: u8): bv64 { Mix64(Xor(seed, RowSalt(r))) }

  function RowSalt(r: u8): bv64 { S0_ROW_SALT + Wide(r) }

  function RowBytes(x: bv64, words: nat): (bytes: seq<u8>)
    ensures |bytes| == 4 * words
  {
    hide Mixed, Le4;
    if words == 0 then [] else RowBytes(x, words - 1) + Le4(Mixed(x, words))
  }

  function Rows(seed: bv64, r: nat): (bytes: seq<u8>)
    requires r <= 32
    ensures |bytes| == 32 * r
  {
    hide RowStart, RowBytes;
    if r == 0 then [] else Rows(seed, r - 1) + RowBytes(RowStart(seed, r - 1), 8)
  }

  lemma {:induction false} RowBytesAt(x: bv64, words: nat, k: nat)
    requires k < words
    ensures RowBytes(x, words)[4 * k..4 * k + 4] == Le4(Mixed(x, k + 1))
    decreases words
  {
    hide Mixed, Le4;
    if k < words - 1 {
      RowBytesAt(x, words - 1, k);
      assert RowBytes(x, words)[4 * k..4 * k + 4] == RowBytes(x, words - 1)[4 * k..4 * k + 4];
    }
  }

  lemma {:induction false} RowsAt(seed: bv64, rows: nat, r: nat)
    requires r < rows <= 32
    ensures Rows(seed, rows)[32 * r..32 * r + 32] == RowBytes(RowStart(seed, r), 8)
    decreases rows
  {
    hide RowStart, RowBytes;
    if r < rows - 1 {
      RowsAt(seed, rows - 1, r);
      assert Rows(seed, rows)[32 * r..32 * r + 32] == Rows(seed, rows - 1)[32 * r..32 * r + 32];
    }
  }

  /** Bytes `4k` to `4k + 4` of row `r` are the low word of the row's start mixed `k + 1` times. */
  ghost predicate IsInitial(seed: bv64, s: Square) {
    forall r: nat, k: nat | r < 32 && k < 8 :: WordOf(s, r, k) == Le4(Mixed(RowStart(seed, r), k + 1))
  }

  /** Word `k` of row `r`. */
  function WordOf(s: Square, r: nat, k: nat): seq<u8>
    requires r < 32 && k < 8
  {
    Line(s, r)[4 * k..4 * k + 4]
  }

  /** v4_initial_state: 32 rows, each a chain of mixes cut into four bytes a link. */
  method InitialState(seed: bv64) returns (s: Square)
    ensures IsInitial(seed, s) && s == Rows(seed, 32)
  {
    hide Mix64, Mixed, Le4, RowStart;
    var bytes: seq<u8> := [];
    for r: nat := 0 to 32
      invariant bytes == Rows(seed, r)
    {
      var x := RowStart(seed, r);
      var h := x;
      Unmixed(x);
      for k: nat := 0 to 8
        invariant h == Mixed(x, k) && bytes == Rows(seed, r) + RowBytes(x, k)
      {
        MixedNext(x, k);
        h := Mix64(h);
        bytes := bytes + Le4(h);
      }
    }
    s := bytes;
    RowsInitial(seed);
  }

  lemma Unmixed(x: bv64)
    ensures Mixed(x, 0) == x
  {}

  lemma MixedNext(x: bv64, k: nat)
    ensures Mixed(x, k + 1) == Mix64(Mixed(x, k))
  {}

  lemma RowsInitial(seed: bv64)
    ensures IsInitial(seed, Rows(seed, 32))
  {
    hide Mixed, Le4, RowStart, Rows, RowBytes;
    forall r: nat, k: nat | r < 32 && k < 8
      ensures WordOf(Rows(seed, 32), r, k) == Le4(Mixed(RowStart(seed, r), k + 1))
    {
      RowsAt(seed, 32, r);
      RowBytesAt(RowStart(seed, r), 8, k);
    }
  }

  lemma {:induction false} MixedInjective(x: bv64, y: bv64, n: nat)
    requires Mixed(x, n) == Mixed(y, n)
    ensures x == y
  {
    hide Mix64;
    if n > 0 {
      MixInjective(Mixed(x, n - 1), Mixed(y, n - 1));
      MixedInjective(x, y, n - 1);
    }
  }

  lemma SaltInjective(r: u8, r': u8)
    requires RowSalt(r) == RowSalt(r')
    ensures r == r'
  {
    hide Wide;
    SumCancels(Wide(r), Wide(r'));
    WideInjective(r, r');
  }

  lemma SumCancels(a: bv64, b: bv64)
    ensures S0_ROW_SALT + a == S0_ROW_SALT + b ==> a == b
  {}

  /** Two chains that meet at the same link start from the same seed exactly when they belong to the same row. */
  lemma ChainsMeet(seed: bv64, r: u8, seed': bv64, r': u8, k: nat)
    requires Mixed(RowStart(seed, r), k) == Mixed(RowStart(seed', r'), k)
    ensures seed == seed' <==> r == r'
  {
    hide Mix64, Mixed, RowSalt, Xor;
    MixedInjective(RowStart(seed, r), RowStart(seed', r'), k);
    MixInjective(Xor(seed, RowSalt(r)), Xor(seed', RowSalt(r')));
    XorCancels(seed, RowSalt(r), RowSalt(r'));
    XorCancels(RowSalt(r), seed, seed');
    if seed == seed' { SaltInjective(r, r'); }
  }

  // ----- the offsets -----

  function FirstDraw(seed: bv64): nat { Number(Mix64(Xor(seed, OFFSET_FIRST_SALT))) }

  function NextDraw(seed: bv64, step: nat, snippet: Snippet): nat {
    hide Mix64, Folded;
    Number(Mix64(Xor(StepKey(seed, step), Folded(snippet, 8))))
  }

  function StepKey(seed: bv64, step: nat): bv64 { Xor(seed, Product(AsU64(step + 1), OFFSET_STEP_SALT)) }

  function Product(a: bv64, b: bv64): bv64 { a * b }

  function Number(x: bv64): nat { x as nat }

  lemma NumberBack(x: bv64)
    ensures Number(x) as bv64 == x
  {}

  lemma NumberInjective(x: bv64, y: bv64)
    requires Number(x) == Number(y)
    ensures x == y
  {
    hide Number;
    NumberBack(x);
    NumberBack(y);
  }

  /** Two tiles whose first rows agree in all words but one draw the same number only if those rows are the same. */
  lemma NextDrawBinds(seed: bv64, step: nat, a: Snippet, b: Snippet, w: nat)
    requires w < 8 && SameButFor(a, b, w) && NextDraw(seed, step, a) == NextDraw(seed, step, b)
    ensures a == b
  {
    hide Mix64, Folded, StepKey, SameButFor, Xor, Number;
    var x, y := Xor(StepKey(seed, step), Folded(a, 8)), Xor(StepKey(seed, step), Folded(b, 8));
    NumberInjective(Mix64(x), Mix64(y));
    MixInjective(x, y);
    XorCancels(StepKey(seed, step), Folded(a, 8), Folded(b, 8));
    FoldBinds(a, b, w);
  }

  /** Different seeds draw different first numbers. */
  lemma FirstDrawBinds(a: bv64, b: bv64)
    requires FirstDraw(a) == FirstDraw(b)
    ensures a == b
  {
    hide Mix64, Xor, Number;
    var x, y := Xor(a, OFFSET_FIRST_SALT), Xor(b, OFFSET_FIRST_SALT);
    NumberInjective(Mix64(x), Mix64(y));
    MixInjective(x, y);
    XorCancels(OFFSET_FIRST_SALT, a, b);
  }

  /** The mixer every miner and node uses. */
  function KeryxMixer(): Mixer {
    hide *;
    Mixer(
      seed => FirstDraw(seed),
      (seed, step, snippet) => NextDraw(seed, step, snippet),
      seed => Rows(seed, 32),
      (dot, step, x, j) => Rho8(AsU32(dot), RhoTweak(AsU32(step), AsU32(x), AsU32(j))))
  }
}
