/** The signed dot product of the v4 walk: one reference loop and three lane-parallel forms. */
module PomDot {
  /** A byte read as a signed 8-bit number. */
  function I8(b: nat): int { if b < 128 then b else b - 256 }

  /** The number between -128 and 127 with these eight bits. */
  lemma SignedByte(b: nat)
    requires b < 256
    ensures -128 <= I8(b) <= 127 && (I8(b) - b) % 256 == 0
  {}

  predicate Bytes(s: seq<nat>) { forall i :: 0 <= i < |s| ==> s[i] < 256 }

  const M: int := 0x8000_0000

  /** 32-bit two's complement. */
  function Wrap32(x: int): int {
    if -M <= x < M then x else (x + M) % (2 * M) - M
  }

  lemma WrapIs(x: int)
    ensures -M <= Wrap32(x) < M && (Wrap32(x) - x) % 0x1_0000_0000 == 0
  {}

  function Add(a: int, b: int): int { Wrap32(a + b) }

  function Sum(p: seq<int>): int {
    if p == [] then 0 else Sum(p[..|p| - 1]) + p[|p| - 1]
  }

  function Prod(x: nat, y: nat): int { I8(x) * I8(y) }

  /** The products of a row and a column, entry by entry. */
  function Products(row: seq<nat>, col: seq<nat>): (p: seq<int>)
    requires |row| == |col|
    ensures |p| == |row|
  {
    seq(|row|, i requires 0 <= i < |row| => Prod(row[i], col[i]))
  }

  function Dot(row: seq<nat>, col: seq<nat>): int
    requires |row| == |col|
  {
    Sum(Products(row, col))
  }

  predicate Small(p: seq<int>) { forall i :: 0 <= i < |p| ==> -16384 <= p[i] <= 16384 }

  lemma ProductBound(x: int, y: int)
    requires -128 <= x <= 127 && -128 <= y <= 127
    ensures -16384 <= x * y <= 16384
  {
    if x >= 0 && y >= 0 {
      MulBound(x, y);
    } else if x >= 0 {
      MulBound(x, -y);
      assert x * y == -(x * -y);
    } else if y >= 0 {
      MulBound(-x, y);
      assert x * y == -(-x * y);
    } else {
      MulBound(-x, -y);
      assert x * y == -x * -y;
    }
  }

  lemma MulBound(a: nat, b: nat)
    requires a <= 128 && b <= 128
    ensures 0 <= a * b <= 16384
  {
    assert a * b <= 128 * b;
  }

  lemma ProductsSmall(row: seq<nat>, col: seq<nat>)
    requires |row| == |col| && Bytes(row) && Bytes(col)
    ensures Small(Products(row, col))
  {
    forall i | 0 <= i < |row|
      ensures -16384 <= Products(row, col)[i] <= 16384
    {
      ProductBound(I8(row[i]), I8(col[i]));
    }
  }

  lemma {:induction false} SumBound(p: seq<int>)
    requires Small(p)
    ensures -16384 * |p| <= Sum(p) <= 16384 * |p|
  {
    if p != [] { SumBound(p[..|p| - 1]); }
  }

  lemma SumStep(p: seq<int>, n: nat)
    requires n < |p|
    ensures Sum(p[..n + 1]) == Sum(p[..n]) + p[n]
  {
    assert p[..n + 1][..n] == p[..n];
  }

  lemma SumFour(p: seq<int>, n: nat)
    requires n + 4 <= |p|
    ensures Sum(p[..n + 4]) == Sum(p[..n]) + p[n] + p[n + 1] + p[n + 2] + p[n + 3]
  {
    hide Sum;
    SumStep(p, n);
    SumStep(p, n + 1);
    SumStep(p, n + 2);
    SumStep(p, n + 3);
  }

  lemma SumEight(p: seq<int>, n: nat)
    requires n + 8 <= |p|
    ensures Sum(p[..n + 8]) == Sum(p[..n]) + Eight(p, n)
  {
    hide Sum;
    SumFour(p, n);
    SumFour(p, n + 4);
  }

  function Eight(p: seq<int>, n: nat): int
    requires n + 8 <= |p|
  {
    p[n] + p[n + 1] + p[n + 2] + p[n + 3] + p[n + 4] + p[n + 5] + p[n + 6] + p[n + 7]
  }

  lemma SumOf32(p: seq<int>)
    requires |p| == 32
    ensures Sum(p) == Eight(p, 0) + Eight(p, 8) + Eight(p, 16) + Eight(p, 24)
  {
    hide Eight;
    assert p[..32] == p && p[..0] == [];
    SumEight(p, 0);
    SumEight(p, 8);
    SumEight(p, 16);
    SumEight(p, 24);
  }

  /** No 32-entry dot product of bytes leaves +-524288, so no partial sum wraps. */
  lemma DotBound(row: seq<nat>, col: seq<nat>)
    requires |row| == |col| == 32 && Bytes(row) && Bytes(col)
    ensures -524288 <= Dot(row, col) <= 524288 && Wrap32(Dot(row, col)) == Dot(row, col)
  {
    ProductsSmall(row, col);
    SumBound(Products(row, col));
  }

  /** dot_i8_scalar: eight wrapping accumulations a round. */
  method DotScalar(row: seq<nat>, col: seq<nat>) returns (acc: int)
    requires |row| == |col| == 32 && Bytes(row) && Bytes(col)
    ensures acc == Dot(row, col)
  {
    ghost var p := Products(row, col);
    ProductsSmall(row, col);
    hide Sum, Prod;
    acc := 0;
    var i := 0;
    assert p[..0] == [];
    SumNone();
    while i < 32
      invariant i in {0, 8, 16, 24, 32} && acc == Sum(p[..i])
    {
      SumBound(p[..i]);
      SumEight(p, i);
      acc := AccumulateEight(acc, row, col, i);
      i := i + 8;
    }
    assert p[..32] == p;
  }

  method AccumulateEight(start: int, row: seq<nat>, col: seq<nat>, i: nat) returns (acc: int)
    requires |row| == |col| == 32 && i + 8 <= 32 && Small(Products(row, col)) && -524288 <= start <= 524288
    ensures acc == start + Eight(Products(row, col), i)
  {
    hide Prod;
    assert forall k :: 0 <= k < 32 ==> Products(row, col)[k] == Prod(row[k], col[k]);
    acc := Add(start, Prod(row[i], col[i]));
    acc := Add(acc, Prod(row[i + 1], col[i + 1]));
    acc := Add(acc, Prod(row[i + 2], col[i + 2]));
    acc := Add(acc, Prod(row[i + 3], col[i + 3]));
    acc := Add(acc, Prod(row[i + 4], col[i + 4]));
    acc := Add(acc, Prod(row[i + 5], col[i + 5]));
    acc := Add(acc, Prod(row[i + 6], col[i + 6]));
    acc := Add(acc, Prod(row[i + 7], col[i + 7]));
  }

  lemma SumNone()
    ensures Sum([]) == 0
  {}

  // ----- lanes -----

  datatype Lanes = Lanes(a: int, b: int, c: int, d: int)

  function AddLanes(x: Lanes, y: Lanes): Lanes {
    Lanes(Add(x.a, y.a), Add(x.b, y.b), Add(x.c, y.c), Add(x.d, y.d))
  }

  /** Multiply-add of adjacent pairs: four 32-bit lanes from eight products. */
  function Madd(p: seq<int>, n: nat): Lanes
    requires n + 8 <= |p|
  {
    Lanes(Add(p[n], p[n + 1]), Add(p[n + 2], p[n + 3]), Add(p[n + 4], p[n + 5]), Add(p[n + 6], p[n + 7]))
  }

  /** Add the upper half onto the lower, then the second lane onto the first. */
  function Reduce(x: Lanes): int {
    var y := AddLanes(x, Lanes(x.c, x.d, 0, 0));
    AddLanes(y, Lanes(y.b, y.c, y.d, 0)).a
  }

  predicate Bounded(x: Lanes, n: int) {
    && -n <= x.a <= n && -n <= x.b <= n && -n <= x.c <= n && -n <= x.d <= n
  }

  function Total(x: Lanes): int { x.a + x.b + x.c + x.d }

  lemma AddLanesExact(x: Lanes, y: Lanes, m: int, n: int)
    requires 0 <= m && 0 <= n && Bounded(x, m) && Bounded(y, n) && m + n <= 524288
    ensures Bounded(AddLanes(x, y), m + n) && Total(AddLanes(x, y)) == Total(x) + Total(y)
  {}

  lemma MaddExact(p: seq<int>, n: nat)
    requires n + 8 <= |p| && Small(p)
    ensures Bounded(Madd(p, n), 32768) && Total(Madd(p, n)) == Eight(p, n)
  {}

  lemma ReduceExact(x: Lanes)
    requires Bounded(x, 131072)
    ensures Reduce(x) == Total(x)
  {}

  /** dot_i8_avx2: two halves of eight lanes each, then the two halves of the register. */
  function DotAvx2(p: seq<int>): int
    requires |p| == 32
  {
    var low := AddLanes(Madd(p, 0), Madd(p, 16));
    var high := AddLanes(Madd(p, 8), Madd(p, 24));
    Reduce(AddLanes(low, high))
  }

  /** dot_i8_neon: four quarters of each half, lane by lane, then across lanes. */
  function NeonHalf(p: seq<int>, n: nat): Lanes
    requires n + 16 <= |p|
  {
    AddLanes(AddLanes(Quad(p, n), Quad(p, n + 4)), AddLanes(Quad(p, n + 8), Quad(p, n + 12)))
  }

  function Quad(p: seq<int>, n: nat): Lanes
    requires n + 4 <= |p|
  {
    Lanes(p[n], p[n + 1], p[n + 2], p[n + 3])
  }

  function DotNeon(p: seq<int>): int
    requires |p| == 32
  {
    var s := AddLanes(NeonHalf(p, 0), NeonHalf(p, 16));
    Add(Add(s.a, s.b), Add(s.c, s.d))
  }

  /** dot_i8_sse41: eight bytes a round into four lanes. */
  method DotSse41(row: seq<nat>, col: seq<nat>) returns (r: int)
    requires |row| == |col| == 32 && Bytes(row) && Bytes(col)
    ensures r == Dot(row, col)
  {
    hide Sum, Small, Products;
    ProductsSmall(row, col);
    r := SumSse41(Products(row, col));
  }

  method SumSse41(p: seq<int>) returns (r: int)
    requires |p| == 32 && Small(p)
    ensures r == Sum(p)
  {
    hide *;
    var acc := Lanes(0, 0, 0, 0);
    assert p[..0] == [];
    SumNone();
    NoLanes();
    for k := 0 to 4
      invariant Bounded(acc, 32768 * k) && Total(acc) == Sum(p[..8 * k])
    {
      MaddExact(p, 8 * k);
      AddLanesExact(acc, Madd(p, 8 * k), 32768 * k, 32768);
      SumEight(p, 8 * k);
      acc := AddLanes(acc, Madd(p, 8 * k));
    }
    assert p[..32] == p;
    ReduceExact(acc);
    r := Reduce(acc);
  }

  lemma NoLanes()
    ensures Bounded(Lanes(0, 0, 0, 0), 0) && Total(Lanes(0, 0, 0, 0)) == 0
  {}

  /** The AVX2 reduction equals the reference on every input. */
  lemma Avx2IsScalar(row: seq<nat>, col: seq<nat>)
    requires |row| == |col| == 32 && Bytes(row) && Bytes(col)
    ensures DotAvx2(Products(row, col)) == Dot(row, col)
  {
    var p := Products(row, col);
    ProductsSmall(row, col);
    hide AddLanes, Madd, Reduce, Total, Sum, Bounded, Eight;
    SumOf32(p);
    MaddExact(p, 0);
    MaddExact(p, 8);
    MaddExact(p, 16);
    MaddExact(p, 24);
    AddLanesExact(Madd(p, 0), Madd(p, 16), 32768, 32768);
    AddLanesExact(Madd(p, 8), Madd(p, 24), 32768, 32768);
    AddLanesExact(AddLanes(Madd(p, 0), Madd(p, 16)), AddLanes(Madd(p, 8), Madd(p, 24)), 65536, 65536);
    ReduceExact(AddLanes(AddLanes(Madd(p, 0), Madd(p, 16)), AddLanes(Madd(p, 8), Madd(p, 24))));
  }

  lemma QuadExact(p: seq<int>, n: nat)
    requires n + 4 <= |p| && Small(p)
    ensures Bounded(Quad(p, n), 16384) && Total(Quad(p, n)) == p[n] + p[n + 1] + p[n + 2] + p[n + 3]
  {}

  lemma NeonHalfExact(p: seq<int>, n: nat)
    requires n + 16 <= |p| && Small(p)
    ensures Bounded(NeonHalf(p, n), 65536) && Total(NeonHalf(p, n)) == Eight(p, n) + Eight(p, n + 8)
  {
    QuadExact(p, n);
    QuadExact(p, n + 4);
    QuadExact(p, n + 8);
    QuadExact(p, n + 12);
    hide AddLanes, Total, Bounded, Quad;
    AddLanesExact(Quad(p, n), Quad(p, n + 4), 16384, 16384);
    AddLanesExact(Quad(p, n + 8), Quad(p, n + 12), 16384, 16384);
    AddLanesExact(AddLanes(Quad(p, n), Quad(p, n + 4)), AddLanes(Quad(p, n + 8), Quad(p, n + 12)), 32768, 32768);
  }

  lemma AcrossLanes(s: Lanes)
    requires Bounded(s, 131072)
    ensures Add(Add(s.a, s.b), Add(s.c, s.d)) == Total(s)
  {}

  /** The NEON reduction equals the reference on every input. */
  lemma NeonIsScalar(row: seq<nat>, col: seq<nat>)
    requires |row| == |col| == 32 && Bytes(row) && Bytes(col)
    ensures DotNeon(Products(row, col)) == Dot(row, col)
  {
    var p := Products(row, col);
    ProductsSmall(row, col);
    hide AddLanes, NeonHalf, Total, Sum, Bounded, Eight, Add;
    SumOf32(p);
    NeonHalfExact(p, 0);
    NeonHalfExact(p, 16);
    AddLanesExact(NeonHalf(p, 0), NeonHalf(p, 16), 65536, 65536);
    AcrossLanes(AddLanes(NeonHalf(p, 0), NeonHalf(p, 16)));
  }

  // ----- every kernel -----

  /** The instruction set the transition was dispatched to. */
  datatype Kernel = Scalar | Avx2 | Sse41 | Neon

  /** Every kernel computes the same dot product. */
  method DotWith(kernel: Kernel, row: seq<nat>, col: seq<nat>) returns (dot: int)
    requires |row| == |col| == 32 && Bytes(row) && Bytes(col)
    ensures dot == Dot(row, col)
  {
    hide DotAvx2, DotNeon, Dot, Products;
    match kernel
    case Scalar => dot := DotScalar(row, col);
    case Avx2 =>
      Avx2IsScalar(row, col);
      dot := DotAvx2(Products(row, col));
    case Sse41 => dot := DotSse41(row, col);
    case Neon =>
      NeonIsScalar(row, col);
      dot := DotNeon(Products(row, col));
  }
}
