/** Skipping metadata arrays: where the one seek over fixed-size elements ends, and how deep the walk can nest. */
module GgufSeek {
  import opened Wrappers
  import opened ByteOrder
  import opened Gguf
  import opened GgufFormat

  // ----- one seek against the walk -----

  lemma {:induction false} WalkLands(src: Source, pos: nat, elem: nat, n: nat, depth: nat)
    requires Size(elem) > 0 && |src.data| < I63 && SkipMany(src, pos, elem, n, depth).Good?
    ensures SkipMany(src, pos, elem, n, depth) == Good(None, pos + Size(elem) * n)
    ensures n > 0 ==> pos + Size(elem) * n < I63
    decreases n
  {
    if n > 0 {
      var step := SkipAt(src, pos, elem, depth);
      assert step.Good? && step.pos == pos + Size(elem) && step.pos < I63;
      WalkLands(src, step.pos, elem, n - 1, depth);
      assert Size(elem) * n == Size(elem) + Size(elem) * (n - 1);
    }
  }

  /** One seek over an array of fixed-size elements ends where walking them does, whenever the walk succeeds. */
  lemma OneSeekIsWalk(src: Source, pos: nat, elem: nat, n: nat, depth: nat)
    requires Size(elem) > 0 && |src.data| < I63 && pos < I63 && SkipMany(src, pos, elem, n, depth).Good?
    ensures SeekBy(pos, Wrapped(Size(elem), n)) == SkipMany(src, pos, elem, n, depth)
  {
    hide SkipMany;
    WalkLands(src, pos, elem, n, depth);
    NoWrap(Size(elem), n);
  }

  // ----- where the seek ends -----

  lemma I64Shift(x: nat, k: nat)
    ensures I64(x - k * U64_LIMIT) == I64(x)
  {}

  lemma I64Is(x: nat)
    ensures I64(x) == if x % U64_LIMIT < I63 then x % U64_LIMIT else x % U64_LIMIT - U64_LIMIT
  {}

  /** The seek moves by the byte count modulo 2^64, read as a signed number. */
  lemma WrappedIs(size: nat, n: nat)
    requires n < U64_LIMIT
    ensures Wrapped(size, n) == I64(size * n)
  {
    var k := if n < I63 then 0 else 1;
    assert I64(n) == n - k * U64_LIMIT;
    assert size * (n - k * U64_LIMIT) == size * n - (size * k) * U64_LIMIT;
    hide I64;
    I64Shift(size * n, size * k);
  }

  /**
   An array of fixed-size elements is skipped exactly when it ends before 2^63. Otherwise the seek goes backwards,
   lands short of the array's end or is refused, each under its own condition on the byte count modulo 2^64.
   */
  lemma ArraySkipIff(src: Source, pos: nat, elem: nat, n: nat, depth: nat)
    requires ArrayHead(src, pos) == Good((elem, n), pos + 12) && Size(elem) > 0 && |src.data| < I63
    ensures var start, bytes := pos + 12, Size(elem) * n;
            var r, low := SkipAt(src, pos, ARRAY, depth), bytes % U64_LIMIT;
            && (r == Good(None, start + bytes) <==> start + bytes < I63)
            && (r.Good? && r.pos < start <==> low >= I63 && start + low >= U64_LIMIT)
            && (r.Good? && start <= r.pos < start + bytes <==> bytes >= U64_LIMIT && low < I63 && start + low < I63)
            && (r.Bad? <==> I63 <= start + low < U64_LIMIT)
            && !r.Overflow?
  {
    var bytes := Size(elem) * n;
    WrappedIs(Size(elem), n);
    hide Wrapped, Size, I64;
    I64Is(bytes);
    assert SkipAt(src, pos, ARRAY, depth) == SeekBy(pos + 12, I64(bytes));
    Quotient(bytes);
  }

  lemma Quotient(x: nat)
    ensures x % U64_LIMIT == x <==> x < U64_LIMIT
    ensures x >= U64_LIMIT ==> x % U64_LIMIT < x
  {}

  // ----- three files -----

  function Head(elem: nat, n: nat): seq<u8> { LittleEndian(elem, 4) + LittleEndian(n, 8) }

  lemma ReadsHead(src: Source, pos: nat, elem: nat, n: nat)
    requires HasAt(src, pos, Head(elem, n)) && elem < U32_LIMIT && n < U64_LIMIT
    ensures ArrayHead(src, pos) == Good((elem, n), pos + 12)
  {
    hide IntAt, LittleEndian;
    Limits();
    HasSplit(src, pos, LittleEndian(elem, 4), LittleEndian(n, 8));
    ReadsInt(src, pos, elem, 4);
    ReadsInt(src, pos + 4, n, 8);
  }

  /** 2^64 - 12 one-byte elements: the skip of the array at the start ends at the start. */
  lemma RewindingFile(utf8: seq<u8> -> bool, stack: nat, depth: nat)
    ensures SkipAt(Source(Head(0, U64_LIMIT - 12), utf8, stack), 0, ARRAY, depth) == Good(None, 0)
  {
    hide ArrayHead, LittleEndian;
    var src := Source(Head(0, U64_LIMIT - 12), utf8, stack);
    assert src.data[0..12] == src.data;
    ReadsHead(src, 0, 0, U64_LIMIT - 12);
  }

  /** 2^61 + 1 eight-byte elements, of which the file holds one: the skip succeeds right after that one, the walk fails. */
  lemma ShortFile(utf8: seq<u8> -> bool, stack: nat, depth: nat)
    ensures var n := 0x2000_0000_0000_0001;
            var src := Source(Head(10, n) + LittleEndian(0, 8), utf8, stack);
            SkipAt(src, 0, ARRAY, depth) == Good(None, 20) && SkipMany(src, 12, 10, n, depth) == Bad
  {
    hide ArrayHead, LittleEndian;
    var n := 0x2000_0000_0000_0001;
    var src := Source(Head(10, n) + LittleEndian(0, 8), utf8, stack);
    assert src.data[0..12] == Head(10, n);
    ReadsHead(src, 0, 10, n);
    assert SkipMany(src, 12, 10, n, depth) == SkipMany(src, 20, 10, n - 1, depth);
  }

  /** An array of two arrays, whose first has 2^64 - 24 one-byte elements: its skip leads back to the outer array. */
  function LoopingData(): seq<u8> { Head(ARRAY, 2) + Head(0, U64_LIMIT - 24) }

  /** Each level of nesting meets the same array at the same position again, so no stack is deep enough. */
  lemma {:induction false} LoopingFile(utf8: seq<u8> -> bool, stack: nat, depth: nat)
    ensures SkipAt(Source(LoopingData(), utf8, stack), 0, ARRAY, depth) == Overflow
    decreases depth
  {
    hide ArrayHead, LoopingData, SkipMany;
    var src := Source(LoopingData(), utf8, stack);
    LoopingHeads(src);
    if depth > 0 {
      LoopingFile(utf8, stack, depth - 1);
      BackToStart(src, depth - 1);
    }
  }

  lemma BackToStart(src: Source, depth: nat)
    requires ArrayHead(src, 12) == Good((0, U64_LIMIT - 24), 24)
    ensures SkipMany(src, 12, ARRAY, 2, depth) == SkipMany(src, 0, ARRAY, 1, depth)
    ensures SkipAt(src, 0, ARRAY, depth).Overflow? ==> SkipMany(src, 0, ARRAY, 1, depth).Overflow?
  {
    hide ArrayHead;
    assert SkipAt(src, 12, ARRAY, depth) == Good(None, 0);
  }

  lemma LoopingHeads(src: Source)
    requires src.data == LoopingData()
    ensures ArrayHead(src, 0) == Good((ARRAY, 2), 12) && ArrayHead(src, 12) == Good((0, U64_LIMIT - 24), 24)
  {
    hide ArrayHead, LittleEndian;
    assert src.data[0..12] == Head(ARRAY, 2) && src.data[12..24] == Head(0, U64_LIMIT - 24);
    ReadsHead(src, 0, ARRAY, 2);
    ReadsHead(src, 12, 0, U64_LIMIT - 24);
  }

  // ----- how much stack is enough -----

  /** No seek made while skipping the value at `pos` goes backwards. */
  ghost predicate Forward(src: Source, pos: nat, vt: nat, depth: nat)
    decreases depth, 0, 0
  {
    vt == ARRAY && ArrayHead(src, pos).Good? ==>
      var (elem, n) := ArrayHead(src, pos).value;
      if Size(elem) > 0 then Wrapped(Size(elem), n) >= 0 else depth > 0 ==> ForwardMany(src, pos + 12, elem, n, depth - 1)
  }

  ghost predicate ForwardMany(src: Source, pos: nat, vt: nat, n: nat, depth: nat)
    decreases depth, 1, n
  {
    n > 0 ==>
      && Forward(src, pos, vt, depth)
      && (SkipAt(src, pos, vt, depth).Good? ==> ForwardMany(src, SkipAt(src, pos, vt, depth).pos, vt, n - 1, depth))
  }

  /** A file that is only read forwards needs one level of stack for every twelve bytes. */
  lemma {:induction false} StackSuffices(src: Source, pos: nat, vt: nat, depth: nat)
    requires Forward(src, pos, vt, depth) && |src.data| < pos + 12 * (depth + 1)
    ensures var r := SkipAt(src, pos, vt, depth); !r.Overflow? && (r.Good? ==> r.pos >= pos)
    decreases depth, 0, 0
  {
    hide ScalarAt, IntAt, Wrapped, Size;
    if vt == ARRAY && ArrayHead(src, pos).Good? {
      var (elem, n) := ArrayHead(src, pos).value;
      if Size(elem) == 0 { StackSufficesMany(src, pos + 12, elem, n, depth - 1); }
    }
  }

  lemma {:induction false} StackSufficesMany(src: Source, pos: nat, vt: nat, n: nat, depth: nat)
    requires ForwardMany(src, pos, vt, n, depth) && |src.data| < pos + 12 * (depth + 1)
    ensures var r := SkipMany(src, pos, vt, n, depth); !r.Overflow? && (r.Good? ==> r.pos >= pos)
    decreases depth, 1, n
  {
    hide SkipAt, Forward;
    if n > 0 {
      StackSuffices(src, pos, vt, depth);
      var r := SkipAt(src, pos, vt, depth);
      if r.Good? { StackSufficesMany(src, r.pos, vt, n - 1, depth); }
    }
  }

  /** A skip that fits one stack has the same result on every deeper one. */
  lemma {:induction false} DeeperAgrees(src: Source, pos: nat, vt: nat, depth: nat, deeper: nat)
    requires depth <= deeper && !SkipAt(src, pos, vt, depth).Overflow?
    ensures SkipAt(src, pos, vt, deeper) == SkipAt(src, pos, vt, depth)
    decreases depth, 0, 0
  {
    hide ScalarAt, IntAt, Wrapped, Size, SeekBy;
    if vt == ARRAY && ArrayHead(src, pos).Good? {
      var (elem, n) := ArrayHead(src, pos).value;
      if Size(elem) == 0 { DeeperAgreesMany(src, pos + 12, elem, n, depth - 1, deeper - 1); }
    }
  }

  lemma {:induction false} DeeperAgreesMany(src: Source, pos: nat, vt: nat, n: nat, depth: nat, deeper: nat)
    requires depth <= deeper && !SkipMany(src, pos, vt, n, depth).Overflow?
    ensures SkipMany(src, pos, vt, n, deeper) == SkipMany(src, pos, vt, n, depth)
    decreases depth, 1, n
  {
    hide SkipAt;
    if n > 0 {
      DeeperAgrees(src, pos, vt, depth, deeper);
      var r := SkipAt(src, pos, vt, depth);
      if r.Good? { DeeperAgreesMany(src, r.pos, vt, n - 1, depth, deeper); }
    }
  }
}
