/** What a parsed GGUF header means: the byte length of every tensor and the start of the data section, from first principles. */
module GgufMeaning {
  import opened Wrappers
  import opened ByteOrder
  import Positional
  import opened Gguf
  import opened GgufFormat

  // ----- blocks -----

  /** A block of weights of some bits each, with the bytes of its scales, minima and sums. */
  datatype Block = Block(weights: nat, bits: nat, scales: nat)

  /** The blocks of GGML's tensor types, part by part. */
  function Parts(dtype: nat): Option<Block> {
    match dtype
    case 0 => Some(Block(1, 32, 0))              // F32
    case 1 => Some(Block(1, 16, 0))              // F16
    case 2 => Some(Block(32, 4, 2))              // Q4_0: half-precision scale
    case 3 => Some(Block(32, 4, 2 + 2))          // Q4_1: scale and minimum
    case 6 => Some(Block(32, 5, 2))              // Q5_0
    case 7 => Some(Block(32, 5, 2 + 2))          // Q5_1
    case 8 => Some(Block(32, 8, 2))              // Q8_0
    case 9 => Some(Block(32, 8, 2 + 2))          // Q8_1: scale and sum
    case 10 => Some(Block(256, 2, 16 + 2 + 2))   // Q2_K: 16 scale bytes, two half-precision factors
    case 11 => Some(Block(256, 3, 12 + 2))       // Q3_K
    case 12 => Some(Block(256, 4, 12 + 2 + 2))   // Q4_K
    case 13 => Some(Block(256, 5, 12 + 2 + 2))   // Q5_K
    case 14 => Some(Block(256, 6, 16 + 2))       // Q6_K
    case 15 => Some(Block(256, 8, 4 + 16 * 2))   // Q8_K: single-precision scale, 16 sums of two bytes
    case 20 => Some(Block(32, 4, 2))             // IQ4_NL
    case 23 => Some(Block(256, 4, 2 + 2 + 4))    // IQ4_XS
    case 24 => Some(Block(1, 8, 0))              // I8
    case 25 => Some(Block(1, 16, 0))             // I16
    case 26 => Some(Block(1, 32, 0))             // I32
    case 27 => Some(Block(1, 64, 0))             // I64
    case 28 => Some(Block(1, 64, 0))             // F64
    case 30 => Some(Block(1, 16, 0))             // BF16
    case _ => None
  }

  function BlockBytes(b: Block): nat { b.weights * b.bits / 8 + b.scales }

  /** The parser's table lists exactly these types, each with its block's weights and bytes. */
  lemma LayoutIs(dtype: nat)
    ensures TypeLayout(dtype) == if Parts(dtype).Some? then Some((Parts(dtype).value.weights, BlockBytes(Parts(dtype).value))) else None
  {}

  /** Bytes of the value types, by their names in the GGUF specification; none for strings (8) and arrays (9). */
  function Width(vt: nat): Option<nat> {
    match vt
    case 0 => Some(1)   // uint8
    case 1 => Some(1)   // int8
    case 2 => Some(2)   // uint16
    case 3 => Some(2)   // int16
    case 4 => Some(4)   // uint32
    case 5 => Some(4)   // int32
    case 6 => Some(4)   // float32
    case 7 => Some(1)   // bool
    case 10 => Some(8)  // uint64
    case 11 => Some(8)  // int64
    case 12 => Some(8)  // float64
    case _ => None
  }

  /** The scalars of the format are those of these types and widths; texts have type 8 and arrays type 9. */
  lemma ScalarsAre(utf8: seq<u8> -> bool, v: Value)
    ensures v.Scalar? ==> (ValueOk(utf8, v) <==> Width(v.vt) == Some(|v.bytes|))
    ensures v.Text? ==> TypeOf(v) == 8 && (ValueOk(utf8, v) <==> |v.bytes| <= 64 * 1024 * 1024 && utf8(v.bytes))
    ensures v.Array? ==> TypeOf(v) == 9
  {}

  /** A header is of version 2 or 3 and counts at most a million tensors and keys; it starts with "GGUF" and its version. */
  lemma HeadersAre(src: Source, h: Header)
    ensures HeaderOk(src, h) <==>
              && h.version in {2, 3} && |h.tensors| <= 1_000_000 && |h.kvs| <= 1_000_000
              && (forall i :: 0 <= i < |h.kvs| ==> KvOk(src, h.kvs[i]))
              && (forall i :: 0 <= i < |h.tensors| ==> TensorOk(src.utf8, h.tensors[i]))
    ensures |EncodeCounts(h)| == 24 && EncodeCounts(h)[..4] == Ascii("GGUF")
    ensures h.version < 256 ==> EncodeCounts(h)[4..8] == [h.version, 0, 0, 0]
  {
    MagicIs();
    if h.version < 256 { SmallNumber(h.version); }
    hide LittleEndian, Ascii, KvOk, TensorOk;
  }

  /** A tensor has a short UTF-8 name, at most 8 dimensions whose products fit 64 bits, and a known type with rows of whole blocks. */
  lemma TensorsAre(utf8: seq<u8> -> bool, t: Tensor)
    ensures TensorOk(utf8, t) <==>
              && |t.name| <= 64 * 1024 * 1024 && utf8(t.name) && |t.dims| <= 8 && t.dtype < U32_LIMIT && t.offset < U64_LIMIT
              && (forall i :: 0 <= i < |t.dims| ==> t.dims[i] < U64_LIMIT)
              && (forall i :: 0 <= i <= |t.dims| ==> Product(t.dims[..i]) < U64_LIMIT)
              && Parts(t.dtype).Some? && (if t.dims == [] then 1 else t.dims[0]) % Parts(t.dtype).value.weights == 0
  {
    LayoutIs(t.dtype);
    hide TypeLayout, BlockBytes, Product;
  }

  lemma MagicIs()
    ensures LittleEndian(MAGIC, 4) == Ascii("GGUF")
  {
    var bytes := LittleEndian(MAGIC, 4);
    assert bytes == [MAGIC % 256] + LittleEndian(MAGIC / 256, 3);
    assert LittleEndian(MAGIC / 256, 3) == [MAGIC / 256 % 256] + LittleEndian(MAGIC / 256 / 256, 2);
    assert LittleEndian(MAGIC / 256 / 256, 2) == [MAGIC / 256 / 256 % 256] + LittleEndian(MAGIC / 256 / 256 / 256, 1);
  }

  lemma SmallNumber(n: nat)
    requires n < 256
    ensures LittleEndian(n, 4) == [n, 0, 0, 0]
  {
    assert LittleEndian(n, 4) == [n] + LittleEndian(0, 3);
    assert LittleEndian(0, 3) == [0] + ([0] + LittleEndian(0, 1));
  }

  // ----- byte lengths -----

  lemma {:induction false} ProductFirst(dims: seq<nat>) returns (rest: nat)
    ensures Product(dims) == First(dims) * rest
    decreases |dims|
  {
    if |dims| <= 1 {
      rest := 1;
      if |dims| == 1 { assert dims[..0] == []; }
    } else {
      var front, last := dims[..|dims| - 1], dims[|dims| - 1];
      var r := ProductFirst(front);
      rest := r * last;
      assert First(front) * r * last == First(front) * (r * last);
    }
  }

  lemma WholeBlocks(elements: nat, first: nat, rest: nat, block: nat, size: nat) returns (bytes: nat)
    requires block > 0 && elements == first * rest && first % block == 0
    ensures bytes * block == elements * size && NBytes(elements, block, size) == bytes % U64_LIMIT
  {
    var rows := first / block;
    assert first == rows * block;
    var blocks := rows * rest;
    assert elements == blocks * block by { assert rows * block * rest == rows * rest * block; }
    Divided(blocks, block);
    bytes := blocks * size;
    assert blocks * size * block == blocks * block * size;
  }

  lemma Divided(q: nat, block: nat)
    requires block > 0
    ensures q * block / block == q
  {
    Positional.Quotient(q * block, block, q, 0);
  }

  /** The tensor is listed with its offset, and with the bytes of its blocks, counted modulo 2^64. */
  ghost predicate Listed(t: Tensor, meta: TensorMeta) {
    && Parts(t.dtype).Some? && meta.offset == t.offset
    && exists bytes: nat ::
         bytes * Parts(t.dtype).value.weights == Product(t.dims) * BlockBytes(Parts(t.dtype).value) && meta.nbytes == bytes % U64_LIMIT
  }

  lemma MetaListed(utf8: seq<u8> -> bool, t: Tensor)
    requires TensorOk(utf8, t)
    ensures TypeLayout(t.dtype).Some? && Listed(t, MetaOf(t))
  {
    LayoutIs(t.dtype);
    hide TypeLayout, Parts, BlockBytes, Product, NBytes;
    var (block, size) := TypeLayout(t.dtype).value;
    var rest := ProductFirst(t.dims);
    var bytes := WholeBlocks(Product(t.dims), First(t.dims), rest, block, size);
    assert bytes * block == Product(t.dims) * size && MetaOf(t).nbytes == bytes % U64_LIMIT;
  }

  /** In what the parser returns of a header, the last tensor of every name is listed with its offset and byte length. */
  lemma TensorListed(src: Source, h: Header, i: nat)
    requires HeaderOk(src, h) && HasAt(src, 0, EncodeHeader(h)) && i < |h.tensors|
    requires forall k :: i < k < |h.tensors| ==> h.tensors[k].name != h.tensors[i].name
    ensures HeaderAt(src).Good? && h.tensors[i].name in HeaderAt(src).value.tensors
    ensures Listed(h.tensors[i], HeaderAt(src).value.tensors[h.tensors[i].name])
  {
    hide *;
    ParsesHeader(src, h);
    HeaderKvs(src, h);
    FindsTensor(src.utf8, h.tensors, map[], i);
    MetaListed(src.utf8, h.tensors[i]);
  }

  /** A byte length below 2^64 is exact. */
  lemma ExactLength(t: Tensor, meta: TensorMeta)
    requires Listed(t, meta) && Product(t.dims) * BlockBytes(Parts(t.dtype).value) < U64_LIMIT * Parts(t.dtype).value.weights
    ensures meta.nbytes * Parts(t.dtype).value.weights == Product(t.dims) * BlockBytes(Parts(t.dtype).value)
  {
    hide Product, BlockBytes, Parts;
    var b := Parts(t.dtype).value;
    var bytes: nat :| bytes * b.weights == Product(t.dims) * BlockBytes(b) && meta.nbytes == bytes % U64_LIMIT;
    if bytes >= U64_LIMIT { Positional.MulMono(U64_LIMIT, bytes, b.weights); }
    assert bytes % U64_LIMIT == bytes;
  }

  /** required_file_len counts a tensor's end exactly, up to 2^64 - 1. */
  lemma EndIs(dataOffset: nat, t: TensorMeta)
    ensures EndOf(dataOffset, t) == if dataOffset + t.offset + t.nbytes < U64_LIMIT then dataOffset + t.offset + t.nbytes else U64_LIMIT - 1
  {}

  // ----- where the data starts -----

  /** A metadata entry that sets the alignment: this key, with a positive unsigned 32- or 64-bit integer. */
  ghost predicate SetsAlignment(kv: Kv, alignment: nat) {
    && kv.key == Ascii("general.alignment") && kv.value.Scalar? && (kv.value.vt == 4 || kv.value.vt == 10)
    && alignment == LeValue(kv.value.bytes) > 0
  }

  ghost predicate LeavesAlignment(kv: Kv) { !exists a :: SetsAlignment(kv, a) }

  lemma KeyIs()
    ensures ALIGNMENT_KEY == Ascii("general.alignment")
  {}

  lemma OneKey(kv: Kv, before: nat, a: nat)
    ensures SetsAlignment(kv, a) ==> NewAlignment(kv.key, Captured(kv.value), before) == a
    ensures LeavesAlignment(kv) ==> NewAlignment(kv.key, Captured(kv.value), before) == before
  {
    KeyIs();
    hide LeValue, Ascii;
    if LeavesAlignment(kv) && kv.value.Scalar? { assert !SetsAlignment(kv, LeValue(kv.value.bytes)); }
  }

  /** The last entry that sets the alignment decides it, */
  lemma {:induction false} LastAlignment(kvs: seq<Kv>, start: nat, i: nat, a: nat)
    requires i < |kvs| && SetsAlignment(kvs[i], a) && forall k :: i < k < |kvs| ==> LeavesAlignment(kvs[k])
    ensures AlignmentOf(kvs, start) == a
    decreases |kvs|
  {
    hide SetsAlignment, LeavesAlignment, NewAlignment, Captured;
    OneKey(kvs[0], start, a);
    var next := NewAlignment(kvs[0].key, Captured(kvs[0].value), start);
    if i == 0 {
      NoAlignment(kvs[1..], next);
    } else {
      assert kvs[1..][i - 1] == kvs[i];
      LastAlignment(kvs[1..], next, i - 1, a);
    }
  }

  /** and without one it stays as it was. */
  lemma {:induction false} NoAlignment(kvs: seq<Kv>, start: nat)
    requires forall k :: 0 <= k < |kvs| ==> LeavesAlignment(kvs[k])
    ensures AlignmentOf(kvs, start) == start
    decreases |kvs|
  {
    hide SetsAlignment, LeavesAlignment, NewAlignment, Captured;
    if kvs != [] {
      OneKey(kvs[0], start, start);
      NoAlignment(kvs[1..], start);
    }
  }

  /** The header's own alignment: the last one set, or 32. */
  ghost predicate IsAlignment(kvs: seq<Kv>, a: nat) {
    || (a == 32 && forall k :: 0 <= k < |kvs| ==> LeavesAlignment(kvs[k]))
    || exists i :: 0 <= i < |kvs| && SetsAlignment(kvs[i], a) && forall k :: i < k < |kvs| ==> LeavesAlignment(kvs[k])
  }

  /** The data section starts at the first multiple of the header's alignment at or after the header's end. */
  lemma DataStarts(src: Source, h: Header, a: nat)
    requires HeaderOk(src, h) && HasAt(src, 0, EncodeHeader(h)) && IsAlignment(h.kvs, a) && |EncodeHeader(h)| + a <= U64_LIMIT
    ensures HeaderAt(src).Good? && HeaderAt(src).pos == |EncodeHeader(h)|
    ensures var off := HeaderAt(src).value.dataOffset;
            |EncodeHeader(h)| <= off < |EncodeHeader(h)| + a && exists q: nat :: off == q * a
  {
    hide *;
    ParsesHeader(src, h);
    AlignmentIs(h.kvs, a);
    LeastMultiple(|EncodeHeader(h)|, a);
  }

  lemma AlignmentIs(kvs: seq<Kv>, a: nat)
    requires IsAlignment(kvs, a)
    ensures AlignmentOf(kvs, DEFAULT_ALIGNMENT) == a
  {
    hide SetsAlignment, LeavesAlignment, AlignmentOf;
    if i :| 0 <= i < |kvs| && SetsAlignment(kvs[i], a) && forall k :: i < k < |kvs| ==> LeavesAlignment(kvs[k]) {
      LastAlignment(kvs, DEFAULT_ALIGNMENT, i, a);
    } else {
      NoAlignment(kvs, DEFAULT_ALIGNMENT);
    }
  }
}
