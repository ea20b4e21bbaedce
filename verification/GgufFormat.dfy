/** The GGUF file structure as its specification writes it, and what the parser makes of such files. */
module GgufFormat {
  import opened Wrappers
  import opened ByteOrder
  import opened Gguf

  // ----- values -----

  datatype Value = Scalar(vt: nat, bytes: seq<u8>) | Text(bytes: seq<u8>) | Array(elem: nat, items: seq<Value>)

  function TypeOf(v: Value): nat {
    match v
    case Scalar(vt, _) => vt
    case Text(_) => STRING
    case Array(_, _) => ARRAY
  }

  ghost predicate TextOk(utf8: seq<u8> -> bool, bytes: seq<u8>) { |bytes| <= MAX_STRING && utf8(bytes) }

  ghost predicate ValueOk(utf8: seq<u8> -> bool, v: Value) {
    match v
    case Scalar(vt, bytes) => Size(vt) > 0 && |bytes| == Size(vt)
    case Text(bytes) => TextOk(utf8, bytes)
    case Array(elem, items) =>
      elem < U32_LIMIT && |items| < U64_LIMIT && forall i :: 0 <= i < |items| ==> TypeOf(items[i]) == elem && ValueOk(utf8, items[i])
  }

  /** Arrays that are walked nest at most `depth` deep in `v`. */
  ghost predicate Fits(v: Value, depth: nat)
    decreases depth
  {
    v.Array? && Size(v.elem) == 0 ==> depth > 0 && forall i :: 0 <= i < |v.items| ==> Fits(v.items[i], depth - 1)
  }

  function EncodeText(bytes: seq<u8>): seq<u8> { LittleEndian(|bytes|, 8) + bytes }

  function Encode(v: Value): seq<u8>
    decreases v, 0
  {
    match v
    case Scalar(_, bytes) => bytes
    case Text(bytes) => EncodeText(bytes)
    case Array(elem, items) => LittleEndian(elem, 4) + (LittleEndian(|items|, 8) + EncodeAll(items))
  }

  function EncodeAll(items: seq<Value>): seq<u8>
    decreases items, 1
  {
    if items == [] then [] else Encode(items[0]) + EncodeAll(items[1..])
  }

  /** What the parser hands back of a value: unsigned 32- and 64-bit integers. */
  function Captured(v: Value): Option<nat> {
    if v.Scalar? && (v.vt == 4 || v.vt == 10) then Some(LeValue(v.bytes)) else None
  }

  // ----- bytes in place -----

  /** The file holds `bytes` at `pos`, and can be addressed by 63-bit offsets. */
  ghost predicate HasAt(src: Source, pos: nat, bytes: seq<u8>) {
    |src.data| < I63 && pos + |bytes| <= |src.data| && src.data[pos..pos + |bytes|] == bytes
  }

  lemma HasSplit(src: Source, pos: nat, a: seq<u8>, b: seq<u8>)
    requires HasAt(src, pos, a + b)
    ensures HasAt(src, pos, a) && HasAt(src, pos + |a|, b)
  {
    assert src.data[pos..pos + |a + b|][..|a|] == a;
    assert src.data[pos..pos + |a + b|][|a|..] == b;
  }

  lemma ReadsInt(src: Source, pos: nat, v: nat, width: nat)
    requires width > 0 && v < Power256(width) && HasAt(src, pos, LittleEndian(v, width))
    ensures IntAt(src, pos, width) == Good(v, pos + width)
  {
    LeRoundTrip(v, width);
  }

  lemma ReadsText(src: Source, pos: nat, bytes: seq<u8>)
    requires TextOk(src.utf8, bytes) && HasAt(src, pos, EncodeText(bytes))
    ensures StringAt(src, pos) == Good(bytes, pos + |EncodeText(bytes)|)
  {
    hide IntAt, LittleEndian;
    Limits();
    HasSplit(src, pos, LittleEndian(|bytes|, 8), bytes);
    ReadsInt(src, pos, |bytes|, 8);
  }

  // ----- skipping -----

  lemma {:induction false} FixedLength(utf8: seq<u8> -> bool, items: seq<Value>, elem: nat)
    requires Size(elem) > 0 && forall i :: 0 <= i < |items| ==> TypeOf(items[i]) == elem && ValueOk(utf8, items[i])
    ensures |EncodeAll(items)| == Size(elem) * |items|
  {
    if items != [] {
      FixedLength(utf8, items[1..], elem);
      assert items[0].Scalar?;
    }
  }

  lemma NoWrap(size: nat, n: nat)
    requires size in {1, 2, 4, 8} && size * n < I63
    ensures Wrapped(size, n) == size * n
  {
    assert n < I63;
  }

  lemma SkipsScalar(src: Source, pos: nat, v: Value, depth: nat)
    requires !v.Array? && ValueOk(src.utf8, v) && HasAt(src, pos, Encode(v))
    ensures SkipAt(src, pos, TypeOf(v), depth) == Good(Captured(v), pos + |Encode(v)|)
  {
    if v.Text? {
      ReadsText(src, pos, v.bytes);
    } else if v.vt == 4 || v.vt == 10 {
      assert Take(src, pos, Size(v.vt)).value == v.bytes;
    }
  }

  lemma ArrayParts(src: Source, pos: nat, v: Value)
    requires v.Array? && ValueOk(src.utf8, v) && HasAt(src, pos, Encode(v))
    ensures ArrayHead(src, pos) == Good((v.elem, |v.items|), pos + 12)
    ensures HasAt(src, pos + 12, EncodeAll(v.items)) && |Encode(v)| == 12 + |EncodeAll(v.items)|
  {
    hide IntAt, LittleEndian, EncodeAll;
    Limits();
    HasSplit(src, pos, LittleEndian(v.elem, 4), LittleEndian(|v.items|, 8) + EncodeAll(v.items));
    HasSplit(src, pos + 4, LittleEndian(|v.items|, 8), EncodeAll(v.items));
    ReadsInt(src, pos, v.elem, 4);
    ReadsInt(src, pos + 4, |v.items|, 8);
  }

  /** Skipping an encoded value consumes exactly its bytes, nested arrays included. */
  lemma {:induction false} SkipsValue(src: Source, pos: nat, v: Value, depth: nat)
    requires ValueOk(src.utf8, v) && Fits(v, depth) && HasAt(src, pos, Encode(v))
    ensures SkipAt(src, pos, TypeOf(v), depth) == Good(Captured(v), pos + |Encode(v)|)
    decreases v, 0
  {
    if !v.Array? {
      SkipsScalar(src, pos, v, depth);
    } else {
      ArrayParts(src, pos, v);
      if Size(v.elem) > 0 {
        FixedLength(src.utf8, v.items, v.elem);
        NoWrap(Size(v.elem), |v.items|);
      } else {
        SkipsAll(src, pos + 12, v.items, v.elem, depth - 1);
      }
    }
  }

  lemma {:induction false} SkipsAll(src: Source, pos: nat, items: seq<Value>, elem: nat, depth: nat)
    requires HasAt(src, pos, EncodeAll(items))
    requires forall i :: 0 <= i < |items| ==> TypeOf(items[i]) == elem && ValueOk(src.utf8, items[i]) && Fits(items[i], depth)
    ensures SkipMany(src, pos, elem, |items|, depth) == Good(None, pos + |EncodeAll(items)|)
    decreases items, 1
  {
    hide SkipAt, Encode, ValueOk, Fits;
    if items != [] {
      HasSplit(src, pos, Encode(items[0]), EncodeAll(items[1..]));
      SkipsValue(src, pos, items[0], depth);
      SkipsAll(src, pos + |Encode(items[0])|, items[1..], elem, depth);
    }
  }

  // ----- headers -----

  datatype Tensor = Tensor(name: seq<u8>, dims: seq<nat>, dtype: nat, offset: nat)

  datatype Kv = Kv(key: seq<u8>, value: Value)

  datatype Header = Header(version: nat, kvs: seq<Kv>, tensors: seq<Tensor>)

  function Product(dims: seq<nat>): nat {
    if dims == [] then 1 else Product(dims[..|dims| - 1]) * dims[|dims| - 1]
  }

  ghost predicate TensorOk(utf8: seq<u8> -> bool, t: Tensor) {
    && TextOk(utf8, t.name) && |t.dims| <= MAX_DIMS && t.dtype < U32_LIMIT && t.offset < U64_LIMIT
    && (forall i :: 0 <= i < |t.dims| ==> t.dims[i] < U64_LIMIT)
    && (forall i :: 0 <= i <= |t.dims| ==> Product(t.dims[..i]) < U64_LIMIT)
    && TypeLayout(t.dtype).Some? && First(t.dims) % TypeLayout(t.dtype).value.0 == 0
  }

  function First(dims: seq<nat>): nat { if dims == [] then 1 else dims[0] }

  ghost predicate KvOk(src: Source, kv: Kv) {
    TextOk(src.utf8, kv.key) && ValueOk(src.utf8, kv.value) && Fits(kv.value, src.stack)
  }

  /** A header of the format, whose arrays nest no deeper than the parser's stack holds. */
  ghost predicate HeaderOk(src: Source, h: Header) {
    && (h.version == 2 || h.version == 3) && |h.kvs| <= MAX_COUNT && |h.tensors| <= MAX_COUNT
    && (forall i :: 0 <= i < |h.kvs| ==> KvOk(src, h.kvs[i]))
    && (forall i :: 0 <= i < |h.tensors| ==> TensorOk(src.utf8, h.tensors[i]))
  }

  function EncodeKv(kv: Kv): seq<u8> { EncodeText(kv.key) + (LittleEndian(TypeOf(kv.value), 4) + Encode(kv.value)) }

  function EncodeKvs(kvs: seq<Kv>): seq<u8> { if kvs == [] then [] else EncodeKv(kvs[0]) + EncodeKvs(kvs[1..]) }

  function EncodeDims(dims: seq<nat>): seq<u8> { if dims == [] then [] else LittleEndian(dims[0], 8) + EncodeDims(dims[1..]) }

  function EncodeTensor(t: Tensor): seq<u8> {
    EncodeText(t.name) + (LittleEndian(|t.dims|, 4) + (EncodeDims(t.dims) + (LittleEndian(t.dtype, 4) + LittleEndian(t.offset, 8))))
  }

  function EncodeTensors(ts: seq<Tensor>): seq<u8> { if ts == [] then [] else EncodeTensor(ts[0]) + EncodeTensors(ts[1..]) }

  function EncodeCounts(h: Header): seq<u8> {
    LittleEndian(MAGIC, 4) + (LittleEndian(h.version, 4) + (LittleEndian(|h.tensors|, 8) + LittleEndian(|h.kvs|, 8)))
  }

  function EncodeHeader(h: Header): seq<u8> { EncodeCounts(h) + (EncodeKvs(h.kvs) + EncodeTensors(h.tensors)) }

  /** The last positive general.alignment, or the default. */
  function AlignmentOf(kvs: seq<Kv>, alignment: nat): nat {
    if kvs == [] then alignment else AlignmentOf(kvs[1..], NewAlignment(kvs[0].key, Captured(kvs[0].value), alignment))
  }

  function MetaOf(t: Tensor): TensorMeta
    requires TypeLayout(t.dtype).Some?
  {
    var (block, size) := TypeLayout(t.dtype).value;
    TensorMeta(t.offset, NBytes(Product(t.dims), block, size))
  }

  ghost function TensorsOf(utf8: seq<u8> -> bool, ts: seq<Tensor>, seen: map<seq<u8>, TensorMeta>): map<seq<u8>, TensorMeta>
    requires forall i :: 0 <= i < |ts| ==> TensorOk(utf8, ts[i])
  {
    hide TensorOk;
    if ts == [] then seen
    else (Known(utf8, ts[0]); TensorsOf(utf8, ts[1..], seen[ts[0].name := MetaOf(ts[0])]))
  }

  lemma Known(utf8: seq<u8> -> bool, t: Tensor)
    requires TensorOk(utf8, t)
    ensures TypeLayout(t.dtype).Some?
  {}

  // ----- parsing what was encoded -----

  lemma SplitKv(src: Source, pos: nat, kv: Kv)
    requires HasAt(src, pos, EncodeKv(kv))
    ensures var p := pos + |EncodeText(kv.key)|;
            && HasAt(src, pos, EncodeText(kv.key)) && HasAt(src, p, LittleEndian(TypeOf(kv.value), 4))
            && HasAt(src, p + 4, Encode(kv.value)) && p + 4 + |Encode(kv.value)| == pos + |EncodeKv(kv)|
  {
    hide HasAt, LittleEndian, Encode, EncodeText, TypeOf;
    HasSplit(src, pos, EncodeText(kv.key), LittleEndian(TypeOf(kv.value), 4) + Encode(kv.value));
    HasSplit(src, pos + |EncodeText(kv.key)|, LittleEndian(TypeOf(kv.value), 4), Encode(kv.value));
  }

  lemma ReadsKv(src: Source, pos: nat, kv: Kv, alignment: nat)
    requires KvOk(src, kv) && HasAt(src, pos, EncodeKv(kv))
    ensures KvAt(src, pos, alignment) == Good(NewAlignment(kv.key, Captured(kv.value), alignment), pos + |EncodeKv(kv)|)
  {
    hide HasAt, IntAt, StringAt, SkipAt, LittleEndian, Encode, EncodeText, EncodeKv, NewAlignment, Captured, ValueOk, Fits, TextOk, TypeOf;
    TypeFits(src.utf8, kv.value);
    Limits();
    SplitKv(src, pos, kv);
    var p := pos + |EncodeText(kv.key)|;
    ReadsText(src, pos, kv.key);
    ReadsInt(src, p, TypeOf(kv.value), 4);
    SkipsValue(src, p + 4, kv.value, src.stack);
  }

  lemma TypeFits(utf8: seq<u8> -> bool, v: Value)
    requires ValueOk(utf8, v)
    ensures TypeOf(v) < U32_LIMIT
  {}

  lemma {:induction false} ReadsKvs(src: Source, pos: nat, kvs: seq<Kv>, alignment: nat)
    requires HasAt(src, pos, EncodeKvs(kvs)) && forall i :: 0 <= i < |kvs| ==> KvOk(src, kvs[i])
    ensures KvsAt(src, pos, |kvs|, alignment) == Good(AlignmentOf(kvs, alignment), pos + |EncodeKvs(kvs)|)
    decreases |kvs|
  {
    hide KvAt, EncodeKv, KvOk, NewAlignment, Captured;
    if kvs != [] {
      HasSplit(src, pos, EncodeKv(kvs[0]), EncodeKvs(kvs[1..]));
      ReadsKv(src, pos, kvs[0], alignment);
      ReadsKvs(src, pos + |EncodeKv(kvs[0])|, kvs[1..], NewAlignment(kvs[0].key, Captured(kvs[0].value), alignment));
    }
  }

  /** Dimensions `i` and up, after the product of those before them. */
  lemma {:induction false} ReadsDims(src: Source, pos: nat, dims: seq<nat>, i: nat)
    requires i <= |dims| && HasAt(src, pos, EncodeDims(dims[i..]))
    requires forall k :: 0 <= k < |dims| ==> dims[k] < U64_LIMIT
    requires forall k :: 0 <= k <= |dims| ==> Product(dims[..k]) < U64_LIMIT
    ensures DimsAt(src, pos, i == 0, |dims| - i, if i == 0 then 1 else dims[0], Product(dims[..i]))
            == Good((First(dims), Product(dims)), pos + |EncodeDims(dims[i..])|)
    decreases |dims| - i
  {
    hide IntAt, LittleEndian;
    if i == |dims| {
      assert dims[..i] == dims;
    } else {
      Limits();
      assert dims[i..][1..] == dims[i + 1..] && dims[i..][0] == dims[i];
      HasSplit(src, pos, LittleEndian(dims[i], 8), EncodeDims(dims[i + 1..]));
      ReadsInt(src, pos, dims[i], 8);
      ProductNext(dims, i);
      ReadsDims(src, pos + 8, dims, i + 1);
    }
  }

  lemma ProductNext(dims: seq<nat>, i: nat)
    requires i < |dims|
    ensures Product(dims[..i + 1]) == Product(dims[..i]) * dims[i]
  {
    assert dims[..i + 1][..i] == dims[..i];
  }

  lemma ReadsTail(src: Source, pos: nat, t: Tensor)
    requires TensorOk(src.utf8, t) && HasAt(src, pos, LittleEndian(t.dtype, 4) + LittleEndian(t.offset, 8))
    ensures TensorTail(src, pos, First(t.dims), Product(t.dims)) == Good(MetaOf(t), pos + 12)
  {
    hide IntAt, LittleEndian, Product;
    Limits();
    HasSplit(src, pos, LittleEndian(t.dtype, 4), LittleEndian(t.offset, 8));
    ReadsInt(src, pos, t.dtype, 4);
    ReadsInt(src, pos + 4, t.offset, 8);
  }

  lemma ReadsTensor(src: Source, pos: nat, t: Tensor)
    requires TensorOk(src.utf8, t) && HasAt(src, pos, EncodeTensor(t))
    ensures TensorAt(src, pos) == Good((t.name, MetaOf(t)), pos + |EncodeTensor(t)|)
  {
    hide IntAt, StringAt, DimsAt, TensorTail, LittleEndian, EncodeText, EncodeDims, MetaOf, Product, TypeLayout, TextOk;
    Limits();
    var tail := LittleEndian(t.dtype, 4) + LittleEndian(t.offset, 8);
    HasSplit(src, pos, EncodeText(t.name), LittleEndian(|t.dims|, 4) + (EncodeDims(t.dims) + tail));
    var p := pos + |EncodeText(t.name)|;
    HasSplit(src, p, LittleEndian(|t.dims|, 4), EncodeDims(t.dims) + tail);
    HasSplit(src, p + 4, EncodeDims(t.dims), tail);
    ReadsText(src, pos, t.name);
    ReadsInt(src, p, |t.dims|, 4);
    assert t.dims[0..] == t.dims;
    NoDims(t.dims);
    ReadsDims(src, p + 4, t.dims, 0);
    ReadsTail(src, p + 4 + |EncodeDims(t.dims)|, t);
  }

  lemma NoDims(dims: seq<nat>)
    ensures Product(dims[..0]) == 1
  {}

  lemma {:induction false} ReadsTensors(src: Source, pos: nat, ts: seq<Tensor>, seen: map<seq<u8>, TensorMeta>)
    requires HasAt(src, pos, EncodeTensors(ts)) && forall i :: 0 <= i < |ts| ==> TensorOk(src.utf8, ts[i])
    ensures TensorsAt(src, pos, |ts|, seen) == Good(TensorsOf(src.utf8, ts, seen), pos + |EncodeTensors(ts)|)
    decreases |ts|
  {
    hide TensorAt, EncodeTensor, TensorOk, MetaOf, TypeLayout;
    if ts != [] {
      HasSplit(src, pos, EncodeTensor(ts[0]), EncodeTensors(ts[1..]));
      ReadsTensor(src, pos, ts[0]);
      Known(src.utf8, ts[0]);
      ReadsTensors(src, pos + |EncodeTensor(ts[0])|, ts[1..], seen[ts[0].name := MetaOf(ts[0])]);
    }
  }

  lemma ReadsCounts(src: Source, h: Header)
    requires HeaderOk(src, h) && HasAt(src, 0, EncodeCounts(h))
    ensures CountsAt(src) == Good(Counts(|h.tensors|, |h.kvs|), |EncodeCounts(h)|)
  {
    hide IntAt, LittleEndian, KvOk, TensorOk;
    Limits();
    var counts := LittleEndian(|h.tensors|, 8) + LittleEndian(|h.kvs|, 8);
    HasSplit(src, 0, LittleEndian(MAGIC, 4), LittleEndian(h.version, 4) + counts);
    HasSplit(src, 4, LittleEndian(h.version, 4), counts);
    HasSplit(src, 8, LittleEndian(|h.tensors|, 8), LittleEndian(|h.kvs|, 8));
    ReadsInt(src, 0, MAGIC, 4);
    ReadsInt(src, 4, h.version, 4);
    ReadsInt(src, 8, |h.tensors|, 8);
    ReadsInt(src, 16, |h.kvs|, 8);
  }

  /**
   A file that starts with a well-formed header parses to that header's tensors, with the parser standing
   exactly at its end and the data section at the aligned offset after it.
   */
  lemma ParsesHeader(src: Source, h: Header)
    requires HeaderOk(src, h) && HasAt(src, 0, EncodeHeader(h))
    ensures AlignmentOf(h.kvs, DEFAULT_ALIGNMENT) > 0
    ensures var end := |EncodeHeader(h)|;
            HeaderAt(src) == Good(Meta(TensorsOf(src.utf8, h.tensors, map[]), DataOffset(end, AlignmentOf(h.kvs, DEFAULT_ALIGNMENT))), end)
  {
    hide *;
    DefaultPositive();
    AlignmentPositive(h.kvs, DEFAULT_ALIGNMENT);
    SplitHeader(src, h);
    var p := |EncodeCounts(h)|;
    ReadsCounts(src, h);
    HeaderKvs(src, h);
    ReadsKvs(src, p, h.kvs, DEFAULT_ALIGNMENT);
    ReadsTensors(src, p + |EncodeKvs(h.kvs)|, h.tensors, map[]);
    HeaderFrom(src, Counts(|h.tensors|, |h.kvs|), p, AlignmentOf(h.kvs, DEFAULT_ALIGNMENT), p + |EncodeKvs(h.kvs)|,
               TensorsOf(src.utf8, h.tensors, map[]), |EncodeHeader(h)|);
  }

  lemma DefaultPositive()
    ensures DEFAULT_ALIGNMENT > 0
  {}

  lemma SplitHeader(src: Source, h: Header)
    requires HasAt(src, 0, EncodeHeader(h))
    ensures var p := |EncodeCounts(h)|;
            && HasAt(src, 0, EncodeCounts(h)) && HasAt(src, p, EncodeKvs(h.kvs))
            && HasAt(src, p + |EncodeKvs(h.kvs)|, EncodeTensors(h.tensors))
            && p + |EncodeKvs(h.kvs)| + |EncodeTensors(h.tensors)| == |EncodeHeader(h)|
  {
    hide HasAt, EncodeCounts, EncodeKvs, EncodeTensors;
    HasSplit(src, 0, EncodeCounts(h), EncodeKvs(h.kvs) + EncodeTensors(h.tensors));
    HasSplit(src, |EncodeCounts(h)|, EncodeKvs(h.kvs), EncodeTensors(h.tensors));
  }

  lemma HeaderKvs(src: Source, h: Header)
    requires HeaderOk(src, h)
    ensures forall i :: 0 <= i < |h.kvs| ==> KvOk(src, h.kvs[i])
    ensures forall i :: 0 <= i < |h.tensors| ==> TensorOk(src.utf8, h.tensors[i])
  {}

  lemma HeaderFrom(src: Source, counts: Counts, p: nat, alignment: nat, q: nat, tensors: map<seq<u8>, TensorMeta>, end: nat)
    requires CountsAt(src) == Good(counts, p) && KvsAt(src, p, counts.kvs, DEFAULT_ALIGNMENT) == Good(alignment, q)
    requires TensorsAt(src, q, counts.tensors, map[]) == Good(tensors, end) && alignment > 0
    ensures HeaderAt(src) == Good(Meta(tensors, DataOffset(end, alignment)), end)
  {
    hide CountsAt, KvsAt, TensorsAt, DataOffset;
  }

  lemma {:induction false} AlignmentPositive(kvs: seq<Kv>, alignment: nat)
    requires alignment > 0
    ensures AlignmentOf(kvs, alignment) > 0
  {
    if kvs != [] { AlignmentPositive(kvs[1..], NewAlignment(kvs[0].key, Captured(kvs[0].value), alignment)); }
  }

  /** Every tensor of a header with distinct names is found under its name, with its own offset and byte length. */
  lemma {:induction false} FindsTensor(utf8: seq<u8> -> bool, ts: seq<Tensor>, seen: map<seq<u8>, TensorMeta>, i: nat)
    requires (forall k :: 0 <= k < |ts| ==> TensorOk(utf8, ts[k])) && i < |ts|
    requires forall k :: i < k < |ts| ==> ts[k].name != ts[i].name
    ensures ts[i].name in TensorsOf(utf8, ts, seen) && TypeLayout(ts[i].dtype).Some?
    ensures TensorsOf(utf8, ts, seen)[ts[i].name] == MetaOf(ts[i])
    decreases |ts|
  {
    hide TensorOk, MetaOf, TypeLayout;
    Known(utf8, ts[0]);
    Known(utf8, ts[i]);
    var next := seen[ts[0].name := MetaOf(ts[0])];
    if i > 0 {
      assert ts[1..][i - 1] == ts[i];
      FindsTensor(utf8, ts[1..], next, i - 1);
    } else {
      KeepsOthers(utf8, ts[1..], next, ts[0].name);
    }
  }

  lemma {:induction false} KeepsOthers(utf8: seq<u8> -> bool, ts: seq<Tensor>, seen: map<seq<u8>, TensorMeta>, name: seq<u8>)
    requires (forall k :: 0 <= k < |ts| ==> TensorOk(utf8, ts[k])) && name in seen
    requires forall k :: 0 <= k < |ts| ==> ts[k].name != name
    ensures name in TensorsOf(utf8, ts, seen) && TensorsOf(utf8, ts, seen)[name] == seen[name]
    decreases |ts|
  {
    hide TensorOk, MetaOf, TypeLayout;
    if ts != [] {
      Known(utf8, ts[0]);
      KeepsOthers(utf8, ts[1..], seen[ts[0].name := MetaOf(ts[0])], name);
    }
  }

  /** The data section starts at the least multiple of the alignment at or after the header's end. */
  lemma LeastMultiple(pos: nat, alignment: nat)
    requires alignment > 0 && pos + alignment <= U64_LIMIT
    ensures var off := DataOffset(pos, alignment);
            pos <= off < pos + alignment && exists q: nat :: off == q * alignment
  {
    var q := (pos + alignment - 1) / alignment;
    var r := (pos + alignment - 1) % alignment;
    assert q * alignment + r == pos + alignment - 1;
    assert q * alignment % U64_LIMIT == q * alignment;
  }

  // ----- the length a complete file has -----

  function Saturated(x: nat): nat { if x < U64_LIMIT then x else U64_LIMIT - 1 }

  function EndOf(dataOffset: nat, t: TensorMeta): nat { Saturated(Saturated(dataOffset + t.offset) + t.nbytes) }

  /** required_file_len: the furthest tensor end, or the start of the data section when there is none. */
  method RequiredFileLen(meta: Meta) returns (len: nat)
    ensures meta.tensors == map[] ==> len == meta.dataOffset
    ensures forall n :: n in meta.tensors ==> EndOf(meta.dataOffset, meta.tensors[n]) <= len
    ensures meta.tensors != map[] ==> exists n :: n in meta.tensors && EndOf(meta.dataOffset, meta.tensors[n]) == len
  {
    if meta.tensors == map[] { return meta.dataOffset; }
    var left := meta.tensors.Keys;
    var first :| first in left;
    len := EndOf(meta.dataOffset, meta.tensors[first]);
    ghost var best := first;
    left := left - {first};
    while left != {}
      invariant left <= meta.tensors.Keys && best in meta.tensors && EndOf(meta.dataOffset, meta.tensors[best]) == len
      invariant forall n :: n in meta.tensors && n !in left ==> EndOf(meta.dataOffset, meta.tensors[n]) <= len
      decreases left
    {
      var n :| n in left;
      var end := EndOf(meta.dataOffset, meta.tensors[n]);
      if end > len { len, best := end, n; }
      left := left - {n};
    }
  }
}
