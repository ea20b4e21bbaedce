/** What a successful parse says about the file: the bytes read are the encoding of a header. */
module GgufParsed {
  import opened Wrappers
  import opened ByteOrder
  import opened Gguf
  import opened GgufFormat

  // ----- values that lie inside the file -----

  /** Everything passed over while skipping the value at `pos` lies in the file: no seek ends past its last byte. */
  ghost predicate Inside(src: Source, pos: nat, vt: nat, depth: nat)
    decreases depth, 0, 0
  {
    if vt != ARRAY then pos + Size(vt) <= |src.data|
    else
      ArrayHead(src, pos).Good? ==>
        var (elem, n) := ArrayHead(src, pos).value;
        if Size(elem) > 0 then pos + 12 + Size(elem) * n <= |src.data|
        else depth > 0 ==> InsideMany(src, pos + 12, elem, n, depth - 1)
  }

  ghost predicate InsideMany(src: Source, pos: nat, vt: nat, n: nat, depth: nat)
    decreases depth, 1, n
  {
    n > 0 ==>
      && Inside(src, pos, vt, depth)
      && (SkipAt(src, pos, vt, depth).Good? ==> InsideMany(src, SkipAt(src, pos, vt, depth).pos, vt, n - 1, depth))
  }

  /** The same for the value of the key at `pos`. */
  ghost predicate KvInside(src: Source, pos: nat) {
    StringAt(src, pos).Good? ==>
      var p := StringAt(src, pos).pos;
      IntAt(src, p, 4).Good? ==> Inside(src, p + 4, IntAt(src, p, 4).value, src.stack)
  }

  ghost predicate KvsInside(src: Source, pos: nat, n: nat, alignment: nat)
    decreases n
  {
    n > 0 ==>
      && KvInside(src, pos)
      && (KvAt(src, pos, alignment).Good? ==>
            KvsInside(src, KvAt(src, pos, alignment).pos, n - 1, KvAt(src, pos, alignment).value))
  }

  /** No metadata value of the header runs past the end of the file. */
  ghost predicate HeaderInside(src: Source) {
    CountsAt(src).Good? ==> KvsInside(src, CountsAt(src).pos, CountsAt(src).value.kvs, DEFAULT_ALIGNMENT)
  }

  // ----- from bytes to values -----

  lemma HasJoin(src: Source, pos: nat, a: seq<u8>, b: seq<u8>)
    requires HasAt(src, pos, a) && HasAt(src, pos + |a|, b)
    ensures HasAt(src, pos, a + b)
  {
    assert src.data[pos..pos + |a + b|] == src.data[pos..pos + |a|] + src.data[pos + |a|..pos + |a| + |b|];
  }

  lemma HasNothing(src: Source, pos: nat)
    requires pos <= |src.data| < I63
    ensures HasAt(src, pos, [])
  {}

  lemma HasEnds(src: Source, pos: nat, bytes: seq<u8>)
    requires HasAt(src, pos, bytes)
    ensures pos + |bytes| <= |src.data|
  {}

  lemma HasInt(src: Source, pos: nat, width: nat)
    requires |src.data| < I63 && width > 0 && IntAt(src, pos, width).Good?
    ensures HasAt(src, pos, LittleEndian(IntAt(src, pos, width).value, width))
  {
    LeInverse(src.data[pos..pos + width]);
  }

  lemma HasText(src: Source, pos: nat)
    requires |src.data| < I63 && StringAt(src, pos).Good?
    ensures var text := StringAt(src, pos).value; TextOk(src.utf8, text) && HasAt(src, pos, EncodeText(text))
    ensures StringAt(src, pos).pos == pos + |EncodeText(StringAt(src, pos).value)|
  {
    hide IntAt, LittleEndian;
    var text := StringAt(src, pos).value;
    HasInt(src, pos, 8);
    assert HasAt(src, pos + 8, text);
    HasJoin(src, pos, LittleEndian(|text|, 8), text);
  }

  lemma HasHead(src: Source, pos: nat)
    requires |src.data| < I63 && ArrayHead(src, pos).Good?
    ensures var (elem, n) := ArrayHead(src, pos).value;
            elem < U32_LIMIT && n < U64_LIMIT && HasAt(src, pos, LittleEndian(elem, 4)) && HasAt(src, pos + 4, LittleEndian(n, 8))
  {
    hide IntAt, LittleEndian;
    Limits();
    HasInt(src, pos, 4);
    HasInt(src, pos + 4, 8);
  }

  /** `items` are values of type `elem`, and their encodings follow each other at `pos`. */
  ghost predicate ItemsAt(src: Source, pos: nat, elem: nat, items: seq<Value>, depth: nat) {
    && HasAt(src, pos, EncodeAll(items))
    && forall i :: 0 <= i < |items| ==> TypeOf(items[i]) == elem && ValueOk(src.utf8, items[i]) && Fits(items[i], depth)
  }

  lemma ItemsCons(src: Source, pos: nat, elem: nat, v: Value, items: seq<Value>, depth: nat)
    requires TypeOf(v) == elem && ValueOk(src.utf8, v) && Fits(v, depth) && HasAt(src, pos, Encode(v))
    requires ItemsAt(src, pos + |Encode(v)|, elem, items, depth)
    ensures ItemsAt(src, pos, elem, [v] + items, depth)
  {
    hide HasAt, Encode, ValueOk, Fits, TypeOf;
    HasJoin(src, pos, Encode(v), EncodeAll(items));
    assert ([v] + items)[1..] == items;
  }

  lemma NoItems(src: Source, pos: nat, elem: nat, depth: nat)
    requires pos <= |src.data| < I63
    ensures ItemsAt(src, pos, elem, [], depth)
  {}

  lemma {:induction false} FixedBehind(src: Source, pos: nat, elem: nat, n: nat, depth: nat) returns (items: seq<Value>)
    requires Size(elem) > 0 && pos + Size(elem) * n <= |src.data| < I63
    ensures |items| == n && ItemsAt(src, pos, elem, items, depth)
    decreases n
  {
    if n == 0 {
      items := [];
    } else {
      var size := Size(elem);
      assert size * n == size + size * (n - 1);
      var v := Scalar(elem, src.data[pos..pos + size]);
      var rest := FixedBehind(src, pos + size, elem, n - 1, depth);
      ItemsCons(src, pos, elem, v, rest, depth);
      items := [v] + rest;
    }
  }

  /** A value that was skipped inside the file is the encoding of a value. */
  lemma {:induction false} ValueBehind(src: Source, pos: nat, vt: nat, depth: nat) returns (v: Value)
    requires |src.data| < I63 && SkipAt(src, pos, vt, depth).Good? && Inside(src, pos, vt, depth)
    ensures TypeOf(v) == vt && ValueOk(src.utf8, v) && Fits(v, depth) && HasAt(src, pos, Encode(v))
    ensures SkipAt(src, pos, vt, depth) == Good(Captured(v), pos + |Encode(v)|)
    decreases depth, 0, 0
  {
    if vt != ARRAY {
      v := ScalarBehind(src, pos, vt);
    } else {
      var (elem, n) := ArrayHead(src, pos).value;
      var items;
      if Size(elem) > 0 {
        items := FixedBehind(src, pos + 12, elem, n, if depth == 0 then 0 else depth - 1);
      } else {
        items := ItemsBehind(src, pos + 12, elem, n, depth - 1);
      }
      v := Array(elem, items);
      ArrayBehind(src, pos, elem, items, if depth == 0 then 0 else depth - 1);
    }
    SkipsValue(src, pos, v, depth);
  }

  lemma ArrayBehind(src: Source, pos: nat, elem: nat, items: seq<Value>, depth: nat)
    requires |src.data| < I63 && ArrayHead(src, pos) == Good((elem, |items|), pos + 12)
    requires ItemsAt(src, pos + 12, elem, items, depth)
    ensures ValueOk(src.utf8, Array(elem, items)) && HasAt(src, pos, Encode(Array(elem, items)))
    ensures Fits(Array(elem, items), depth + 1)
    ensures Size(elem) > 0 ==> Fits(Array(elem, items), 0)
  {
    hide HasAt, ArrayHead, LittleEndian, EncodeAll;
    HasHead(src, pos);
    HasJoin(src, pos + 4, LittleEndian(|items|, 8), EncodeAll(items));
    HasJoin(src, pos, LittleEndian(elem, 4), LittleEndian(|items|, 8) + EncodeAll(items));
  }

  lemma ScalarBehind(src: Source, pos: nat, vt: nat) returns (v: Value)
    requires |src.data| < I63 && ScalarAt(src, pos, vt).Good? && pos + Size(vt) <= |src.data|
    ensures !v.Array? && TypeOf(v) == vt && ValueOk(src.utf8, v) && HasAt(src, pos, Encode(v))
  {
    hide StringAt;
    if vt == STRING {
      HasText(src, pos);
      v := Text(StringAt(src, pos).value);
    } else {
      v := Scalar(vt, src.data[pos..pos + Size(vt)]);
    }
  }

  lemma {:induction false} ItemsBehind(src: Source, pos: nat, elem: nat, n: nat, depth: nat) returns (items: seq<Value>)
    requires pos <= |src.data| < I63 && SkipMany(src, pos, elem, n, depth).Good? && InsideMany(src, pos, elem, n, depth)
    ensures |items| == n && ItemsAt(src, pos, elem, items, depth)
    decreases depth, 1, n
  {
    hide HasAt, ItemsAt, SkipAt, Inside, Encode, ValueOk, Fits, TypeOf;
    if n == 0 {
      items := [];
      NoItems(src, pos, elem, depth);
    } else {
      var v := ValueBehind(src, pos, elem, depth);
      HasEnds(src, pos, Encode(v));
      var rest := ItemsBehind(src, pos + |Encode(v)|, elem, n - 1, depth);
      ItemsCons(src, pos, elem, v, rest, depth);
      items := [v] + rest;
    }
  }

  // ----- from values to bytes -----

  lemma {:induction false} ValueInside(src: Source, pos: nat, v: Value, depth: nat)
    requires ValueOk(src.utf8, v) && Fits(v, depth) && HasAt(src, pos, Encode(v))
    ensures Inside(src, pos, TypeOf(v), depth)
    decreases v, 0
  {
    if v.Array? {
      ArrayParts(src, pos, v);
      if Size(v.elem) > 0 {
        FixedLength(src.utf8, v.items, v.elem);
      } else {
        ItemsInside(src, pos + 12, v.items, v.elem, depth - 1);
      }
    } else if v.Text? {
      assert Size(STRING) == 0;
    }
  }

  lemma {:induction false} ItemsInside(src: Source, pos: nat, items: seq<Value>, elem: nat, depth: nat)
    requires ItemsAt(src, pos, elem, items, depth)
    ensures InsideMany(src, pos, elem, |items|, depth)
    decreases items, 1
  {
    hide HasAt, SkipAt, Inside, Encode, ValueOk, Fits, TypeOf;
    if items != [] {
      HasSplit(src, pos, Encode(items[0]), EncodeAll(items[1..]));
      SkipsValue(src, pos, items[0], depth);
      ValueInside(src, pos, items[0], depth);
      ItemsInside(src, pos + |Encode(items[0])|, items[1..], elem, depth);
    }
  }

  // ----- keys -----

  lemma KvBehind(src: Source, pos: nat, alignment: nat) returns (kv: Kv)
    requires |src.data| < I63 && KvAt(src, pos, alignment).Good? && KvInside(src, pos)
    ensures KvOk(src, kv) && HasAt(src, pos, EncodeKv(kv))
    ensures KvAt(src, pos, alignment) == Good(NewAlignment(kv.key, Captured(kv.value), alignment), pos + |EncodeKv(kv)|)
  {
    hide HasAt, IntAt, StringAt, SkipAt, Inside, LittleEndian, Encode, EncodeText, NewAlignment, Captured, ValueOk, Fits, TextOk, TypeOf;
    var key, p := StringAt(src, pos).value, StringAt(src, pos).pos;
    HasText(src, pos);
    HasInt(src, p, 4);
    var v := ValueBehind(src, p + 4, IntAt(src, p, 4).value, src.stack);
    kv := Kv(key, v);
    HasJoin(src, p, LittleEndian(TypeOf(v), 4), Encode(v));
    HasJoin(src, pos, EncodeText(key), LittleEndian(TypeOf(v), 4) + Encode(v));
    ReadsKv(src, pos, kv, alignment);
  }

  lemma {:induction false} KvsBehind(src: Source, pos: nat, n: nat, alignment: nat) returns (kvs: seq<Kv>)
    requires pos <= |src.data| < I63 && KvsAt(src, pos, n, alignment).Good? && KvsInside(src, pos, n, alignment)
    ensures |kvs| == n && HasAt(src, pos, EncodeKvs(kvs)) && forall i :: 0 <= i < n ==> KvOk(src, kvs[i])
    decreases n
  {
    hide HasAt, KvAt, KvInside, EncodeKv, KvOk, NewAlignment, Captured;
    if n == 0 {
      kvs := [];
      HasNothing(src, pos);
    } else {
      var kv := KvBehind(src, pos, alignment);
      HasEnds(src, pos, EncodeKv(kv));
      var rest := KvsBehind(src, pos + |EncodeKv(kv)|, n - 1, NewAlignment(kv.key, Captured(kv.value), alignment));
      kvs := [kv] + rest;
      HasJoin(src, pos, EncodeKv(kv), EncodeKvs(rest));
      EncodeKvsCons(kv, rest);
    }
  }

  lemma EncodeKvsCons(kv: Kv, rest: seq<Kv>)
    ensures EncodeKvs([kv] + rest) == EncodeKv(kv) + EncodeKvs(rest)
  {
    hide EncodeKv;
    assert ([kv] + rest)[1..] == rest;
  }

  lemma {:induction false} EncodedInside(src: Source, pos: nat, kvs: seq<Kv>, alignment: nat)
    requires HasAt(src, pos, EncodeKvs(kvs)) && forall i :: 0 <= i < |kvs| ==> KvOk(src, kvs[i])
    ensures KvsInside(src, pos, |kvs|, alignment)
    decreases |kvs|
  {
    hide KvAt, KvInside, EncodeKv, KvOk, NewAlignment, Captured;
    if kvs != [] {
      HasSplit(src, pos, EncodeKv(kvs[0]), EncodeKvs(kvs[1..]));
      ReadsKv(src, pos, kvs[0], alignment);
      KvEncodedInside(src, pos, kvs[0]);
      EncodedInside(src, pos + |EncodeKv(kvs[0])|, kvs[1..], NewAlignment(kvs[0].key, Captured(kvs[0].value), alignment));
    }
  }

  lemma KvEncodedInside(src: Source, pos: nat, kv: Kv)
    requires KvOk(src, kv) && HasAt(src, pos, EncodeKv(kv))
    ensures KvInside(src, pos)
  {
    hide HasAt, IntAt, StringAt, Inside, LittleEndian, Encode, EncodeText, EncodeKv, ValueOk, Fits, TextOk, TypeOf;
    Limits();
    TypeFits(src.utf8, kv.value);
    SplitKv(src, pos, kv);
    ReadsText(src, pos, kv.key);
    ReadsInt(src, pos + |EncodeText(kv.key)|, TypeOf(kv.value), 4);
    ValueInside(src, pos + |EncodeText(kv.key)| + 4, kv.value, src.stack);
  }

  // ----- tensors -----

  ghost predicate DimsOk(dims: seq<nat>) {
    && (forall i :: 0 <= i < |dims| ==> dims[i] < U64_LIMIT)
    && (forall i :: 0 <= i <= |dims| ==> Product(dims[..i]) < U64_LIMIT)
  }

  lemma DimsSnoc(dims: seq<nat>, ne: nat)
    requires DimsOk(dims) && ne < U64_LIMIT && Product(dims) * ne < U64_LIMIT
    ensures DimsOk(dims + [ne]) && Product(dims + [ne]) == Product(dims) * ne
  {
    var all := dims + [ne];
    assert all[..|dims|] == dims;
    forall i | 0 <= i <= |all| ensures Product(all[..i]) < U64_LIMIT {
      if i <= |dims| { assert all[..i] == dims[..i]; } else { assert all[..i] == all; }
    }
  }

  /** The dimensions read after `before`. */
  lemma {:induction false} DimsBehind(src: Source, pos: nat, before: seq<nat>, left: nat) returns (dims: seq<nat>)
    requires pos <= |src.data| < I63 && DimsOk(before)
    requires DimsAt(src, pos, before == [], left, First(before), Product(before)).Good?
    ensures |dims| == |before| + left && before == dims[..|before|] && DimsOk(dims)
    ensures HasAt(src, pos, EncodeDims(dims[|before|..]))
    decreases left
  {
    hide IntAt, LittleEndian, DimsOk, Product;
    if left == 0 {
      dims := before;
      assert dims[|before|..] == [];
    } else {
      var ne := IntAt(src, pos, 8).value;
      Limits();
      HasInt(src, pos, 8);
      DimsSnoc(before, ne);
      dims := DimsBehind(src, pos + 8, before + [ne], left - 1);
      var rest := dims[|before| + 1..];
      assert dims[..|before|] == dims[..|before| + 1][..|before|] == before;
      assert dims[|before|] == dims[..|before| + 1][|before|] == ne;
      assert dims[|before|..] == [ne] + rest;
      HasJoin(src, pos, LittleEndian(ne, 8), EncodeDims(rest));
      assert dims[|before|..][1..] == rest;
    }
  }

  lemma TensorBehind(src: Source, pos: nat) returns (t: Tensor)
    requires |src.data| < I63 && TensorAt(src, pos).Good?
    ensures TensorOk(src.utf8, t) && HasAt(src, pos, EncodeTensor(t)) && TypeLayout(t.dtype).Some?
    ensures TensorAt(src, pos) == Good((t.name, MetaOf(t)), pos + |EncodeTensor(t)|)
  {
    hide HasAt, IntAt, StringAt, DimsAt, DimsOk, EncodeTensor, EncodeDims, TypeLayout, Product;
    var name, p := StringAt(src, pos).value, StringAt(src, pos).pos;
    var dims := TensorDims(src, pos);
    var q := p + 4 + |EncodeDims(dims)|;
    t := Tensor(name, dims, IntAt(src, q, 4).value, IntAt(src, q + 4, 8).value);
    TensorParts(src, pos, t);
    ReadsTensor(src, pos, t);
  }

  /** The dimensions of the tensor at `pos`, and where they end. */
  lemma TensorDims(src: Source, pos: nat) returns (dims: seq<nat>)
    requires |src.data| < I63 && TensorAt(src, pos).Good?
    ensures var p := StringAt(src, pos).pos;
            && IntAt(src, p, 4) == Good(|dims|, p + 4) && |dims| <= MAX_DIMS && DimsOk(dims) && HasAt(src, p + 4, EncodeDims(dims))
            && TensorTail(src, p + 4 + |EncodeDims(dims)|, First(dims), Product(dims)).Good?
  {
    hide IntAt, DimsOk, Product, LittleEndian, TensorTail, EncodeDims, First;
    var p := StringAt(src, pos).pos;
    var n := IntAt(src, p, 4).value;
    NoDimsOk();
    dims := DimsBehind(src, p + 4, [], n);
    assert dims[0..] == dims;
    DimsRead(src, p + 4, dims);
  }

  lemma NoDimsOk()
    ensures DimsOk([]) && First([]) == 1 && Product([]) == 1
  {}

  lemma DimsRead(src: Source, pos: nat, dims: seq<nat>)
    requires DimsOk(dims) && HasAt(src, pos, EncodeDims(dims))
    ensures DimsAt(src, pos, true, |dims|, 1, 1) == Good((First(dims), Product(dims)), pos + |EncodeDims(dims)|)
  {
    hide DimsAt, HasAt, EncodeDims;
    assert dims[0..] == dims;
    NoDims(dims);
    ReadsDims(src, pos, dims, 0);
  }

  lemma TensorParts(src: Source, pos: nat, t: Tensor)
    requires |src.data| < I63 && StringAt(src, pos).Good? && StringAt(src, pos).value == t.name
    requires var p := StringAt(src, pos).pos;
             && IntAt(src, p, 4) == Good(|t.dims|, p + 4) && |t.dims| <= MAX_DIMS && DimsOk(t.dims) && HasAt(src, p + 4, EncodeDims(t.dims))
             && var q := p + 4 + |EncodeDims(t.dims)|;
             && TensorTail(src, q, First(t.dims), Product(t.dims)).Good?
             && t.dtype == IntAt(src, q, 4).value && t.offset == IntAt(src, q + 4, 8).value
    ensures TensorOk(src.utf8, t) && HasAt(src, pos, EncodeTensor(t))
  {
    hide HasAt, IntAt, StringAt, LittleEndian, EncodeText, EncodeDims, Product, TypeLayout, TextOk;
    Limits();
    var p := StringAt(src, pos).pos;
    var q := p + 4 + |EncodeDims(t.dims)|;
    HasText(src, pos);
    HasInt(src, p, 4);
    HasInt(src, q, 4);
    HasInt(src, q + 4, 8);
    var tail := LittleEndian(t.dtype, 4) + LittleEndian(t.offset, 8);
    HasJoin(src, q, LittleEndian(t.dtype, 4), LittleEndian(t.offset, 8));
    HasJoin(src, p + 4, EncodeDims(t.dims), tail);
    HasJoin(src, p, LittleEndian(|t.dims|, 4), EncodeDims(t.dims) + tail);
    HasJoin(src, pos, EncodeText(t.name), LittleEndian(|t.dims|, 4) + (EncodeDims(t.dims) + tail));
  }

  lemma {:induction false} TensorsBehind(src: Source, pos: nat, n: nat, seen: map<seq<u8>, TensorMeta>) returns (ts: seq<Tensor>)
    requires pos <= |src.data| < I63 && TensorsAt(src, pos, n, seen).Good?
    ensures |ts| == n && HasAt(src, pos, EncodeTensors(ts)) && forall i :: 0 <= i < n ==> TensorOk(src.utf8, ts[i])
    decreases n
  {
    hide HasAt, TensorAt, EncodeTensor, TensorOk, MetaOf, TypeLayout;
    if n == 0 {
      ts := [];
      HasNothing(src, pos);
    } else {
      var t := TensorBehind(src, pos);
      HasEnds(src, pos, EncodeTensor(t));
      var rest := TensorsBehind(src, pos + |EncodeTensor(t)|, n - 1, seen[t.name := MetaOf(t)]);
      ts := [t] + rest;
      HasJoin(src, pos, EncodeTensor(t), EncodeTensors(rest));
      EncodeTensorsCons(t, rest);
    }
  }

  lemma EncodeTensorsCons(t: Tensor, rest: seq<Tensor>)
    ensures EncodeTensors([t] + rest) == EncodeTensor(t) + EncodeTensors(rest)
  {
    hide EncodeTensor;
    assert ([t] + rest)[1..] == rest;
  }

  // ----- headers -----

  lemma CountsBehind(src: Source) returns (version: nat)
    requires |src.data| < I63 && CountsAt(src).Good?
    ensures version == 2 || version == 3
    ensures var c := CountsAt(src).value;
            && c.tensors <= MAX_COUNT && c.kvs <= MAX_COUNT && CountsAt(src).pos == 24 <= |src.data|
            && HasAt(src, 0, LittleEndian(MAGIC, 4)) && HasAt(src, 4, LittleEndian(version, 4))
            && HasAt(src, 8, LittleEndian(c.tensors, 8)) && HasAt(src, 16, LittleEndian(c.kvs, 8))
  {
    hide IntAt, LittleEndian;
    version := IntAt(src, 4, 4).value;
    HasInt(src, 0, 4);
    HasInt(src, 4, 4);
    HasInt(src, 8, 8);
    HasInt(src, 16, 8);
  }

  lemma HasCounts(src: Source, h: Header)
    requires HasAt(src, 0, LittleEndian(MAGIC, 4)) && HasAt(src, 4, LittleEndian(h.version, 4))
    requires HasAt(src, 8, LittleEndian(|h.tensors|, 8)) && HasAt(src, 16, LittleEndian(|h.kvs|, 8))
    ensures HasAt(src, 0, EncodeCounts(h)) && |EncodeCounts(h)| == 24
  {
    hide HasAt, LittleEndian;
    HasJoin(src, 8, LittleEndian(|h.tensors|, 8), LittleEndian(|h.kvs|, 8));
    HasJoin(src, 4, LittleEndian(h.version, 4), LittleEndian(|h.tensors|, 8) + LittleEndian(|h.kvs|, 8));
    HasJoin(src, 0, LittleEndian(MAGIC, 4), LittleEndian(h.version, 4) + (LittleEndian(|h.tensors|, 8) + LittleEndian(|h.kvs|, 8)));
  }

  lemma HeaderBehind(src: Source) returns (h: Header)
    requires |src.data| < I63 && HeaderAt(src).Good? && HeaderInside(src)
    ensures HeaderOk(src, h) && HasAt(src, 0, EncodeHeader(h))
  {
    hide HasAt, CountsAt, KvsAt, TensorsAt, KvsInside, KvOk, TensorOk, EncodeCounts, EncodeKvs, EncodeTensors, LittleEndian;
    var counts := CountsAt(src).value;
    var version := CountsBehind(src);
    var kvs := KvsBehind(src, 24, counts.kvs, DEFAULT_ALIGNMENT);
    ReadsKvs(src, 24, kvs, DEFAULT_ALIGNMENT);
    HasEnds(src, 24, EncodeKvs(kvs));
    var q := 24 + |EncodeKvs(kvs)|;
    var tensors := TensorsBehind(src, q, counts.tensors, map[]);
    h := Header(version, kvs, tensors);
    HasCounts(src, h);
    HasJoin(src, 24, EncodeKvs(kvs), EncodeTensors(tensors));
    HasJoin(src, 0, EncodeCounts(h), EncodeKvs(kvs) + EncodeTensors(tensors));
  }

  /** The file starts with a header of the format. */
  ghost predicate StartsWithHeader(src: Source) { exists h :: HeaderOk(src, h) && HasAt(src, 0, EncodeHeader(h)) }

  /**
   The parser succeeds on a file, with no metadata value running past its end, exactly when the file starts with
   a header of the format.
   */
  lemma ParsesIff(src: Source)
    requires |src.data| < I63
    ensures HeaderAt(src).Good? && HeaderInside(src) <==> StartsWithHeader(src)
  {
    hide HeaderAt, HeaderInside, HasAt, HeaderOk, EncodeHeader;
    if HeaderAt(src).Good? && HeaderInside(src) {
      var h := HeaderBehind(src);
    }
    if StartsWithHeader(src) {
      var h :| HeaderOk(src, h) && HasAt(src, 0, EncodeHeader(h));
      ParsesHeader(src, h);
      EncodedHeaderInside(src, h);
    }
  }

  lemma EncodedHeaderInside(src: Source, h: Header)
    requires HeaderOk(src, h) && HasAt(src, 0, EncodeHeader(h))
    ensures HeaderInside(src)
  {
    hide HasAt, CountsAt, KvsInside, KvOk, TensorOk, EncodeHeader, EncodeCounts, EncodeKvs, EncodeTensors;
    SplitHeader(src, h);
    ReadsCounts(src, h);
    EncodedInside(src, |EncodeCounts(h)|, h.kvs, DEFAULT_ALIGNMENT);
  }
}
