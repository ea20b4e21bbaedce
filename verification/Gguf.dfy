/** The GGUF header parser: what it computes from the bytes, position by position. */
module Gguf {
  import opened Wrappers
  import opened ByteOrder

  const I63: nat := 0x8000_0000_0000_0000
  const MAGIC: nat := 0x4655_4747
  const MAX_STRING: nat := 0x400_0000
  const MAX_COUNT: nat := 1_000_000
  const MAX_DIMS: nat := 8
  const DEFAULT_ALIGNMENT: nat := 32
  const ARRAY: nat := 9
  const STRING: nat := 8

  /** A file's bytes, which byte strings are UTF-8, and how many nested arrays the parser's stack holds. */
  datatype Source = Source(data: seq<u8>, utf8: seq<u8> -> bool, stack: nat)

  /** `Overflow`: arrays nest deeper than the stack holds. */
  datatype Res<+T> = Good(value: T, pos: nat) | Bad | Overflow

  // ----- reading -----

  /** Exactly `n` bytes; a position past the end is no error until something is read there. */
  function Take(src: Source, pos: nat, n: nat): (r: Res<seq<u8>>)
    ensures r.Good? ==> |r.value| == n && r.pos == pos + n
    ensures r.Good? && n > 0 ==> r.pos <= |src.data|
  {
    if n == 0 then Good([], pos) else if pos + n <= |src.data| then Good(src.data[pos..pos + n], pos + n) else Bad
  }

  function IntAt(src: Source, pos: nat, width: nat): (r: Res<nat>)
    requires width > 0
    ensures !r.Overflow? && (r.Good? ==> r.pos == pos + width <= |src.data| && r.value < Power256(width))
  {
    match Take(src, pos, width)
    case Good(bytes, next) => LeBound(bytes); Good(LeValue(bytes), next)
    case _ => Bad
  }

  function StringAt(src: Source, pos: nat): (r: Res<seq<u8>>)
    ensures !r.Overflow? && (r.Good? ==> r.pos >= pos + 8)
  {
    match IntAt(src, pos, 8)
    case Good(len, next) =>
      if len > MAX_STRING then Bad
      else if Take(src, next, len).Good? && src.utf8(Take(src, next, len).value) then Take(src, next, len) else Bad
    case _ => Bad
  }

  /** A seek may go backwards, and past the end up to 2^63; not before the start. */
  function SeekBy(pos: nat, delta: int): (r: Res<Option<nat>>)
    ensures !r.Overflow?
  {
    if 0 <= pos + delta < I63 then Good(None, pos + delta) else Bad
  }

  // ----- metadata values -----

  /** Bytes of a fixed-size value type; 0 for strings, arrays and unknown types. */
  function Size(vt: nat): nat {
    if vt in {0, 1, 7} then 1 else if vt in {2, 3} then 2 else if vt in {4, 5, 6} then 4 else if vt in {10, 11, 12} then 8 else 0
  }

  /** Two's complement on 64 bits. */
  function I64(x: int): int { (x + I63) % U64_LIMIT - I63 }

  /** `size * n as i64`. */
  function Wrapped(size: nat, n: nat): int { I64(size * I64(n)) }

  function Erase<T>(r: Res<T>): Res<Option<nat>> {
    match r
    case Good(_, pos) => Good(None, pos)
    case Bad => Bad
    case Overflow => Overflow
  }

  /** 32- and 64-bit unsigned values are read, other fixed-size ones skipped. */
  function ScalarAt(src: Source, pos: nat, vt: nat): (r: Res<Option<nat>>)
    ensures !r.Overflow? && (r.Good? ==> r.pos >= pos)
  {
    if vt == STRING then Erase(StringAt(src, pos))
    else if vt == 4 || vt == 10 then
      match IntAt(src, pos, Size(vt))
      case Good(v, next) => Good(Some(v), next)
      case _ => Bad
    else if Size(vt) > 0 then SeekBy(pos, Size(vt))
    else Bad
  }

  /** skip_value, with room for `depth` nested arrays on the stack. */
  function SkipAt(src: Source, pos: nat, vt: nat, depth: nat): Res<Option<nat>>
    decreases depth, 0, 0
  {
    if vt != ARRAY then ScalarAt(src, pos, vt)
    else
      match ArrayHead(src, pos)
      case Good((elem, n), next) =>
        if Size(elem) > 0 then SeekBy(next, Wrapped(Size(elem), n))
        else if depth == 0 then Overflow
        else SkipMany(src, next, elem, n, depth - 1)
      case _ => Bad
  }

  /** Element type and count. */
  function ArrayHead(src: Source, pos: nat): (r: Res<(nat, nat)>)
    ensures !r.Overflow? && (r.Good? ==> r.pos == pos + 12 <= |src.data| && r.value.1 < U64_LIMIT)
  {
    Limits();
    match IntAt(src, pos, 4)
    case Good(elem, p) =>
      (match IntAt(src, p, 8)
       case Good(n, q) => Good((elem, n), q)
       case _ => Bad)
    case _ => Bad
  }

  /** `n` values of one type, one after the other. */
  function SkipMany(src: Source, pos: nat, vt: nat, n: nat, depth: nat): Res<Option<nat>>
    decreases depth, 1, n
  {
    if n == 0 then Good(None, pos)
    else
      match SkipAt(src, pos, vt, depth)
      case Good(_, next) => SkipMany(src, next, vt, n - 1, depth)
      case other => other
  }

  // ----- the header -----

  /** (block size, type size) of the known tensor types. */
  function TypeLayout(dtype: nat): (r: Option<(nat, nat)>)
    ensures r.Some? ==> r.value.0 > 0 && r.value.1 > 0
  {
    match dtype
    case 0 => Some((1, 4)) case 1 => Some((1, 2)) case 2 => Some((32, 18)) case 3 => Some((32, 20))
    case 6 => Some((32, 22)) case 7 => Some((32, 24)) case 8 => Some((32, 34)) case 9 => Some((32, 36))
    case 10 => Some((256, 84)) case 11 => Some((256, 110)) case 12 => Some((256, 144)) case 13 => Some((256, 176))
    case 14 => Some((256, 210)) case 15 => Some((256, 292)) case 20 => Some((32, 18)) case 23 => Some((256, 136))
    case 24 => Some((1, 1)) case 25 => Some((1, 2)) case 26 => Some((1, 4)) case 27 => Some((1, 8))
    case 28 => Some((1, 8)) case 30 => Some((1, 2))
    case _ => None
  }

  /** "general.alignment" */
  const ALIGNMENT_KEY: seq<u8> := [103, 101, 110, 101, 114, 97, 108, 46, 97, 108, 105, 103, 110, 109, 101, 110, 116]

  function NewAlignment(key: seq<u8>, value: Option<nat>, alignment: nat): nat {
    if key == ALIGNMENT_KEY && value.Some? && value.value > 0 then value.value else alignment
  }

  /** One key and its value, as the alignment after it. */
  function KvAt(src: Source, pos: nat, alignment: nat): (r: Res<nat>)
    ensures alignment > 0 && r.Good? ==> r.value > 0
  {
    match StringAt(src, pos)
    case Good(key, p) =>
      (match IntAt(src, p, 4)
       case Good(vt, q) =>
         (match SkipAt(src, q, vt, src.stack)
          case Good(value, next) => Good(NewAlignment(key, value, alignment), next)
          case Bad => Bad
          case Overflow => Overflow)
       case _ => Bad)
    case _ => Bad
  }

  function KvsAt(src: Source, pos: nat, n: nat, alignment: nat): (r: Res<nat>)
    ensures alignment > 0 && r.Good? ==> r.value > 0
    decreases n
  {
    hide KvAt;
    if n == 0 then Good(alignment, pos)
    else
      match KvAt(src, pos, alignment)
      case Good(next, p) => KvsAt(src, p, n - 1, next)
      case other => other
  }

  /** `left` more dimensions after those that multiply to `product`; the first dimension is `ne0`. */
  function DimsAt(src: Source, pos: nat, first: bool, left: nat, ne0: nat, product: nat): Res<(nat, nat)>
    decreases left
  {
    hide IntAt;
    if left == 0 then Good((ne0, product), pos)
    else
      match IntAt(src, pos, 8)
      case Good(ne, p) =>
        if product * ne >= U64_LIMIT then Bad
        else DimsAt(src, p, false, left - 1, if first then ne else ne0, product * ne)
      case _ => Bad
  }

  datatype TensorMeta = TensorMeta(offset: nat, nbytes: nat)

  /** Byte length of a tensor: whole blocks only, in 64-bit arithmetic. */
  function NBytes(elements: nat, block: nat, size: nat): nat
    requires block > 0
  {
    elements / block * size % U64_LIMIT
  }

  function TensorTail(src: Source, pos: nat, ne0: nat, elements: nat): Res<TensorMeta> {
    match IntAt(src, pos, 4)
    case Good(dtype, p) =>
      (match IntAt(src, p, 8)
       case Good(offset, q) =>
         (match TypeLayout(dtype)
          case Some((block, size)) => if ne0 % block != 0 then Bad else Good(TensorMeta(offset, NBytes(elements, block, size)), q)
          case None => Bad)
       case _ => Bad)
    case _ => Bad
  }

  function TensorAt(src: Source, pos: nat): Res<(seq<u8>, TensorMeta)> {
    hide TensorTail, DimsAt, IntAt;
    match StringAt(src, pos)
    case Good(name, p) =>
      (match IntAt(src, p, 4)
       case Good(nDims, q) =>
         if nDims > MAX_DIMS then Bad
         else
           (match DimsAt(src, q, true, nDims, 1, 1)
            case Good((ne0, elements), t) =>
              (match TensorTail(src, t, ne0, elements)
               case Good(meta, next) => Good((name, meta), next)
               case _ => Bad)
            case _ => Bad)
       case _ => Bad)
    case _ => Bad
  }

  /** A later tensor of the same name replaces an earlier one. */
  function TensorsAt(src: Source, pos: nat, n: nat, seen: map<seq<u8>, TensorMeta>): Res<map<seq<u8>, TensorMeta>>
    decreases n
  {
    hide TensorAt;
    if n == 0 then Good(seen, pos)
    else
      match TensorAt(src, pos)
      case Good((name, meta), next) => TensorsAt(src, next, n - 1, seen[name := meta])
      case _ => Bad
  }

  datatype Meta = Meta(tensors: map<seq<u8>, TensorMeta>, dataOffset: nat)

  /** `pos.div_ceil(alignment) * alignment` on 64 bits. */
  function DataOffset(pos: nat, alignment: nat): nat
    requires alignment > 0
  {
    (pos + alignment - 1) / alignment * alignment % U64_LIMIT
  }

  datatype Counts = Counts(tensors: nat, kvs: nat)

  function CountsAt(src: Source): Res<Counts> {
    match IntAt(src, 0, 4)
    case Good(magic, p) =>
      if magic != MAGIC then Bad
      else
        (match IntAt(src, p, 4)
         case Good(version, q) =>
           if version != 2 && version != 3 then Bad
           else
             (match IntAt(src, q, 8)
              case Good(tensors, t) =>
                (match IntAt(src, t, 8)
                 case Good(kvs, next) =>
                   if tensors > MAX_COUNT || kvs > MAX_COUNT then Bad else Good(Counts(tensors, kvs), next)
                 case _ => Bad)
              case _ => Bad)
         case _ => Bad)
    case _ => Bad
  }

  /** read_header. */
  function HeaderAt(src: Source): Res<Meta> {
    hide CountsAt, KvsAt, TensorsAt, DataOffset;
    match CountsAt(src)
    case Good(counts, p) =>
      (match KvsAt(src, p, counts.kvs, DEFAULT_ALIGNMENT)
       case Good(alignment, q) =>
         (match TensorsAt(src, q, counts.tensors, map[])
          case Good(tensors, pos) => Good(Meta(tensors, DataOffset(pos, alignment)), pos)
          case _ => Bad)
       case Bad => Bad
       case Overflow => Overflow)
    case _ => Bad
  }

  // ----- the parser -----

  class Reader {
    const src: Source
    var pos: nat

    constructor (src: Source)
      ensures this.src == src && pos == 0
    {
      this.src := src;
      pos := 0;
    }

    method ReadExact(n: nat) returns (r: Res<seq<u8>>)
      modifies this
      ensures r == Take(src, old(pos), n) && (r.Good? ==> pos == r.pos)
    {
      r := Take(src, pos, n);
      if r.Good? { pos := r.pos; }
    }

    method ReadInt(width: nat) returns (r: Res<nat>)
      requires width > 0
      modifies this
      ensures r == IntAt(src, old(pos), width) && (r.Good? ==> pos == r.pos)
    {
      var b := ReadExact(width);
      if !b.Good? { return Bad; }
      LeBound(b.value);
      r := Good(LeValue(b.value), pos);
    }

    method ReadString() returns (r: Res<seq<u8>>)
      modifies this
      ensures r == StringAt(src, old(pos)) && (r.Good? ==> pos == r.pos)
    {
      hide IntAt;
      var len := ReadInt(8);
      if !len.Good? || len.value > MAX_STRING { return Bad; }
      r := ReadExact(len.value);
      if !r.Good? || !src.utf8(r.value) { return Bad; }
    }

    method SeekRelative(delta: int) returns (r: Res<Option<nat>>)
      modifies this
      ensures r == SeekBy(old(pos), delta) && (r.Good? ==> pos == r.pos)
    {
      r := SeekBy(pos, delta);
      if r.Good? { pos := r.pos; }
    }

    method SkipScalar(vt: nat) returns (r: Res<Option<nat>>)
      modifies this
      ensures r == ScalarAt(src, old(pos), vt) && (r.Good? ==> pos == r.pos)
    {
      hide IntAt, StringAt, SeekBy;
      if vt == STRING {
        var s := ReadString();
        r := Erase(s);
      } else if vt == 4 || vt == 10 {
        var v := ReadInt(Size(vt));
        r := if v.Good? then Good(Some(v.value), pos) else Bad;
      } else if Size(vt) > 0 {
        r := SeekRelative(Size(vt));
      } else {
        r := Bad;
      }
    }

    /** skip_value: one seek for arrays of fixed-size elements, a walk for strings and nested arrays. */
    method SkipValue(vt: nat, depth: nat) returns (r: Res<Option<nat>>)
      modifies this
      ensures r == SkipAt(src, old(pos), vt, depth) && (r.Good? ==> pos == r.pos)
      decreases depth, 0
    {
      hide IntAt, ScalarAt, SeekBy, Wrapped;
      if vt != ARRAY {
        r := SkipScalar(vt);
        return;
      }
      var elem := ReadInt(4);
      if !elem.Good? { return Bad; }
      var n := ReadInt(8);
      if !n.Good? { return Bad; }
      if Size(elem.value) > 0 {
        r := SeekRelative(Wrapped(Size(elem.value), n.value));
      } else if depth == 0 {
        r := Overflow;
      } else {
        r := SkipItems(elem.value, n.value, depth - 1);
      }
    }

    method SkipItems(elem: nat, n: nat, depth: nat) returns (r: Res<Option<nat>>)
      modifies this
      ensures r == SkipMany(src, old(pos), elem, n, depth) && (r.Good? ==> pos == r.pos)
      decreases depth, 1
    {
      for i := 0 to n
        invariant SkipMany(src, old(pos), elem, n, depth) == SkipMany(src, pos, elem, n - i, depth)
      {
        r := SkipValue(elem, depth);
        if !r.Good? { return; }
      }
      r := Good(None, pos);
    }

    method ReadKv(alignment: nat) returns (r: Res<nat>)
      modifies this
      ensures r == KvAt(src, old(pos), alignment) && (r.Good? ==> pos == r.pos)
    {
      hide IntAt, StringAt, SkipAt;
      var key := ReadString();
      if !key.Good? { return Bad; }
      var vt := ReadInt(4);
      if !vt.Good? { return Bad; }
      var v := SkipValue(vt.value, src.stack);
      match v
      case Good(value, _) => r := Good(NewAlignment(key.value, value, alignment), pos);
      case Bad => r := Bad;
      case Overflow => r := Overflow;
    }

    method ReadDims(nDims: nat) returns (r: Res<(nat, nat)>)
      modifies this
      ensures r == DimsAt(src, old(pos), true, nDims, 1, 1) && (r.Good? ==> pos == r.pos)
    {
      hide IntAt;
      var elements: nat, ne0: nat := 1, 1;
      for d := 0 to nDims
        invariant DimsAt(src, old(pos), true, nDims, 1, 1) == DimsAt(src, pos, d == 0, nDims - d, ne0, elements)
      {
        var ne := ReadInt(8);
        if !ne.Good? { return Bad; }
        if d == 0 { ne0 := ne.value; }
        if elements * ne.value >= U64_LIMIT { return Bad; }
        elements := elements * ne.value;
      }
      r := Good((ne0, elements), pos);
    }

    method ReadTensor() returns (r: Res<(seq<u8>, TensorMeta)>)
      modifies this
      ensures r == TensorAt(src, old(pos)) && (r.Good? ==> pos == r.pos)
    {
      hide IntAt, StringAt, DimsAt;
      var name := ReadString();
      if !name.Good? { return Bad; }
      var nDims := ReadInt(4);
      if !nDims.Good? || nDims.value > MAX_DIMS { return Bad; }
      var dims := ReadDims(nDims.value);
      if !dims.Good? { return Bad; }
      var meta := ReadTensorTail(dims.value.0, dims.value.1);
      if !meta.Good? { return Bad; }
      r := Good((name.value, meta.value), pos);
    }

    method ReadTensorTail(ne0: nat, elements: nat) returns (r: Res<TensorMeta>)
      modifies this
      ensures r == TensorTail(src, old(pos), ne0, elements) && (r.Good? ==> pos == r.pos)
    {
      hide IntAt, TypeLayout, NBytes;
      var dtype := ReadInt(4);
      if !dtype.Good? { return Bad; }
      var offset := ReadInt(8);
      if !offset.Good? { return Bad; }
      var layout := TypeLayout(dtype.value);
      if layout.None? { return Bad; }
      var (block, size) := layout.value;
      if ne0 % block != 0 { return Bad; }
      r := Good(TensorMeta(offset.value, NBytes(elements, block, size)), pos);
    }

    method ReadCounts() returns (r: Res<Counts>)
      requires pos == 0
      modifies this
      ensures r == CountsAt(src) && (r.Good? ==> pos == r.pos)
    {
      hide IntAt;
      var magic := ReadInt(4);
      if !magic.Good? || magic.value != MAGIC { return Bad; }
      var version := ReadInt(4);
      if !version.Good? || (version.value != 2 && version.value != 3) { return Bad; }
      var tensors := ReadInt(8);
      if !tensors.Good? { return Bad; }
      var kvs := ReadInt(8);
      if !kvs.Good? || tensors.value > MAX_COUNT || kvs.value > MAX_COUNT { return Bad; }
      r := Good(Counts(tensors.value, kvs.value), pos);
    }

    method ReadHeader() returns (r: Res<Meta>)
      modifies this
      ensures r == HeaderAt(src) && (r.Good? ==> pos == r.pos)
    {
      hide CountsAt, KvAt, TensorAt, DataOffset;
      pos := 0;
      var counts := ReadCounts();
      if !counts.Good? { return Bad; }
      var alignment: nat := DEFAULT_ALIGNMENT;
      ghost var start := pos;
      for i := 0 to counts.value.kvs
        invariant alignment > 0
        invariant KvsAt(src, start, counts.value.kvs, DEFAULT_ALIGNMENT) == KvsAt(src, pos, counts.value.kvs - i, alignment)
      {
        var kv := ReadKv(alignment);
        match kv
        case Bad => return Bad;
        case Overflow => return Overflow;
        case Good(value, _) => alignment := value;
      }
      var tensors: map<seq<u8>, TensorMeta> := map[];
      start := pos;
      for i := 0 to counts.value.tensors
        invariant TensorsAt(src, start, counts.value.tensors, map[]) == TensorsAt(src, pos, counts.value.tensors - i, tensors)
      {
        var t := ReadTensor();
        if !t.Good? { return Bad; }
        tensors := tensors[t.value.0 := t.value.1];
      }
      r := Good(Meta(tensors, DataOffset(pos, alignment)), pos);
    }
  }
}
