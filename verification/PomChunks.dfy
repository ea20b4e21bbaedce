/** The weights as one run of 32-byte chunks, read out of the tensors of a file. */
module PomChunks {
  import opened ByteOrder

  /** Where a tensor's bytes lie in the file. */
  datatype Tensor = Tensor(offset: nat, nbytes: nat)

  /** Whole chunks only: the bytes after the last one are not part of the weights. */
  function Chunks(t: Tensor): nat { t.nbytes / 32 }

  lemma WholeChunks(t: Tensor)
    ensures 32 * Chunks(t) <= t.nbytes < 32 * Chunks(t) + 32
  {}

  /** Chunks in the tensors before the `j`-th. */
  function FirstChunk(ts: seq<Tensor>, j: nat): nat
    requires j <= |ts|
  {
    if j == 0 then 0 else FirstChunk(ts, j - 1) + Chunks(ts[j - 1])
  }

  predicate InFile(file: seq<u8>, ts: seq<Tensor>) {
    forall i :: 0 <= i < |ts| ==> ts[i].offset + 32 * Chunks(ts[i]) <= |file|
  }

  /** The chunks of the first `j` tensors, end to end. */
  function Data(file: seq<u8>, ts: seq<Tensor>, j: nat): (data: seq<u8>)
    requires j <= |ts| && InFile(file, ts)
    ensures |data| == 32 * FirstChunk(ts, j)
  {
    if j == 0 then [] else Data(file, ts, j - 1) + Span(file, ts[j - 1])
  }

  function Span(file: seq<u8>, t: Tensor): (bytes: seq<u8>)
    requires t.offset + 32 * Chunks(t) <= |file|
    ensures |bytes| == 32 * Chunks(t)
  {
    file[t.offset..t.offset + 32 * Chunks(t)]
  }

  function Weights(file: seq<u8>, ts: seq<Tensor>): seq<u8>
    requires InFile(file, ts)
  {
    Data(file, ts, |ts|)
  }

  // ----- the table -----

  /** Where the entry after `i` starts, or the end. */
  function EndOf(table: seq<(nat, nat)>, nChunks: nat, i: nat): nat
    requires i < |table|
  {
    if i + 1 < |table| then table[i + 1].0 else nChunks
  }

  /** Entry `i` covers chunks of the weights that lie together in the file. */
  ghost predicate Covers(file: seq<u8>, data: seq<u8>, table: seq<(nat, nat)>, n: nat, i: nat)
    requires i < |table|
  {
    var (start, off) := table[i];
    && start < EndOf(table, n, i) <= n && 32 * n <= |data| && off + 32 * (EndOf(table, n, i) - start) <= |file|
    && data[32 * start..32 * EndOf(table, n, i)] == file[off..off + 32 * (EndOf(table, n, i) - start)]
  }

  /** The table cuts the first `n` chunks of the weights into spans of the file. */
  ghost predicate Cuts(file: seq<u8>, data: seq<u8>, table: seq<(nat, nat)>, n: nat) {
    && (forall i :: 0 <= i < |table| ==> Covers(file, data, table, n, i))
    && (if table == [] then n == 0 else table[0].0 == 0)
  }

  lemma CoversMore(file: seq<u8>, data: seq<u8>, more: seq<u8>, table: seq<(nat, nat)>, n: nat, i: nat)
    requires i < |table| && Covers(file, data, table, n, i) && |data| == 32 * n
    ensures Covers(file, data + more, table, n, i)
  {
    var a, b := 32 * table[i].0, 32 * EndOf(table, n, i);
    assert (data + more)[a..b] == data[a..b];
  }

  /** Appending an entry for the chunks `n` to `n + k`, which lie at `off` in the file. */
  lemma CutsNext(file: seq<u8>, data: seq<u8>, table: seq<(nat, nat)>, n: nat, off: nat, k: nat)
    requires Cuts(file, data, table, n) && |data| == 32 * n && k > 0 && off + 32 * k <= |file|
    ensures Cuts(file, data + file[off..off + 32 * k], table + [(n, off)], n + k)
  {
    var more, longer, total := data + file[off..off + 32 * k], table + [(n, off)], n + k;
    forall i | 0 <= i < |longer| ensures Covers(file, more, longer, total, i) {
      if i < |table| {
        CoversMore(file, data, file[off..off + 32 * k], table, n, i);
        assert EndOf(longer, n + k, i) == EndOf(table, n, i);
      } else {
        assert more[32 * n..32 * (n + k)] == file[off..off + 32 * k];
      }
    }
  }

  /** The table built from the tensors in order cuts their weights. */
  method BuildTable(ghost file: seq<u8>, ts: seq<Tensor>) returns (table: seq<(nat, nat)>, nChunks: nat)
    requires InFile(file, ts)
    ensures nChunks == FirstChunk(ts, |ts|) && |Weights(file, ts)| == 32 * nChunks
    ensures Cuts(file, Weights(file, ts), table, nChunks)
  {
    hide Cuts, Data, FirstChunk;
    table, nChunks := [], 0;
    NoTensors(file, ts);
    for i := 0 to |ts|
      invariant nChunks == FirstChunk(ts, i) && Cuts(file, Data(file, ts, i), table, nChunks)
    {
      var full := ts[i].nbytes / 32;
      OneMore(file, ts, i);
      if full > 0 {
        CutsNext(file, Data(file, ts, i), table, nChunks, ts[i].offset, full);
        table := table + [(nChunks, ts[i].offset)];
      }
      nChunks := nChunks + full;
    }
  }

  lemma NoTensors(file: seq<u8>, ts: seq<Tensor>)
    requires InFile(file, ts)
    ensures FirstChunk(ts, 0) == 0 && Cuts(file, Data(file, ts, 0), [], 0)
  {}

  lemma OneMore(file: seq<u8>, ts: seq<Tensor>, i: nat)
    requires InFile(file, ts) && i < |ts|
    ensures var full, off := Chunks(ts[i]), ts[i].offset;
            && FirstChunk(ts, i + 1) == FirstChunk(ts, i) + full && off + 32 * full <= |file|
            && Data(file, ts, i + 1) == Data(file, ts, i) + file[off..off + 32 * full]
            && (full == 0 ==> Data(file, ts, i + 1) == Data(file, ts, i))
  {}

  // ----- reading -----

  /** The number of entries that start at or before `off`. */
  method PartitionPoint(table: seq<(nat, nat)>, off: nat) returns (p: nat)
    requires forall i, j :: 0 <= i < j < |table| ==> table[i].0 < table[j].0
    ensures p <= |table|
    ensures forall i :: 0 <= i < |table| ==> (table[i].0 <= off <==> i < p)
  {
    var lo, hi := 0, |table|;
    while lo < hi
      invariant 0 <= lo <= hi <= |table|
      invariant forall i :: 0 <= i < lo ==> table[i].0 <= off
      invariant forall i :: hi <= i < |table| ==> off < table[i].0
    {
      var mid := (lo + hi) / 2;
      if table[mid].0 <= off { lo := mid + 1; } else { hi := mid; }
    }
    p := lo;
  }

  lemma {:induction false} Increasing(file: seq<u8>, data: seq<u8>, table: seq<(nat, nat)>, n: nat, i: nat, j: nat)
    requires Cuts(file, data, table, n) && i < j < |table|
    ensures table[i].0 < table[j].0
    decreases j
  {
    assert Covers(file, data, table, n, j - 1);
    if i < j - 1 { Increasing(file, data, table, n, i, j - 1); }
  }

  /** Chunks `a` to `b`, inside one entry, in the file. */
  lemma Within(file: seq<u8>, data: seq<u8>, table: seq<(nat, nat)>, n: nat, i: nat, a: nat, b: nat)
    requires i < |table| && Covers(file, data, table, n, i) && table[i].0 <= a <= b <= EndOf(table, n, i)
    ensures 32 * b <= |data|
    ensures var p := table[i].1 + 32 * (a - table[i].0);
            p + 32 * (b - a) <= |file| && data[32 * a..32 * b] == file[p..p + 32 * (b - a)]
  {
    var start, off := table[i].0, table[i].1;
    var end := EndOf(table, n, i);
    var lo, hi := 32 * (a - start), 32 * (b - start);
    SliceOfSlice(data, 32 * start, 32 * end, lo, hi);
    SliceOfSlice(file, off, off + 32 * (end - start), lo, hi);
  }

  lemma SliceOfSlice(s: seq<u8>, a: nat, b: nat, lo: nat, hi: nat)
    requires a <= b <= |s| && lo <= hi <= b - a
    ensures s[a..b][lo..hi] == s[a + lo..a + hi]
  {
    forall i | 0 <= i < hi - lo ensures s[a..b][lo..hi][i] == s[a + lo..a + hi][i] {}
  }

  /** read_exact_at: `n` bytes of the file into the buffer at `at`. */
  method ReadAt(file: seq<u8>, from: nat, out: array<u8>, at: nat, n: nat)
    requires from + n <= |file| && at + n <= out.Length
    modifies out
    ensures out[..at] == old(out[..at]) && out[at..at + n] == file[from..from + n]
  {
    forall k | at <= k < at + n { out[k] := file[from + k - at]; }
  }

  /** The entry that holds chunk `first`, if there is one. */
  method FindEntry(file: seq<u8>, ghost data: seq<u8>, table: seq<(nat, nat)>, nChunks: nat, first: nat) returns (j: int)
    requires Cuts(file, data, table, nChunks)
    ensures first < nChunks ==> Holds(table, nChunks, j, first)
  {
    forall i: nat, k: nat | i < k < |table| ensures table[i].0 < table[k].0 { Increasing(file, data, table, nChunks, i, k); }
    var p := PartitionPoint(table, first);
    AtFirst(file, data, table, nChunks, first, p);
    j := p as int - 1;
  }

  /** Chunk `off` lies in entry `j`. */
  predicate Holds(table: seq<(nat, nat)>, nChunks: nat, j: int, off: nat) {
    0 <= j < |table| && table[j].0 <= off < EndOf(table, nChunks, j)
  }

  /** As much of the range as entry `j` holds. */
  method ReadEntry(file: seq<u8>, ghost data: seq<u8>, table: seq<(nat, nat)>, nChunks: nat, j: nat, off: nat, left: nat,
                   out: array<u8>, filled: nat)
    returns (n: nat)
    requires Cuts(file, data, table, nChunks) && Holds(table, nChunks, j, off) && left > 0
    requires filled + 32 * left <= out.Length && off + left <= nChunks && 32 * nChunks <= |data|
    modifies out
    ensures 0 < n <= left && out[..filled] == old(out[..filled])
    ensures out[filled..filled + 32 * n] == data[32 * off..32 * (off + n)]
    ensures n < left ==> Holds(table, nChunks, j + 1, off + n)
  {
    hide Cuts, Covers, EndOf;
    var (start, fileOff) := table[j];
    n := Least(EndOf(table, nChunks, j) - off, left);
    CoversAt(file, data, table, nChunks, j);
    Within(file, data, table, nChunks, j, off, off + n);
    ReadAt(file, fileOff + 32 * (off - start), out, filled, 32 * n);
    if n < left { NextEntry(file, data, table, nChunks, j, off + n); }
  }

  /** read_chunks_into: one read per tensor that the range overlaps, whatever chunks it asks for. */
  method ReadChunksInto(file: seq<u8>, ghost data: seq<u8>, table: seq<(nat, nat)>, nChunks: nat, first: nat, out: array<u8>)
    requires Cuts(file, data, table, nChunks) && |data| == 32 * nChunks
    requires out.Length % 32 == 0 && first + out.Length / 32 <= nChunks
    modifies out
    ensures out[..] == data[32 * first..32 * first + out.Length]
  {
    hide Cuts, Holds;
    var j := FindEntry(file, data, table, nChunks, first);
    var filled: nat := 0;
    var off := first;
    ghost var total := out.Length / 32;
    while filled < out.Length
      invariant first <= off <= first + total && filled == 32 * (off - first) && out.Length == 32 * total
      invariant out[..filled] == data[32 * first..32 * first + filled]
      invariant off < first + total ==> Holds(table, nChunks, j, off)
    {
      Whole(first + total - off);
      EntryIndex(table, nChunks, j, off);
      var n := ReadEntry(file, data, table, nChunks, j, off, (out.Length - filled) / 32, out, filled);
      Joined(out[..], data, 32 * first, filled, filled + 32 * n);
      filled, off, j := filled + 32 * n, off + n, j + 1;
    }
  }

  lemma EntryIndex(table: seq<(nat, nat)>, nChunks: nat, j: int, off: nat)
    requires Holds(table, nChunks, j, off)
    ensures 0 <= j < |table|
  {}

  lemma Whole(n: nat)
    ensures 32 * n / 32 == n
  {}

  function Least(a: nat, b: nat): nat { if a <= b then a else b }

  lemma CoversAt(file: seq<u8>, data: seq<u8>, table: seq<(nat, nat)>, n: nat, i: nat)
    requires Cuts(file, data, table, n) && i < |table|
    ensures Covers(file, data, table, n, i)
  {}

  lemma AtFirst(file: seq<u8>, data: seq<u8>, table: seq<(nat, nat)>, n: nat, first: nat, p: nat)
    requires Cuts(file, data, table, n) && p <= |table| && forall i :: 0 <= i < |table| ==> (table[i].0 <= first <==> i < p)
    ensures first < n ==> 0 < p && table[p - 1].0 <= first < EndOf(table, n, p - 1)
  {
    if first < n { assert table[0].0 <= first; }
  }

  lemma NextEntry(file: seq<u8>, data: seq<u8>, table: seq<(nat, nat)>, n: nat, i: nat, off: nat)
    requires Cuts(file, data, table, n) && i < |table| && off == EndOf(table, n, i) < n
    ensures Holds(table, n, i + 1, off)
  {
    assert i + 1 < |table|;
    assert Covers(file, data, table, n, i + 1);
  }

  lemma Joined(out: seq<u8>, data: seq<u8>, base: nat, a: nat, b: nat)
    requires a <= b <= |out| && base + b <= |data|
    requires out[..a] == data[base..base + a] && out[a..b] == data[base + a..base + b]
    ensures out[..b] == data[base..base + b]
  {
    assert out[..b] == out[..a] + out[a..b];
  }
}
