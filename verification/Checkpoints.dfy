/** The sparse possession tree: every fifth level on disk, siblings recomputed between them and memoised. */
module Checkpoints {
  import opened Wrappers
  import opened Positional
  import opened Merkle

  const INTERVAL: nat := 5

  /** A level kept in the tree file: `count` nodes from node `offset` on. */
  datatype StoredLevel = StoredLevel(level: nat, offset: nat, count: nat)

  // ----- heights -----

  function Height(n: nat): nat
    requires n > 0
  {
    if n == 1 then 0 else 1 + Height((n + 1) / 2)
  }

  lemma {:induction false} HeightCounts(n: nat, k: nat)
    requires n > 0
    ensures Count(n, k) > 1 <==> k < Height(n)
    decreases k
  {
    if n == 1 {
      CountOne(k);
    } else if k > 0 {
      HeightCounts((n + 1) / 2, k - 1);
    }
  }

  /** The root is on the one level of height `Height`. */
  lemma RootIsTop<D>(h: Hasher<D>, s: seq<D>)
    requires s != []
    ensures Count(|s|, Height(|s|)) == 1 && Root(h, s) == Up(h, s, Height(|s|))[0]
  {
    var k := Height(|s|);
    HeightCounts(|s|, k);
    if k > 0 { HeightCounts(|s|, k - 1); }
    RootOfUp(h, s, k);
  }

  // ----- layout -----

  predicate IsCheckpoint(n: nat, level: nat) {
    (level > 0 && level % INTERVAL == 0) || Count(n, level) == 1
  }

  function End(cps: seq<StoredLevel>): nat {
    if cps == [] then 0 else cps[|cps| - 1].offset + cps[|cps| - 1].count
  }

  ghost predicate Lists(cps: seq<StoredLevel>, level: nat) {
    exists i :: 0 <= i < |cps| && cps[i].level == level
  }

  /** The checkpoints below level `top`: all of them, in order, one after the other in the file. */
  ghost predicate Layout(n: nat, cps: seq<StoredLevel>, top: nat) {
    && (forall i :: 0 <= i < |cps| ==>
          cps[i].level < top && IsCheckpoint(n, cps[i].level) && cps[i].count == Count(n, cps[i].level))
    && (forall l :: 0 <= l < top && IsCheckpoint(n, l) ==> Lists(cps, l))
    && (forall i :: 0 <= i < |cps| ==> cps[i].offset == End(cps[..i]))
    && (forall i, j :: 0 <= i < j < |cps| ==> cps[i].level < cps[j].level)
  }

  lemma LayoutSkip(n: nat, cps: seq<StoredLevel>, top: nat)
    requires Layout(n, cps, top) && !IsCheckpoint(n, top)
    ensures Layout(n, cps, top + 1)
  {}

  lemma LayoutAdd(n: nat, cps: seq<StoredLevel>, top: nat)
    requires Layout(n, cps, top) && IsCheckpoint(n, top)
    ensures Layout(n, cps + [StoredLevel(top, End(cps), Count(n, top))], top + 1)
  {
    hide IsCheckpoint, Count, End;
    var all := cps + [StoredLevel(top, End(cps), Count(n, top))];
    forall i | 0 <= i < |all|
      ensures all[i].offset == End(all[..i])
    {
      if i < |cps| { assert all[..i] == cps[..i]; } else { assert all[..i] == cps; }
    }
    forall l | 0 <= l < top + 1 && IsCheckpoint(n, l)
      ensures Lists(all, l)
    {
      if l == top {
        assert all[|cps|].level == l;
      } else {
        var i :| 0 <= i < |cps| && cps[i].level == l;
        assert all[i].level == l;
      }
    }
  }

  method ComputeCheckpoints(n: nat) returns (cps: seq<StoredLevel>, total: nat)
    requires n > 0
    ensures total == Height(n) + 1 && Layout(n, cps, total)
  {
    hide Layout;
    cps := [];
    var count, off, level := n, 0, 0;
    EmptyLayout(n);
    HeightCounts(n, 0);
    while true
      invariant level <= Height(n) && count == Count(n, level) && off == End(cps) && Layout(n, cps, level)
      decreases Height(n) - level
    {
      var isCheckpoint := (level > 0 && level % INTERVAL == 0) || count == 1;
      if isCheckpoint {
        LayoutAdd(n, cps, level);
        cps := cps + [StoredLevel(level, off, count)];
      } else {
        LayoutSkip(n, cps, level);
      }
      HeightCounts(n, level);
      CountStep(n, level);
      if count == 1 { break; }
      if isCheckpoint { off := off + count; }
      count := (count + 1) / 2;
      level := level + 1;
    }
    total := level + 1;
  }

  lemma EmptyLayout(n: nat)
    ensures Layout(n, [], 0)
  {}

  // ----- building -----

  /** Read a stored level in batches of 2^rounds and fold each. */
  method FoldSection<D>(h: Hasher<D>, section: seq<D>, rounds: nat) returns (nodes: seq<D>)
    ensures nodes == Up(h, section, rounds)
  {
    hide Up;
    nodes := [];
    var size := Pow(2, rounds);
    var at := 0;
    while at < |section|
      invariant at <= |section| && nodes + FoldBatches(h, section[at..], rounds) == FoldBatches(h, section, rounds)
    {
      var take := if size <= |section| - at then size else |section| - at;
      var node := FoldLevels(h, section[at..at + take], rounds);
      BatchOff(h, section[at..at + take], section[at + take..], rounds);
      assert section[at..] == section[at..at + take] + section[at + take..];
      nodes := nodes + [node];
      at := at + take;
    }
    FoldBatchesIsUp(h, section, rounds);
  }

  lemma BatchOff<D>(h: Hasher<D>, batch: seq<D>, rest: seq<D>, k: nat)
    requires batch != [] && |batch| <= Pow(2, k) && (rest == [] || |batch| == Pow(2, k))
    ensures FoldBatches(h, batch + rest, k) == [Up(h, batch, k)[0]] + FoldBatches(h, rest, k)
  {
    if rest == [] {
      assert batch + rest == batch;
    } else {
      assert (batch + rest)[..|batch|] == batch && (batch + rest)[|batch|..] == rest;
    }
  }

  /** Hash-and-fold of the leaves: only the nodes five levels up are written. */
  method FoldLeaves<D>(h: Hasher<D>, leaves: seq<D>) returns (file: seq<D>)
    ensures file == Up(h, leaves, INTERVAL)
  {
    hide Up, FoldBatches;
    assert Pow(2, INTERVAL) == 32 by { SmallPowers(); }
    file := [];
    var buf: seq<D> := [];
    assert [] + leaves[0..] == leaves;
    for i := 0 to |leaves|
      invariant |buf| < 32 && file + FoldBatches(h, buf + leaves[i..], INTERVAL) == FoldBatches(h, leaves, INTERVAL)
    {
      assert buf + leaves[i..] == (buf + [leaves[i]]) + leaves[i + 1..];
      buf := buf + [leaves[i]];
      if |buf| == 32 {
        var node := FoldLevels(h, buf, INTERVAL);
        BatchOff(h, buf, leaves[i + 1..], INTERVAL);
        file := file + [node];
        buf := [];
        assert [] + leaves[i + 1..] == leaves[i + 1..];
      }
    }
    BatchNone(h, INTERVAL);
    assert buf + leaves[|leaves|..] == buf;
    if buf != [] {
      var node := FoldLevels(h, buf, INTERVAL);
      BatchOff(h, buf, [], INTERVAL);
      assert buf + [] == buf;
      file := file + [node];
    }
    FoldBatchesIsUp(h, leaves, INTERVAL);
  }

  lemma BatchNone<D>(h: Hasher<D>, k: nat)
    ensures FoldBatches(h, [], k) == []
  {}

  function Section<D>(file: seq<D>, cp: StoredLevel): seq<D>
    requires cp.offset + cp.count <= |file|
  {
    file[cp.offset..cp.offset + cp.count]
  }

  /** The file holds the stored levels of the tree over `leaves`. */
  ghost predicate Stores<D>(h: Hasher<D>, leaves: seq<D>, file: seq<D>, cps: seq<StoredLevel>) {
    forall i :: 0 <= i < |cps| ==>
      && cps[i].offset + cps[i].count <= |file|
      && Section(file, cps[i]) == Up(h, leaves, cps[i].level)
  }

  /** The value read back as R_T. */
  function SparseRoot<D>(h: Hasher<D>, leaves: seq<D>): D
    requires leaves != []
  {
    if Height(|leaves|) >= INTERVAL then Root(h, leaves) else Up(h, leaves, INTERVAL)[0]
  }

  lemma CheckpointLevel(n: nat, l: nat)
    requires n > 0 && l <= Height(n)
    ensures IsCheckpoint(n, l) <==> (l > 0 && l % INTERVAL == 0) || l == Height(n)
  {
    hide Height, Count;
    CountPositive(n, l);
    HeightCounts(n, l);
  }

  lemma CountPositive(n: nat, k: nat)
    requires n > 0
    ensures Count(n, k) >= 1
  {}

  lemma FirstCheckpoint(n: nat, cps: seq<StoredLevel>)
    requires n > 0 && Layout(n, cps, Height(n) + 1)
    ensures cps != [] && cps[0].offset == 0 && cps[|cps| - 1].level == Height(n)
    ensures cps[0].level == if Height(n) >= INTERVAL then INTERVAL else Height(n)
    ensures Height(n) < INTERVAL ==> |cps| == 1
  {
    hide Height, IsCheckpoint, Count;
    var top := Height(n);
    CheckpointLevel(n, top);
    var i :| 0 <= i < |cps| && cps[i].level == top;
    CheckpointLevel(n, cps[0].level);
    CheckpointLevel(n, cps[|cps| - 1].level);
    assert cps[..0] == [];
    if top >= INTERVAL {
      CheckpointLevel(n, INTERVAL);
      var j :| 0 <= j < |cps| && cps[j].level == INTERVAL;
    }
  }

  lemma StoresGrow<D>(h: Hasher<D>, leaves: seq<D>, file: seq<D>, cps: seq<StoredLevel>, k: nat, nodes: seq<D>)
    requires k < |cps| && Stores(h, leaves, file, cps[..k]) && cps[k].offset == |file|
    requires cps[k].count == |nodes| && nodes == Up(h, leaves, cps[k].level)
    ensures Stores(h, leaves, file + nodes, cps[..k + 1])
  {
    hide Up;
    forall i | 0 <= i < k + 1
      ensures cps[i].offset + cps[i].count <= |file + nodes| && Section(file + nodes, cps[i]) == Up(h, leaves, cps[i].level)
    {
      if i < k {
        assert cps[..k][i] == cps[i];
        assert Section(file + nodes, cps[i]) == Section(file, cps[i]);
      } else {
        assert (file + nodes)[|file|..] == nodes;
      }
    }
  }

  /** finalize_checkpoint_upper: every further stored level from the one before it. */
  method FinalizeUpper<D>(h: Hasher<D>, leaves: seq<D>, base: seq<D>)
    returns (file: seq<D>, cps: seq<StoredLevel>, total: nat, root: D)
    requires leaves != [] && base == Up(h, leaves, INTERVAL)
    ensures total == Height(|leaves|) + 1 && Layout(|leaves|, cps, total)
    ensures Height(|leaves|) >= INTERVAL ==> Stores(h, leaves, file, cps)
    ensures root == SparseRoot(h, leaves)
  {
    cps, total := ComputeCheckpoints(|leaves|);
    hide Up, Count, Root, Height;
    FirstCheckpoint(|leaves|, cps);
    file := base;
    if Height(|leaves|) < INTERVAL {
      root := file[cps[0].offset];
      return;
    }
    StoresFirst(h, leaves, file, cps);
    hide Stores, Layout, Section;
    for k := 1 to |cps|
      invariant |file| == End(cps[..k]) && Stores(h, leaves, file, cps[..k])
    {
      NextSection(h, leaves, file, cps, k, total);
      var nodes := FoldSection(h, Section(file, cps[k - 1]), cps[k].level - cps[k - 1].level);
      StoresGrow(h, leaves, file, cps, k, nodes);
      file := file + nodes;
      assert cps[..k + 1][k] == cps[k];
    }
    assert cps[..|cps|] == cps;
    LastStored(h, leaves, file, cps);
    RootIsTop(h, leaves);
    root := Section(file, cps[|cps| - 1])[0];
  }

  lemma StoresFirst<D>(h: Hasher<D>, leaves: seq<D>, file: seq<D>, cps: seq<StoredLevel>)
    requires cps != [] && cps[0].offset == 0 && cps[0].level == INTERVAL && cps[0].count == Count(|leaves|, INTERVAL)
    requires file == Up(h, leaves, INTERVAL)
    ensures |file| == End(cps[..1]) && Stores(h, leaves, file, cps[..1])
  {}

  lemma NextSection<D>(h: Hasher<D>, leaves: seq<D>, file: seq<D>, cps: seq<StoredLevel>, k: nat, total: nat)
    requires 1 <= k < |cps| && Layout(|leaves|, cps, total) && Stores(h, leaves, file, cps[..k]) && |file| == End(cps[..k])
    ensures cps[k - 1].offset + cps[k - 1].count <= |file| && cps[k - 1].level < cps[k].level
    ensures Up(h, Section(file, cps[k - 1]), cps[k].level - cps[k - 1].level) == Up(h, leaves, cps[k].level)
    ensures cps[k].offset == |file| && cps[k].count == Count(|leaves|, cps[k].level)
  {
    hide Up, Count;
    assert cps[..k][k - 1] == cps[k - 1];
    UpUp(h, leaves, cps[k - 1].level, cps[k].level - cps[k - 1].level);
  }

  lemma LastStored<D>(h: Hasher<D>, leaves: seq<D>, file: seq<D>, cps: seq<StoredLevel>)
    requires leaves != [] && cps != [] && Stores(h, leaves, file, cps) && cps[|cps| - 1].level == Height(|leaves|)
    ensures cps[|cps| - 1].offset + cps[|cps| - 1].count <= |file|
    ensures Section(file, cps[|cps| - 1]) == Up(h, leaves, Height(|leaves|))
  {}

  lemma {:induction false} SixteenIsLow(n: nat)
    requires n > 0
    ensures Height(n) < INTERVAL <==> n <= 16
  {
    HeightCounts(n, 4);
    assert Count(n, 4) == ((((n + 1) / 2 + 1) / 2 + 1) / 2 + 1) / 2 by {
      CountStep(n, 0);
      CountStep(n, 1);
      CountStep(n, 2);
      CountStep(n, 3);
    }
  }

  /** R_T is the root of the dense tree exactly when there are more than sixteen chunks. */
  lemma SparseRootIff<D(!new)>(h: Hasher<D>, leaves: seq<D>)
    requires Ideal(h) && leaves != [] && AllUniform(h, leaves, 0)
    ensures SparseRoot(h, leaves) == Root(h, leaves) <==> |leaves| > 16
  {
    hide Ideal, AllUniform, Root, Up, Height, Count;
    SixteenIsLow(|leaves|);
    if Height(|leaves|) < INTERVAL { OtherHeight(h, leaves, INTERVAL); }
  }

  /** A node above the root is not the root. */
  lemma OtherHeight<D(!new)>(h: Hasher<D>, leaves: seq<D>, k: nat)
    requires Ideal(h) && leaves != [] && AllUniform(h, leaves, 0) && k > Height(|leaves|)
    ensures Up(h, leaves, k) != [] && Up(h, leaves, k)[0] != Root(h, leaves)
  {
    hide Ideal, Uniform, Root, Up, Height, Count;
    CountPositive(|leaves|, k);
    RootIsTop(h, leaves);
    UpUniform(h, leaves, 0, Height(|leaves|));
    UpUniform(h, leaves, 0, k);
    UniformReaches(h, Up(h, leaves, k)[0], k);
    if Up(h, leaves, k)[0] == Root(h, leaves) { OneDepth(h, Root(h, leaves), Height(|leaves|), k); }
  }

  // ----- path lookup -----

  function Buddy(i: nat): nat { if i % 2 == 0 then i + 1 else i - 1 }

  /** The sibling stored under index `sib`; a node without one is its own sibling. */
  function SibAt<D>(s: seq<D>, sib: nat): D
    requires Buddy(sib) < |s|
  {
    if sib < |s| then s[sib] else s[Buddy(sib)]
  }

  lemma SiblingIs<D>(s: seq<D>, idx: nat)
    requires idx < |s|
    ensures Buddy(Buddy(idx)) == idx && Sibling(s, idx) == SibAt(s, Buddy(idx))
  {}

  lemma {:induction false} IndexAt(n: nat, off: nat, k: nat)
    requires off < n
    ensures Div(off, Pow(2, k)) < Count(n, k)
    decreases k
  {
    if k > 0 {
      IndexAt((n + 1) / 2, off / 2, k - 1);
      HalfDiv(off, k);
    }
  }

  lemma HalfDiv(off: nat, k: nat)
    requires k > 0
    ensures Div(off, Pow(2, k)) == Div(off / 2, Pow(2, k - 1))
  {
    var p := Pow(2, k - 1);
    var q := off / 2;
    Euclid(q, p);
    var d, r := Div(q, p), Mod(q, p);
    assert Pow(2, k) == 2 * p;
    hide Pow, Div, Mod;
    assert off == d * (2 * p) + (2 * r + off % 2);
    Quotient(off, 2 * p, d, 2 * r + off % 2);
  }

  class WeightIndex<D> {
    const h: Hasher<D>
    const leaves: seq<D>
    const file: seq<D>
    const checkpoints: seq<StoredLevel>
    const totalLevels: nat
    const root: D
    const dense: Option<seq<seq<D>>>
    const memoOn: bool
    const memoMax: nat
    var memo: map<(nat, nat), D>

    ghost predicate Built() {
      && leaves != []
      && totalLevels == Height(|leaves|) + 1
      && Layout(|leaves|, checkpoints, totalLevels)
      && (totalLevels > INTERVAL ==> Stores(h, leaves, file, checkpoints))
      && (dense.Some? ==> |dense.value| == totalLevels && forall l :: 0 <= l < totalLevels ==> dense.value[l] == Up(h, leaves, l))
    }

    /** Everything memoised is the sibling it stands for. */
    ghost predicate MemoTrue()
      reads this
    {
      forall l, sib :: (l, sib) in memo ==> Buddy(sib) < Count(|leaves|, l) && memo[(l, sib)] == SibAt(Up(h, leaves, l), sib)
    }

    ghost predicate Valid()
      reads this
    {
      Built() && MemoTrue()
    }

    constructor (h: Hasher<D>, leaves: seq<D>, buildDense: bool, memoOn: bool, memoMax: nat)
      requires leaves != []
      ensures Valid() && this.h == h && this.leaves == leaves && root == SparseRoot(h, leaves)
    {
      var base := FoldLeaves(h, leaves);
      var file, cps, total, r := FinalizeUpper(h, leaves, base);
      var levels: Option<seq<seq<D>>> := None;
      if buildDense {
        var all := DenseLevels(h, leaves);
        levels := Some(all);
      }
      this.h, this.leaves, this.file, this.checkpoints, this.totalLevels := h, leaves, file, cps, total;
      dense, root := levels, r;
      this.memoOn, this.memoMax := memoOn, memoMax;
      memo := map[];
    }

    /** The nodes of a stored level (find_checkpoint never fails on one). */
    method Stored(level: nat) returns (nodes: seq<D>)
      requires Built() && INTERVAL <= level < totalLevels && IsCheckpoint(|leaves|, level)
      ensures nodes == Up(h, leaves, level)
    {
      hide Up, IsCheckpoint, Height;
      assert Lists(checkpoints, level);
      var i := 0;
      while checkpoints[i].level != level
        invariant i < |checkpoints| && forall j :: 0 <= j < i ==> checkpoints[j].level != level
      {
        i := i + 1;
      }
      nodes := Section(file, checkpoints[i]);
    }

    /** compute_subtree_hash, for a subtree that starts in range. */
    method SubtreeHash(j: nat, rounds: nat, src: nat) returns (node: D)
      requires Built() && src + rounds < totalLevels && j < Count(|leaves|, src + rounds)
      requires src == 0 || (INTERVAL <= src && IsCheckpoint(|leaves|, src))
      ensures node == Up(h, leaves, src + rounds)[j]
    {
      var source := leaves;
      if src > 0 { source := Stored(src); }
      UpUp(h, leaves, src, rounds);
      UpAt(h, source, rounds, j);
      CountCovers(|source|, rounds, j);
      hide Up, Count, Built;
      var start, span := Start(j, rounds), Pow(2, rounds);
      var end := if start + span <= |source| then start + span else |source|;
      assert source[start..end] == Below(source, rounds, j);
      node := FoldLevels(h, source[start..end], rounds);
    }

    /** The sibling of node `idx` on `level`, from the file or recomputed. */
    method Lookup(level: nat, idx: nat) returns (node: D)
      requires Built() && level + 1 < totalLevels && idx < Count(|leaves|, level)
      ensures node == SibAt(Up(h, leaves, level), Buddy(idx))
    {
      hide Up, Count, Height, Built;
      var sib := Buddy(idx);
      var isStored := level > 0 && level % INTERVAL == 0;
      if isStored {
        var nodes := Stored(level);
        node := nodes[if sib < |nodes| then sib else idx];
      } else {
        var src := level / INTERVAL * INTERVAL;
        var at := if sib < Count(|leaves|, level) then sib else idx;
        node := SubtreeHash(at, level - src, src);
      }
    }

    /** One level of the path, served from the memo when it can be. */
    method MemoLookup(level: nat, idx: nat) returns (node: D)
      requires Valid() && level + 1 < totalLevels && idx < Count(|leaves|, level)
      modifies this`memo
      ensures Valid() && node == Sibling(Up(h, leaves, level), idx)
    {
      SiblingIs(Up(h, leaves, level), idx);
      hide Up, Count, Built;
      var sib := Buddy(idx);
      var memoize := memoOn && Count(|leaves|, level) <= memoMax;
      if memoize && (level, sib) in memo { return memo[(level, sib)]; }
      node := Lookup(level, idx);
      if memoize { memo := memo[(level, sib) := node]; }
    }

    /** merkle_path_from_level: sparse and dense lookups give the same path. */
    method PathFromLevel(off: nat, first: nat) returns (path: seq<D>)
      requires Valid() && off < |leaves| && first < totalLevels
      modifies this`memo
      ensures Valid() && Div(off, Pow(2, first)) < Count(|leaves|, first)
      ensures path == LevelPath(h, leaves, first, Div(off, Pow(2, first)))
    {
      hide Up, Count, Pow, Div, LevelPath, Height, MemoTrue;
      IndexAt(|leaves|, off, first);
      var idx := Div(off, Pow(2, first));
      if dense.Some? {
        path := DensePath(h, leaves, dense.value, first, idx);
      } else {
        path := SparsePath(first, idx);
      }
    }

    method SparsePath(first: nat, start: nat) returns (path: seq<D>)
      requires Valid() && first < totalLevels && start < Count(|leaves|, first)
      modifies this`memo
      ensures Valid() && path == LevelPath(h, leaves, first, start)
    {
      hide Up, Count, MemoTrue, LevelPath, Sibling, Layout, Stores, Height;
      path := [];
      var idx: nat := start;
      for level := first to totalLevels - 1
        invariant Valid() && idx < Count(|leaves|, level)
        invariant LevelPath(h, leaves, first, start) == path + LevelPath(h, leaves, level, idx)
      {
        PathStep(h, leaves, level, idx);
        var node := MemoLookup(level, idx);
        path := path + [node];
        idx := idx / 2;
      }
      PathTop(h, leaves, idx);
    }
  }

  /** The path of node `idx` of a level. */
  function LevelPath<D>(h: Hasher<D>, leaves: seq<D>, level: nat, idx: nat): seq<D>
    requires idx < Count(|leaves|, level)
  {
    Path(h, Up(h, leaves, level), idx)
  }

  lemma PathStep<D>(h: Hasher<D>, leaves: seq<D>, level: nat, idx: nat)
    requires leaves != [] && level < Height(|leaves|) && idx < Count(|leaves|, level)
    ensures idx / 2 < Count(|leaves|, level + 1)
    ensures LevelPath(h, leaves, level, idx)
            == [Sibling(Up(h, leaves, level), idx)] + LevelPath(h, leaves, level + 1, idx / 2)
  {
    HeightCounts(|leaves|, level);
    UpNext(h, leaves, level);
    hide Up, Count;
  }

  lemma PathTop<D>(h: Hasher<D>, leaves: seq<D>, idx: nat)
    requires leaves != [] && idx < Count(|leaves|, Height(|leaves|))
    ensures LevelPath(h, leaves, Height(|leaves|), idx) == []
  {
    HeightCounts(|leaves|, Height(|leaves|));
  }

  /** build_dense: all levels, leaves first. */
  method DenseLevels<D>(h: Hasher<D>, leaves: seq<D>) returns (levels: seq<seq<D>>)
    requires leaves != []
    ensures |levels| == Height(|leaves|) + 1 && forall l :: 0 <= l < |levels| ==> levels[l] == Up(h, leaves, l)
  {
    levels := [leaves];
    hide Up;
    HeightCounts(|leaves|, 0);
    UpNone(h, leaves);
    while |levels[|levels| - 1]| > 1
      invariant 0 < |levels| <= Height(|leaves|) + 1 && forall l :: 0 <= l < |levels| ==> levels[l] == Up(h, leaves, l)
      decreases Height(|leaves|) + 1 - |levels|
    {
      HeightCounts(|leaves|, |levels| - 1);
      UpNext(h, leaves, |levels| - 1);
      levels := levels + [NextLevel(h, levels[|levels| - 1])];
    }
    HeightCounts(|leaves|, |levels| - 1);
  }

  lemma UpNone<D>(h: Hasher<D>, s: seq<D>)
    ensures Up(h, s, 0) == s
  {}

  method DenseSibling<D>(level: seq<D>, idx: nat) returns (node: D)
    requires idx < |level|
    ensures node == Sibling(level, idx)
  {
    var sib := Buddy(idx);
    node := if sib < |level| then level[sib] else level[idx];
  }

  method DensePath<D>(h: Hasher<D>, leaves: seq<D>, levels: seq<seq<D>>, first: nat, start: nat) returns (path: seq<D>)
    requires leaves != [] && |levels| == Height(|leaves|) + 1 && first < |levels| && start < Count(|leaves|, first)
    requires forall l :: 0 <= l < |levels| ==> levels[l] == Up(h, leaves, l)
    ensures path == LevelPath(h, leaves, first, start)
  {
    hide Up, Count, LevelPath, Sibling, SibAt, Height;
    path := [];
    var idx: nat := start;
    for level := first to |levels| - 1
      invariant idx < Count(|leaves|, level)
      invariant LevelPath(h, leaves, first, start) == path + LevelPath(h, leaves, level, idx)
    {
      PathStep(h, leaves, level, idx);
      var node := DenseSibling(levels[level], idx);
      path := path + [node];
      idx := idx / 2;
    }
    PathTop(h, leaves, idx);
  }
}
