/** Merkle trees whose odd levels pair the last node with itself. */
module Merkle {
  import opened ByteOrder
  import opened Positional

  /** Hash of a chunk and hash of two digests. */
  datatype Hasher<!D> = Hasher(leaf: seq<nat> -> D, pair: (D, D) -> D)

  // ----- levels -----

  function NextLevel<D>(h: Hasher<D>, s: seq<D>): (t: seq<D>)
    ensures |t| == (|s| + 1) / 2
  {
    seq((|s| + 1) / 2, i requires 0 <= i < (|s| + 1) / 2 => h.pair(s[2 * i], if 2 * i + 1 < |s| then s[2 * i + 1] else s[2 * i]))
  }

  /** The number of nodes `k` levels above a level of `n`. */
  function Count(n: nat, k: nat): (c: nat)
    ensures n > 0 ==> c > 0
  {
    if k == 0 then n else Count((n + 1) / 2, k - 1)
  }

  /** The level `k` levels up. */
  function Up<D>(h: Hasher<D>, s: seq<D>, k: nat): (t: seq<D>)
    ensures |t| == Count(|s|, k)
    decreases k
  {
    if k == 0 then s else Up(h, NextLevel(h, s), k - 1)
  }

  function Root<D>(h: Hasher<D>, s: seq<D>): D
    requires s != []
    decreases |s|
  {
    if |s| == 1 then s[0] else Root(h, NextLevel(h, s))
  }

  lemma {:induction false} UpNext<D>(h: Hasher<D>, s: seq<D>, k: nat)
    ensures Up(h, s, k + 1) == NextLevel(h, Up(h, s, k))
    decreases k
  {
    if k > 0 { UpNext(h, NextLevel(h, s), k - 1); }
  }

  lemma {:induction false} UpUp<D>(h: Hasher<D>, s: seq<D>, a: nat, b: nat)
    ensures Up(h, Up(h, s, a), b) == Up(h, s, a + b)
    decreases a
  {
    hide Count, NextLevel;
    if a > 0 {
      assert Up(h, s, a + b) == Up(h, NextLevel(h, s), a - 1 + b);
      UpUp(h, NextLevel(h, s), a - 1, b);
    }
  }

  /** The root does not change while there is more than one node below it. */
  lemma {:induction false} RootOfUp<D>(h: Hasher<D>, s: seq<D>, k: nat)
    requires s != [] && (k == 0 || Count(|s|, k - 1) > 1)
    ensures Root(h, Up(h, s, k)) == Root(h, s)
    decreases k
  {
    if k > 0 {
      assert |s| > 1 by { if |s| == 1 { CountOne(k - 1); } }
      RootOfUp(h, NextLevel(h, s), k - 1);
    }
  }

  lemma {:induction false} CountOne(k: nat)
    ensures Count(1, k) == 1
  {
    if k > 0 { CountOne(k - 1); }
  }

  lemma {:induction false} CountStep(n: nat, k: nat)
    ensures Count(n, k + 1) == (Count(n, k) + 1) / 2
    decreases k
  {
    if k > 0 { CountStep((n + 1) / 2, k - 1); }
  }

  /** Every node is the pair of the two below it, left one first; the last one of an odd level is paired with itself. */
  lemma NodeIs<D>(h: Hasher<D>, s: seq<D>, k: nat, i: nat)
    requires i < Count(|s|, k + 1)
    ensures 2 * i < Count(|s|, k)
    ensures Up(h, s, k + 1)[i]
            == h.pair(Up(h, s, k)[2 * i], if 2 * i + 1 < Count(|s|, k) then Up(h, s, k)[2 * i + 1] else Up(h, s, k)[2 * i])
  {
    UpNext(h, s, k);
    CountStep(|s|, k);
    hide Up, Count;
  }

  // ----- aligned parts -----

  lemma NextLevelAppend<D>(h: Hasher<D>, a: seq<D>, b: seq<D>)
    requires |a| % 2 == 0
    ensures NextLevel(h, a + b) == NextLevel(h, a) + NextLevel(h, b)
  {}

  /** A level splits at every multiple of 2^k into parts that go up `k` levels on their own. */
  lemma {:induction false} UpAppend<D>(h: Hasher<D>, a: seq<D>, b: seq<D>, k: nat, m: nat)
    requires |a| == m * Pow(2, k)
    ensures Up(h, a + b, k) == Up(h, a, k) + Up(h, b, k) && |Up(h, a, k)| == m
    decreases k
  {
    hide Count, Pow, NextLevel;
    if k == 0 {
      PowZero();
    } else {
      HalfPow(m, k);
      NextLevelAppend(h, a, b);
      assert Up(h, a + b, k) == Up(h, NextLevel(h, a + b), k - 1);
      UpAppend(h, NextLevel(h, a), NextLevel(h, b), k - 1, m);
    }
  }

  lemma PowZero()
    ensures Pow(2, 0) == 1
  {}

  lemma HalfPow(m: nat, k: nat)
    requires k > 0
    ensures m * Pow(2, k) == 2 * (m * Pow(2, k - 1))
  {
    assert m * (2 * Pow(2, k - 1)) == 2 * (m * Pow(2, k - 1));
  }

  /** 1 to 2^k nodes meet in one node, `k` levels up. */
  lemma {:induction false} CountBatch(n: nat, k: nat)
    requires 1 <= n <= Pow(2, k)
    ensures Count(n, k) == 1
    decreases k
  {
    if k > 0 { CountBatch((n + 1) / 2, k - 1); }
  }

  /** Fold every batch of 2^k nodes exactly `k` levels up. */
  function FoldBatches<D>(h: Hasher<D>, s: seq<D>, k: nat): seq<D>
    decreases |s|
  {
    if s == [] then []
    else if |s| <= Pow(2, k) then [Up(h, s, k)[0]]
    else [Up(h, s[..Pow(2, k)], k)[0]] + FoldBatches(h, s[Pow(2, k)..], k)
  }

  lemma {:induction false} UpEmpty<D>(h: Hasher<D>, k: nat)
    ensures Up(h, [], k) == []
    decreases k
  {
    if k > 0 {
      assert NextLevel(h, []) == [];
      UpEmpty(h, k - 1);
    }
  }

  /** Batchwise folding builds the level itself, partial last batch included. */
  lemma {:induction false} FoldBatchesIsUp<D>(h: Hasher<D>, s: seq<D>, k: nat)
    ensures FoldBatches(h, s, k) == Up(h, s, k)
    decreases |s|
  {
    hide Up, Pow, Count;
    var n := Pow(2, k);
    if s == [] {
      UpEmpty(h, k);
    } else if |s| <= n {
      CountBatch(|s|, k);
    } else {
      assert s == s[..n] + s[n..];
      CountBatch(n, k);
      FullBatch(k);
      UpAppend(h, s[..n], s[n..], k, 1);
      FoldBatchesIsUp(h, s[n..], k);
    }
  }

  lemma FullBatch(k: nat)
    ensures 1 * Pow(2, k) == Pow(2, k)
  {}

  /** The first batch of a level. */
  function Head<D>(b: seq<D>, k: nat): (part: seq<D>)
    requires b != []
    ensures 1 <= |part| <= Pow(2, k)
  {
    if Pow(2, k) <= |b| then b[..Pow(2, k)] else b
  }

  function Start(j: nat, k: nat): nat { j * Pow(2, k) }

  /** The batch below node `j`, `k` levels down. */
  function Below<D>(s: seq<D>, k: nat, j: nat): (part: seq<D>)
    requires j < Count(|s|, k)
    ensures 1 <= |part| <= Pow(2, k)
  {
    CountCovers(|s|, k, j);
    Head(s[Start(j, k)..], k)
  }

  lemma UpHead<D>(h: Hasher<D>, b: seq<D>, k: nat)
    requires b != []
    ensures Up(h, b, k) != [] && Up(h, Head(b, k), k) == [Up(h, b, k)[0]]
  {
    hide Up, Count;
    var n, part := Pow(2, k), Head(b, k);
    CountBatch(|part|, k);
    if n < |b| {
      assert b == part + b[n..];
      UpAppend(h, part, b[n..], k, 1);
    } else {
      assert part == b;
    }
  }

  /** One node of an upper level depends only on the batch below it. */
  lemma UpAt<D>(h: Hasher<D>, s: seq<D>, k: nat, j: nat)
    requires j < Count(|s|, k)
    ensures Up(h, Below(s, k, j), k) == [Up(h, s, k)[j]]
  {
    CountCovers(|s|, k, j);
    var lo := Start(j, k);
    var a, b := s[..lo], s[lo..];
    assert |a| == j * Pow(2, k);
    hide Up, Count, Head, Start;
    assert s == a + b;
    UpAppend(h, a, b, k, j);
    UpHead(h, b, k);
  }

  lemma {:induction false} CountCovers(n: nat, k: nat, j: nat)
    requires j < Count(n, k)
    ensures Start(j, k) < n
    decreases k
  {
    if k > 0 {
      CountCovers((n + 1) / 2, k - 1, j);
      HalfPow(j, k);
    }
  }

  // ----- paths -----

  function Sibling<D>(s: seq<D>, idx: nat): D
    requires idx < |s|
  {
    var sib := if idx % 2 == 0 then idx + 1 else idx - 1;
    if sib < |s| then s[sib] else s[idx]
  }

  /** The siblings from a node up to the root. */
  function Path<D>(h: Hasher<D>, s: seq<D>, idx: nat): seq<D>
    requires idx < |s|
    decreases |s|
  {
    if |s| == 1 then [] else [Sibling(s, idx)] + Path(h, NextLevel(h, s), idx / 2)
  }

  function Joined<D>(h: Hasher<D>, acc: D, idx: nat, sib: D): D {
    if idx % 2 == 0 then h.pair(acc, sib) else h.pair(sib, acc)
  }

  function Climb<D>(h: Hasher<D>, acc: D, idx: nat, path: seq<D>): D {
    if path == [] then acc else Climb(h, Joined(h, acc, idx, path[0]), idx / 2, path[1..])
  }

  /** verify_merkle. */
  method VerifyMerkle<D(==)>(h: Hasher<D>, leaf: D, index: nat, path: seq<D>, root: D) returns (ok: bool)
    ensures ok <==> Climb(h, leaf, index, path) == root
  {
    var acc, idx := leaf, index;
    for k := 0 to |path|
      invariant Climb(h, leaf, index, path) == Climb(h, acc, idx, path[k..])
    {
      acc := Joined(h, acc, idx, path[k]);
      idx := idx / 2;
      assert path[k..][1..] == path[k + 1..];
    }
    ok := acc == root;
  }

  lemma JoinedSibling<D>(h: Hasher<D>, s: seq<D>, idx: nat)
    requires idx < |s|
    ensures Joined(h, s[idx], idx, Sibling(s, idx)) == NextLevel(h, s)[idx / 2]
  {}

  /** The path of a node leads to the root, whatever the hash function. */
  lemma {:induction false} PathClimbs<D>(h: Hasher<D>, s: seq<D>, idx: nat)
    requires idx < |s|
    ensures Climb(h, s[idx], idx, Path(h, s, idx)) == Root(h, s)
    decreases |s|
  {
    if |s| > 1 {
      JoinedSibling(h, s, idx);
      PathClimbs(h, NextLevel(h, s), idx / 2);
      assert Path(h, s, idx)[1..] == Path(h, NextLevel(h, s), idx / 2);
    }
  }

  // ----- binding -----

  /** What is hashed as a leaf: a chunk of the weights or a row of a state. */
  type Chunk = x: seq<u8> | |x| == 32 witness seq(32, _ => 0)

  /** No two different chunks or pairs share a digest; a chunk has half the length of a pair. */
  ghost predicate Ideal<D(!new)>(h: Hasher<D>) {
    && (forall x: Chunk, y: Chunk :: h.leaf(x) == h.leaf(y) ==> x == y)
    && (forall a, b, c, d :: h.pair(a, b) == h.pair(c, d) ==> a == c && b == d)
    && (forall x: Chunk, a, b :: h.leaf(x) != h.pair(a, b))
  }

  ghost predicate IsLeaf<D(!new)>(h: Hasher<D>, d: D) { exists x: Chunk :: d == h.leaf(x) }

  /** Every way down from the digest meets a leaf after exactly `k` steps. */
  ghost predicate Uniform<D(!new)>(h: Hasher<D>, d: D, k: nat)
    decreases k
  {
    if k == 0 then IsLeaf(h, d) else exists a, b :: d == h.pair(a, b) && Uniform(h, a, k - 1) && Uniform(h, b, k - 1)
  }

  /** Some way down meets a leaf after `k` steps. */
  ghost predicate Reaches<D(!new)>(h: Hasher<D>, d: D, k: nat)
    decreases k
  {
    if k == 0 then IsLeaf(h, d) else exists a, b :: d == h.pair(a, b) && (Reaches(h, a, k - 1) || Reaches(h, b, k - 1))
  }

  lemma {:induction false} UniformReaches<D(!new)>(h: Hasher<D>, d: D, k: nat)
    requires Uniform(h, d, k)
    ensures Reaches(h, d, k)
    decreases k
  {
    if k > 0 {
      var a, b :| d == h.pair(a, b) && Uniform(h, a, k - 1) && Uniform(h, b, k - 1);
      UniformReaches(h, a, k - 1);
    }
  }

  lemma {:induction false} OneDepth<D(!new)>(h: Hasher<D>, d: D, k: nat, j: nat)
    requires Ideal(h) && Uniform(h, d, k) && Reaches(h, d, j)
    ensures j == k
    decreases k
  {
    if k > 0 {
      var a, b :| d == h.pair(a, b) && Uniform(h, a, k - 1) && Uniform(h, b, k - 1);
      if j > 0 {
        var c, e :| d == h.pair(c, e) && (Reaches(h, c, j - 1) || Reaches(h, e, j - 1));
        if Reaches(h, c, j - 1) { OneDepth(h, a, k - 1, j - 1); } else { OneDepth(h, b, k - 1, j - 1); }
      }
    }
  }

  ghost predicate AllUniform<D(!new)>(h: Hasher<D>, s: seq<D>, k: nat) {
    forall i :: 0 <= i < |s| ==> Uniform(h, s[i], k)
  }

  lemma NextUniform<D(!new)>(h: Hasher<D>, s: seq<D>, k: nat)
    requires AllUniform(h, s, k)
    ensures AllUniform(h, NextLevel(h, s), k + 1)
  {
    var t := NextLevel(h, s);
    forall i | 0 <= i < |t|
      ensures Uniform(h, t[i], k + 1)
    {
      var a, b := s[2 * i], if 2 * i + 1 < |s| then s[2 * i + 1] else s[2 * i];
      assert t[i] == h.pair(a, b) && Uniform(h, a, k) && Uniform(h, b, k);
    }
  }

  lemma {:induction false} UpUniform<D(!new)>(h: Hasher<D>, s: seq<D>, k: nat, j: nat)
    requires AllUniform(h, s, k)
    ensures AllUniform(h, Up(h, s, j), k + j)
    decreases j
  {
    if j > 0 {
      NextUniform(h, s, k);
      UpUniform(h, NextLevel(h, s), k + 1, j - 1);
    }
  }

  lemma {:induction false} RootUniform<D(!new)>(h: Hasher<D>, s: seq<D>, k: nat) returns (depth: nat)
    requires s != [] && AllUniform(h, s, k)
    ensures Uniform(h, Root(h, s), depth) && depth >= k && (|s| > 1 ==> depth > k)
    decreases |s|
  {
    if |s| == 1 {
      depth := k;
    } else {
      NextUniform(h, s, k);
      depth := RootUniform(h, NextLevel(h, s), k + 1);
    }
  }

  lemma {:induction false} ClimbReaches<D(!new)>(h: Hasher<D>, acc: D, idx: nat, path: seq<D>, k: nat)
    requires Reaches(h, acc, k)
    ensures Reaches(h, Climb(h, acc, idx, path), k + |path|)
    decreases |path|
  {
    if path != [] {
      var up := Joined(h, acc, idx, path[0]);
      assert Reaches(h, up, k + 1) by {
        if idx % 2 == 0 { assert up == h.pair(acc, path[0]); } else { assert up == h.pair(path[0], acc); }
      }
      ClimbReaches(h, up, idx / 2, path[1..], k + 1);
    }
  }

  lemma PathEnds<D(!new)>(h: Hasher<D>, s: seq<D>, k: nat, acc: D, idx: nat, path: seq<D>)
    requires Ideal(h) && AllUniform(h, s, k) && Reaches(h, acc, k) && idx < |s|
    requires Climb(h, acc, idx, path) == Root(h, s)
    ensures path == [] <==> |s| == 1
  {
    hide Ideal, Uniform, Reaches, Climb;
    ClimbReaches(h, acc, idx, path, k);
    var depth := RootUniform(h, s, k);
    OneDepth(h, Root(h, s), depth, k + |path|);
    if |s| == 1 { OneDepth(h, s[0], k, k + |path|); }
  }

  /**
   Under an ideal hash, the only leaf and path that climb to the root at an index are the tree's own,
   although nothing checks the length of the path.
   */
  lemma {:induction false} PathBinds<D(!new)>(h: Hasher<D>, s: seq<D>, k: nat, acc: D, idx: nat, path: seq<D>)
    requires Ideal(h) && AllUniform(h, s, k) && Reaches(h, acc, k) && idx < |s|
    requires Climb(h, acc, idx, path) == Root(h, s)
    ensures acc == s[idx] && path == Path(h, s, idx)
    decreases |s|
  {
    hide Ideal, AllUniform, Reaches, Joined, NextLevel;
    PathEnds(h, s, k, acc, idx, path);
    if |s| > 1 {
      NextUniform(h, s, k);
      JoinedReaches(h, acc, idx, path[0], k);
      PathBinds(h, NextLevel(h, s), k + 1, Joined(h, acc, idx, path[0]), idx / 2, path[1..]);
      JoinedSibling(h, s, idx);
      JoinedInjective(h, acc, path[0], s[idx], Sibling(s, idx), idx);
      assert path == [path[0]] + path[1..];
    }
  }

  lemma JoinedInjective<D(!new)>(h: Hasher<D>, a: D, x: D, b: D, y: D, idx: nat)
    requires Ideal(h) && Joined(h, a, idx, x) == Joined(h, b, idx, y)
    ensures a == b && x == y
  {}

  lemma JoinedReaches<D(!new)>(h: Hasher<D>, acc: D, idx: nat, sib: D, k: nat)
    requires Reaches(h, acc, k)
    ensures Reaches(h, Joined(h, acc, idx, sib), k + 1)
  {
    var up := Joined(h, acc, idx, sib);
    if idx % 2 == 0 { assert up == h.pair(acc, sib); } else { assert up == h.pair(sib, acc); }
  }

  lemma NextInjective<D(!new)>(h: Hasher<D>, s: seq<D>, t: seq<D>)
    requires Ideal(h) && |s| == |t| && NextLevel(h, s) == NextLevel(h, t)
    ensures s == t
  {
    forall i | 0 <= i < |s|
      ensures s[i] == t[i]
    {
      assert NextLevel(h, s)[i / 2] == NextLevel(h, t)[i / 2];
    }
  }

  /** Equal roots of equally many nodes come from the same nodes. */
  lemma {:induction false} RootInjective<D(!new)>(h: Hasher<D>, s: seq<D>, t: seq<D>)
    requires Ideal(h) && |s| == |t| && s != [] && Root(h, s) == Root(h, t)
    ensures s == t
    decreases |s|
  {
    if |s| > 1 {
      RootInjective(h, NextLevel(h, s), NextLevel(h, t));
      NextInjective(h, s, t);
    }
  }

  // ----- in place -----

  /** One round over the first `len` nodes of a buffer: results overwrite nodes already read. */
  method ReduceInPlace<D>(h: Hasher<D>, level: array<D>, len: nat) returns (out: nat)
    requires len <= level.Length
    modifies level
    ensures out == (len + 1) / 2 && level[..out] == NextLevel(h, old(level[..len]))
  {
    ghost var before := level[..len];
    var i := 0;
    out := 0;
    while i < len
      invariant i == 2 * out && out <= (len + 1) / 2
      invariant level[..out] == NextLevel(h, before)[..out]
      invariant forall j :: i <= j < len ==> level[j] == before[j]
    {
      var left := level[i];
      var right := if i + 1 < len then level[i + 1] else left;
      level[out] := h.pair(left, right);
      assert level[..out + 1] == level[..out] + [level[out]];
      out := out + 1;
      i := i + 2;
    }
  }

  /** fold_levels: exactly `rounds` levels up. */
  method FoldLevels<D>(h: Hasher<D>, batch: seq<D>, rounds: nat) returns (node: D)
    requires batch != []
    ensures node == Up(h, batch, rounds)[0]
  {
    var level := new D[|batch|](i requires 0 <= i < |batch| => batch[i]);
    assert level[..] == batch;
    var len := |batch|;
    for k := 0 to rounds
      invariant 0 < len <= level.Length && level[..len] == Up(h, batch, k)
    {
      UpNext(h, batch, k);
      len := ReduceInPlace(h, level, len);
    }
    node := level[..len][0];
  }

  /** merkle_root: up until one node is left. */
  method MerkleRoot<D>(h: Hasher<D>, leaves: seq<D>) returns (root: D)
    requires leaves != []
    ensures root == Root(h, leaves)
  {
    var level := new D[|leaves|](i requires 0 <= i < |leaves| => leaves[i]);
    assert level[..] == leaves;
    var len := |leaves|;
    assert level[..len] == leaves;
    while len > 1
      invariant 0 < len <= level.Length && Root(h, level[..len]) == Root(h, leaves)
    {
      len := ReduceInPlace(h, level, len);
    }
    root := level[..len][0];
  }

  /** merkle_root_32. */
  method MerkleRoot32<D>(h: Hasher<D>, leaves: seq<D>) returns (root: D)
    requires |leaves| == 32
    ensures root == Root(h, leaves)
  {
    var nodes := new D[32](i requires 0 <= i < 32 => leaves[i]);
    var len := 32;
    assert nodes[..len] == leaves;
    while len > 1
      invariant len in {32, 16, 8, 4, 2, 1} && Root(h, nodes[..len]) == Root(h, leaves)
    {
      HalveInPlace(h, nodes, len);
      len := len / 2;
    }
    root := nodes[..len][0];
  }

  method HalveInPlace<D>(h: Hasher<D>, nodes: array<D>, len: nat)
    requires len <= nodes.Length && len % 2 == 0
    modifies nodes
    ensures nodes[..len / 2] == NextLevel(h, old(nodes[..len]))
  {
    ghost var before := nodes[..len];
    for i := 0 to len / 2
      invariant nodes[..i] == NextLevel(h, before)[..i]
      invariant forall j :: 2 * i <= j < len ==> nodes[j] == before[j]
    {
      var left, right := nodes[i * 2], nodes[i * 2 + 1];
      nodes[i] := h.pair(left, right);
      assert nodes[..i + 1] == nodes[..i] + [nodes[i]];
    }
  }
}
