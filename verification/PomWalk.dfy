/** The v4 walk over the model's weights, whatever mixes its offsets and scrambles its cells. */
module PomWalk {
  import opened ByteOrder
  import opened Positional
  import opened Merkle
  import opened Checkpoints
  import opened PomDot

  /** A tile, and a walk state: 32 rows of 32 bytes. */
  type Square = s: seq<u8> | |s| == 1024 witness seq(1024, _ => 0)
  /** The first row of a tile, which steers the walk. */
  type Snippet = s: seq<u8> | |s| == 32 witness seq(32, _ => 0)

  const STEPS: nat := 256
  const DEPTH: nat := 5

  /** Raw offset draws, the first state, and the cell scrambler (dot product, step, row, column). */
  datatype Mixer = Mixer(
    first: bv64 -> nat,
    next: (bv64, nat, Snippet) -> nat,
    initial: bv64 -> Square,
    rho: (int, nat, nat, nat) -> u8)

  // ----- steps -----

  function Line(s: Square, i: nat): (line: Snippet)
    requires i < 32
  {
    s[32 * i..32 * i + 32]
  }

  function Cell(m: Mixer, state: Square, tile: Square, step: nat, x: nat, j: nat): u8
    requires x < 32 && j < 32
  {
    m.rho(Dot(Line(state, x), Line(tile, j)), step, x, j)
  }

  /** Every cell is the dot product of a state row and a tile row, scrambled. */
  function Transition(m: Mixer, state: Square, tile: Square, step: nat): Square {
    seq(1024, k requires 0 <= k < 1024 => Cell(m, state, tile, step, k / 32, k % 32))
  }

  // ----- a transition, byte by byte -----

  /** Sum of the signed products of row `x` of the state and row `j` of the tile, over their first `k` bytes. */
  function RowSum(state: Square, tile: Square, x: nat, j: nat, k: nat): int
    requires x < 32 && j < 32 && k <= 32
  {
    if k == 0 then 0 else RowSum(state, tile, x, j, k - 1) + I8(state[32 * x + k - 1]) * I8(tile[32 * j + k - 1])
  }

  /** Every byte of `next` scrambles the sum for its own row of the state and its own row of the tile. */
  ghost predicate Moves(m: Mixer, state: Square, tile: Square, step: nat, next: Square) {
    forall x: nat, j: nat | x < 32 && j < 32 :: ByteAt(next, x, j) == m.rho(RowSum(state, tile, x, j, 32), step, x, j)
  }

  function ByteAt(s: Square, x: nat, j: nat): u8
    requires x < 32 && j < 32
  {
    s[32 * x + j]
  }

  lemma {:induction false} PartialDot(state: Square, tile: Square, x: nat, j: nat, k: nat)
    requires x < 32 && j < 32 && k <= 32
    ensures Sum(Products(Line(state, x), Line(tile, j))[..k]) == RowSum(state, tile, x, j, k)
    decreases k
  {
    hide Sum;
    var p := Products(Line(state, x), Line(tile, j));
    if k == 0 {
      assert p[..0] == [];
      SumNone();
    } else {
      PartialDot(state, tile, x, j, k - 1);
      SumStep(p, k - 1);
    }
  }

  lemma TransitionMoves(m: Mixer, state: Square, tile: Square, step: nat)
    ensures Moves(m, state, tile, step, Transition(m, state, tile, step))
  {
    hide RowSum, Sum, Products;
    forall x: nat, j: nat | x < 32 && j < 32
      ensures ByteAt(Transition(m, state, tile, step), x, j) == m.rho(RowSum(state, tile, x, j, 32), step, x, j)
    {
      CellIndex(x, j);
      PartialDot(state, tile, x, j, 32);
      var p := Products(Line(state, x), Line(tile, j));
      assert p[..32] == p;
    }
  }

  // ----- the walk -----

  /** The tile asked for after reading `tiles`. */
  function Off(m: Mixer, seed: bv64, nTiles: nat, tiles: seq<Square>): (off: nat)
    requires nTiles > 0
    ensures off < nTiles
  {
    if tiles == [] then Mod(m.first(seed), nTiles)
    else Mod(m.next(seed, |tiles|, Line(tiles[|tiles| - 1], 0)), nTiles)
  }

  function StateOf(m: Mixer, seed: bv64, tiles: seq<Square>): Square {
    if tiles == [] then m.initial(seed)
    else Transition(m, StateOf(m, seed, tiles[..|tiles| - 1]), tiles[|tiles| - 1], |tiles|)
  }

  lemma OffSnoc(m: Mixer, seed: bv64, n: nat, tiles: seq<Square>, tile: Square)
    requires n > 0
    ensures Off(m, seed, n, tiles + [tile]) == Mod(m.next(seed, |tiles| + 1, Line(tile, 0)), n)
  {}

  lemma StateSnoc(m: Mixer, seed: bv64, tiles: seq<Square>, tile: Square)
    ensures StateOf(m, seed, tiles + [tile]) == Transition(m, StateOf(m, seed, tiles), tile, |tiles| + 1)
  {
    hide Transition;
    assert (tiles + [tile])[..|tiles|] == tiles;
  }

  /** v4_transition_into, on any kernel: the destination must not be the source. */
  method TransitionInto(kernel: Kernel, m: Mixer, dst: array<u8>, src: array<u8>, tile: Square, step: nat)
    requires dst != src && dst.Length == 1024 && src.Length == 1024
    modifies dst
    ensures dst[..] == Transition(m, src[..], tile, step)
    ensures Moves(m, src[..], tile, step, dst[..])
  {
    hide Dot, Moves;
    TransitionMoves(m, src[..], tile, step);
    ghost var state: Square := src[..];
    for x := 0 to 32
      invariant src[..] == state
      invariant forall k :: 0 <= k < 32 * x ==> dst[k] == Cell(m, state, tile, step, k / 32, k % 32)
    {
      var row := src[32 * x..32 * x + 32];
      for j := 0 to 32
        invariant src[..] == state
        invariant forall k :: 0 <= k < 32 * x + j ==> dst[k] == Cell(m, state, tile, step, k / 32, k % 32)
      {
        var dot := DotWith(kernel, row, tile[32 * j..32 * j + 32]);
        assert row == Line(state, x);
        CellIndex(x, j);
        dst[32 * x + j] := m.rho(dot, step, x, j);
      }
    }
  }

  lemma CellIndex(x: nat, j: nat)
    requires j < 32
    ensures (32 * x + j) / 32 == x && (32 * x + j) % 32 == j
  {}

  // ----- the tree over the weights -----

  function Leaves<D>(h: Hasher<D>, data: seq<u8>): (leaves: seq<D>)
    ensures |leaves| == |data| / 32
  {
    seq(|data| / 32, i requires 0 <= i < |data| / 32 => h.leaf(data[32 * i..32 * i + 32]))
  }

  function NTiles(data: seq<u8>): (n: nat)
    ensures n > 0 ==> |data| >= 1024
  {
    |data| / 32 / 32
  }

  lemma TileInRange(data: seq<u8>, off: nat)
    requires off < NTiles(data)
    ensures 1024 * off + 1024 <= |data|
  {}

  function TileAt(data: seq<u8>, off: nat): Square
    requires off < NTiles(data)
  {
    TileInRange(data, off);
    data[1024 * off..1024 * off + 1024]
  }

  /** v4_tile_subtree_root, and v4_state_root over a state's rows. */
  function SquareRoot<D>(h: Hasher<D>, tile: Square): D {
    Root(h, Leaves(h, tile))
  }

  method SubtreeRoot<D>(h: Hasher<D>, tile: Square) returns (root: D)
    ensures root == SquareRoot(h, tile)
  {
    root := MerkleRoot32(h, Leaves(h, tile));
  }

  lemma LeavesOfTile<D>(h: Hasher<D>, data: seq<u8>, off: nat)
    requires off < NTiles(data)
    ensures 32 * off + 32 <= |Leaves(h, data)|
    ensures Leaves(h, TileAt(data, off)) == Leaves(h, data)[32 * off..32 * off + 32]
  {
    TileInRange(data, off);
    var tile := TileAt(data, off);
    forall i | 0 <= i < 32
      ensures tile[32 * i..32 * i + 32] == data[32 * (32 * off + i)..32 * (32 * off + i) + 32]
    {
    }
  }

  lemma Level5Count(n: nat)
    requires n >= 32
    ensures Count(n, 4) > 1 && Count(n, DEPTH) >= n / 32
  {
    CountStep(n, 0);
    CountStep(n, 1);
    CountStep(n, 2);
    CountStep(n, 3);
    CountStep(n, 4);
  }

  lemma RootOf32<D>(h: Hasher<D>, s: seq<D>)
    requires |s| == 32
    ensures Up(h, s, DEPTH) == [Root(h, s)]
  {
    Level5Count(32);
    RootOfUp(h, s, DEPTH);
    assert Pow(2, DEPTH) == 32 by { SmallPowers(); }
    CountBatch(32, DEPTH);
  }

  /** The tree five levels up, where every whole tile has its own node. */
  function TileLevel<D>(h: Hasher<D>, data: seq<u8>): (nodes: seq<D>)
    requires NTiles(data) > 0
    ensures |nodes| >= NTiles(data)
  {
    Level5Count(|Leaves(h, data)|);
    Up(h, Leaves(h, data), DEPTH)
  }

  /** The subtree root of a whole tile is its node of the tree. */
  lemma TileNode<D>(h: Hasher<D>, data: seq<u8>, off: nat)
    requires off < NTiles(data)
    ensures TileLevel(h, data)[off] == SquareRoot(h, TileAt(data, off))
  {
    hide Up, Count, Root;
    var leaves := Leaves(h, data);
    LeavesOfTile(h, data, off);
    Level5Count(|leaves|);
    UpAt(h, leaves, DEPTH, off);
    assert Pow(2, DEPTH) == 32 by { SmallPowers(); }
    hide Pow, Leaves, TileAt, NTiles;
    assert Below(leaves, DEPTH, off) == leaves[32 * off..32 * off + 32];
    RootOf32(h, leaves[32 * off..32 * off + 32]);
  }

  function TreeRoot<D>(h: Hasher<D>, data: seq<u8>): D
    requires NTiles(data) > 0
  {
    Root(h, Leaves(h, data))
  }

  lemma TreeRootIs<D>(h: Hasher<D>, data: seq<u8>)
    requires NTiles(data) > 0
    ensures Root(h, TileLevel(h, data)) == TreeRoot(h, data)
  {
    hide Up, Count, Root, Leaves;
    Level5Count(|Leaves(h, data)|);
    RootOfUp(h, Leaves(h, data), DEPTH);
  }

  /** The path that goes with a tile. */
  function TilePath<D>(h: Hasher<D>, data: seq<u8>, off: nat): seq<D>
    requires off < NTiles(data)
  {
    Path(h, TileLevel(h, data), off)
  }

  /** The tile and path the walk asks for climb to the root of the tree, whatever the hash. */
  lemma HonestStep<D>(h: Hasher<D>, data: seq<u8>, off: nat)
    requires off < NTiles(data)
    ensures Climb(h, SquareRoot(h, TileAt(data, off)), off, TilePath(h, data, off)) == TreeRoot(h, data)
  {
    hide Climb, SquareRoot, TreeRoot, TileLevel, Path, TileAt, NTiles;
    TileNode(h, data, off);
    TreeRootIs(h, data);
    PathClimbs(h, TileLevel(h, data), off);
  }

  lemma LeavesUniform<D(!new)>(h: Hasher<D>, data: seq<u8>)
    ensures AllUniform(h, Leaves(h, data), 0)
  {
    forall i | 0 <= i < |Leaves(h, data)|
      ensures Uniform(h, Leaves(h, data)[i], 0)
    {
      assert IsLeaf(h, h.leaf(data[32 * i..32 * i + 32]));
    }
  }

  lemma SquareReaches<D(!new)>(h: Hasher<D>, tile: Square)
    ensures Reaches(h, SquareRoot(h, tile), DEPTH)
  {
    hide Up, Root, Uniform, Leaves, Reaches;
    LeavesUniform(h, tile);
    UpUniform(h, Leaves(h, tile), 0, DEPTH);
    RootOf32(h, Leaves(h, tile));
    assert Up(h, Leaves(h, tile), DEPTH)[0] == SquareRoot(h, tile);
    UniformReaches(h, SquareRoot(h, tile), DEPTH);
  }

  lemma TileLevelUniform<D(!new)>(h: Hasher<D>, data: seq<u8>)
    requires NTiles(data) > 0
    ensures AllUniform(h, TileLevel(h, data), DEPTH)
  {
    hide Up, AllUniform, Leaves;
    LeavesUniform(h, data);
    UpUniform(h, Leaves(h, data), 0, DEPTH);
  }

  lemma SameChunks<D(!new)>(h: Hasher<D>, a: Square, b: Square, c: nat)
    requires Ideal(h) && Leaves(h, a) == Leaves(h, b) && c < 32
    ensures a[32 * c..32 * c + 32] == b[32 * c..32 * c + 32]
  {
    assert Leaves(h, a)[c] == Leaves(h, b)[c];
  }

  lemma SameSquare<D(!new)>(h: Hasher<D>, a: Square, b: Square)
    requires Ideal(h) && SquareRoot(h, a) == SquareRoot(h, b)
    ensures a == b
  {
    hide Root, Ideal, Leaves;
    RootInjective(h, Leaves(h, a), Leaves(h, b));
    forall c | 0 <= c < 32
      ensures a[32 * c..32 * c + 32] == b[32 * c..32 * c + 32]
    {
      SameChunks(h, a, b, c);
    }
    JoinChunks(a, b);
  }

  lemma JoinChunks(a: Square, b: Square)
    requires forall c :: 0 <= c < 32 ==> a[32 * c..32 * c + 32] == b[32 * c..32 * c + 32]
    ensures a == b
  {
    forall i | 0 <= i < 1024
      ensures a[i] == b[i]
    {
      var c := i / 32;
      assert a[32 * c..32 * c + 32][i - 32 * c] == a[i];
      assert b[32 * c..32 * c + 32][i - 32 * c] == b[i];
    }
  }

  /** Under an ideal hash no other tile or path climbs to the root at that offset. */
  lemma BoundStep<D(!new)>(h: Hasher<D>, data: seq<u8>, off: nat, tile: Square, path: seq<D>)
    requires Ideal(h) && off < NTiles(data)
    requires Climb(h, SquareRoot(h, tile), off, path) == TreeRoot(h, data)
    ensures tile == TileAt(data, off) && path == TilePath(h, data, off)
  {
    hide Ideal, Root, Climb, SquareRoot, TreeRoot, Reaches, AllUniform, TileLevel, TileAt, Path, NTiles;
    TileNode(h, data, off);
    TreeRootIs(h, data);
    SquareReaches(h, tile);
    TileLevelUniform(h, data);
    PathBinds(h, TileLevel(h, data), DEPTH, SquareRoot(h, tile), off, path);
    SameSquare(h, tile, TileAt(data, off));
  }
}
