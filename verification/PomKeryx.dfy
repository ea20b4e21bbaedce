/** The v4 walk with the mixing that every miner and node uses. */
module PomKeryx {
  import opened Wrappers
  import opened ByteOrder
  import opened Positional
  import opened Merkle
  import opened PomChunks
  import opened PomDot
  import opened PomWalk
  import opened PomMixing
  import opened PomProof

  /** v4_first_offset: where the walk starts. */
  method FirstOffset(seed: bv64, nTiles: nat) returns (off: nat)
    requires nTiles > 0
    ensures off == Off(KeryxMixer(), seed, nTiles, []) < nTiles
  {
    hide Mix64, Xor;
    off := Number(Mix64(Xor(seed, OFFSET_FIRST_SALT))) % nTiles;
  }

  /** v4_next_offset: where it goes after reading a tile. */
  method NextOffset(seed: bv64, ghost tiles: seq<Square>, step: nat, snippet: Snippet, nTiles: nat) returns (off: nat)
    requires nTiles > 0 && step == |tiles| > 0 && snippet == Line(tiles[|tiles| - 1], 0)
    ensures off == Off(KeryxMixer(), seed, nTiles, tiles) < nTiles
  {
    hide Mix64, Folded, Xor, StepKey;
    var sf := SnippetFold(snippet);
    off := Number(Mix64(Xor(StepKey(seed, step), sf))) % nTiles;
  }

  /** v4_initial_state: the state before the first step. */
  method FirstState(seed: bv64) returns (s: Square)
    ensures s == StateOf(KeryxMixer(), seed, []) && IsInitial(seed, s)
  {
    hide IsInitial, Rows;
    s := InitialState(seed);
  }

  /** Walks that read different rows where exactly one word differs draw different numbers for their next tile. */
  lemma WalkReacts(seed: bv64, step: nat, a: Snippet, b: Snippet, w: nat)
    requires w < 8 && SameButFor(a, b, w)
    ensures KeryxMixer().next(seed, step, a) == KeryxMixer().next(seed, step, b) <==> a == b
  {
    hide SameButFor, NextDraw;
    if NextDraw(seed, step, a) == NextDraw(seed, step, b) { NextDrawBinds(seed, step, a, b, w); }
  }

  /** Whatever the file, the hash and the two kernels, the self-check accepts the proof and finds the builder's final state. */
  method ProveAndCheck<D(==)>(builder: Kernel, checker: Kernel, h: Hasher<D>, fold: D -> bv64, seed: bv64, file: seq<u8>,
                              tensors: seq<Tensor>, tier: u8, buildDense: bool, memoOn: bool, memoMax: nat)
    returns (built: Option<(Proof<D>, bv64)>, verdict: Verdict)
    requires InFile(file, tensors) && FirstChunk(tensors, |tensors|) > 0
    ensures built.None? <==> FirstChunk(tensors, |tensors|) < 32
    ensures built.Some? ==> verdict == Ok(built.value.1)
  {
    hide *;
    built, verdict := BuildAndCheck(builder, checker, Task(h, KeryxMixer(), fold, seed), file, tensors, tier, buildDense, memoOn, memoMax);
  }

  // ----- the mixing, number by number -----

  /** The draws of the Keryx mixer, with their constants. */
  lemma DrawsAre(seed: bv64, step: nat, snippet: Snippet)
    ensures KeryxMixer().first(seed) == Number(Mix64(Xor(seed, 0x6D1CCF96AC4D76F9)))
    ensures KeryxMixer().next(seed, step, snippet)
            == Number(Mix64(Xor(Xor(seed, Product(AsU64(step + 1), 0x89050E78D34609EF)), Folded(snippet, 8))))
  {
    hide Mix64, Number, Folded, AsU64, Xor, Product;
  }

  /** Its scrambler takes the dot product, the step, the row and the column, in this order. */
  lemma CellsAre(dot: int, step: nat, x: nat, j: nat)
    ensures KeryxMixer().rho(dot, step, x, j) == Rho8(AsU32(dot), RhoTweak(AsU32(step), AsU32(x), AsU32(j)))
  {
    hide Rho8, AsU32, RhoTweak;
  }

  /** Single values of the mixing functions, which other implementations must reproduce. */
  lemma KnownMixes()
    ensures Mix64(0) == 0 && Mix64(1) == 0x5692161d100b05e5
    ensures Mix64(0x6b657279782d7634 ^ 0x6D1CCF96AC4D76F9) == 0x3deeb40556044e81
  {}

  lemma KnownCells()
    ensures Rho8(0, RhoTweak(1, 0, 1)) == 234 && Rho8(1, RhoTweak(1, 0, 1)) == 213
    ensures Rho8(5, RhoTweak(2, 3, 0)) == 153 && Rho8(0xffff_ffff, RhoTweak(256, 31, 30)) == 207
  {}

  /** The first word of row 1 of the state of the seed 0x6b657279782d7634. */
  lemma KnownState()
    ensures Mixed(RowStart(0x6b657279782d7634, 1), 1) == 0x966db431f9fe3791
    ensures Le4(0x966db431f9fe3791) == [0x91, 0x37, 0xfe, 0xf9]
  {
    WideOne();
    hide Wide;
    assert RowStart(0x6b657279782d7634, 1) == Mix64(0x6b657279782d7634 ^ 0x03421325594C3C52);
  }

  lemma WideOne()
    ensures Wide(1) == 1
  {
    assert Halved(1, 0) == 1 && Halved(1, 1) == 0 && Halved(1, 2) == 0 && Halved(1, 3) == 0;
    assert Halved(1, 4) == 0 && Halved(1, 5) == 0 && Halved(1, 6) == 0 && Halved(1, 7) == 0;
  }
}
