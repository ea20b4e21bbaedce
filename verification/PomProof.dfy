/** Building and checking v4 proofs of model possession. */
module PomProof {
  import opened Wrappers
  import opened ByteOrder
  import opened Positional
  import opened Merkle
  import opened Checkpoints
  import opened PomChunks
  import opened PomDot
  import opened PomWalk

  datatype Proof<D> = Proof(tier: u8, tiles: seq<seq<u8>>, merkle: seq<seq<D>>)

  datatype Verdict = Ok(finalState: bv64) | WrongShape | BlobTooSmall | TileShape | RangeProof(step: nat)

  /** Hash, mixing and final folding, and the seed of one block template. */
  datatype Task<!D> = Task(h: Hasher<D>, mixer: Mixer, fold: D -> bv64, seed: bv64)

  // ----- what the walk over the weights yields -----

  function WalkTiles<D>(task: Task<D>, data: seq<u8>, k: nat): (tiles: seq<Square>)
    requires NTiles(data) > 0
    ensures |tiles| == k
    decreases k, 0
  {
    hide TileAt, Off, NTiles;
    if k == 0 then [] else WalkTiles(task, data, k - 1) + [TileAt(data, NextOff(task, data, k - 1))]
  }

  /** The offset of step `k + 1`. */
  function NextOff<D>(task: Task<D>, data: seq<u8>, k: nat): (off: nat)
    requires NTiles(data) > 0
    ensures off < NTiles(data)
    decreases k, 1
  {
    hide Off, NTiles;
    Off(task.mixer, task.seed, NTiles(data), WalkTiles(task, data, k))
  }

  function WalkPaths<D>(task: Task<D>, data: seq<u8>, k: nat): (paths: seq<seq<D>>)
    requires NTiles(data) > 0
    ensures |paths| == k
    decreases k
  {
    hide NTiles, TilePath;
    if k == 0 then [] else WalkPaths(task, data, k - 1) + [TilePath(task.h, data, NextOff(task, data, k - 1))]
  }

  function FinalState<D>(task: Task<D>, tiles: seq<Square>): bv64 {
    task.fold(SquareRoot(task.h, StateOf(task.mixer, task.seed, tiles)))
  }

  lemma {:induction false} WalkPrefix<D>(task: Task<D>, data: seq<u8>, j: nat, k: nat)
    requires NTiles(data) > 0 && j <= k
    ensures WalkTiles(task, data, k)[..j] == WalkTiles(task, data, j) && WalkPaths(task, data, k)[..j] == WalkPaths(task, data, j)
    decreases k
  {
    hide NextOff, TileAt, NTiles, TilePath;
    if j < k { WalkPrefix(task, data, j, k - 1); }
  }

  // ----- the check -----

  predicate Shaped(tiles: seq<seq<u8>>) { forall i :: 0 <= i < |tiles| ==> |tiles[i]| == 1024 }

  function Squares(tiles: seq<seq<u8>>): (squares: seq<Square>)
    requires Shaped(tiles)
    ensures squares == tiles
  {
    seq(|tiles|, i requires 0 <= i < |tiles| => tiles[i])
  }

  predicate StepPasses<D(==)>(task: Task<D>, root: D, nTiles: nat, read: seq<Square>, tile: Square, path: seq<D>)
    requires nTiles > 0
  {
    Climb(task.h, SquareRoot(task.h, tile), Off(task.mixer, task.seed, nTiles, read), path) == root
  }

  /** The verdict from step `k + 1` on. */
  function JudgeFrom<D(==)>(task: Task<D>, root: D, nTiles: nat, proof: Proof<D>, k: nat): Verdict
    requires nTiles > 0 && k <= STEPS == |proof.tiles| == |proof.merkle| && Shaped(proof.tiles[..k])
    decreases STEPS - k
  {
    hide StepPasses, FinalState;
    if k == STEPS then Ok(FinalState(task, Squares(proof.tiles[..STEPS])))
    else if |proof.tiles[k]| != 1024 then TileShape
    else if !StepPasses(task, root, nTiles, Squares(proof.tiles[..k]), proof.tiles[k], proof.merkle[k]) then RangeProof(k + 1)
    else
      assert proof.tiles[..k + 1] == proof.tiles[..k] + [proof.tiles[k]];
      JudgeFrom(task, root, nTiles, proof, k + 1)
  }

  /** verify_proof_v4. */
  function Judge<D(==)>(task: Task<D>, root: D, nChunks: nat, proof: Proof<D>): Verdict {
    if |proof.tiles| != STEPS || |proof.merkle| != STEPS then WrongShape
    else if nChunks / 32 == 0 then BlobTooSmall
    else JudgeFrom(task, root, nChunks / 32, proof, 0)
  }

  method VerifyProof<D(==)>(kernel: Kernel, task: Task<D>, proof: Proof<D>, root: D, nChunks: nat) returns (r: Verdict)
    ensures r == Judge(task, root, nChunks, proof)
  {
    if |proof.tiles| != STEPS || |proof.merkle| != STEPS { return WrongShape; }
    var n := nChunks / 32;
    if n == 0 { return BlobTooSmall; }
    hide *;
    JudgeStart(task, root, nChunks, proof);
    var state := new u8[1024](i requires 0 <= i < 1024 => task.mixer.initial(task.seed)[i]);
    var scratch := new u8[1024](_ => 0);
    var off := Mod(task.mixer.first(task.seed), n);
    Beginning(task.mixer, task.seed, n);
    ghost var read: seq<Square> := [];
    for k := 0 to STEPS
      invariant state != scratch && fresh(state) && fresh(scratch) && state.Length == 1024 && scratch.Length == 1024
      invariant Shaped(proof.tiles[..k]) && read == proof.tiles[..k]
      invariant Judge(task, root, nChunks, proof) == JudgeFrom(task, root, n, proof, k)
      invariant state[..] == StateOf(task.mixer, task.seed, read) && off == Off(task.mixer, task.seed, n, read)
    {
      var failed, next := VerifyStep(kernel, task, root, n, proof, k, read, off, scratch, state);
      if failed.Some? { return failed.value; }
      state, scratch, off := scratch, state, next;
      read := Squares(proof.tiles[..k + 1]);
      AllowsIs(task, n, proof.tiles[..k + 1], read, state[..], off);
    }
    JudgeEnd(task, root, n, proof, read);
    var stateRoot := SubtreeRoot(task.h, state[..]);
    r := Ok(task.fold(stateRoot));
  }

  /** Check one tile, and take the state in `src` one step on into `dst`. */
  method VerifyStep<D(==)>(kernel: Kernel, task: Task<D>, root: D, n: nat, proof: Proof<D>, k: nat, ghost read: seq<Square>,
                           off: nat, dst: array<u8>, src: array<u8>)
    returns (failed: Option<Verdict>, next: nat)
    requires n > 0 && k < STEPS == |proof.tiles| == |proof.merkle| && Shaped(proof.tiles[..k]) && read == proof.tiles[..k]
    requires dst != src && dst.Length == 1024 && src.Length == 1024
    requires src[..] == StateOf(task.mixer, task.seed, read) && off == Off(task.mixer, task.seed, n, read)
    modifies dst
    ensures failed.Some? ==> JudgeFrom(task, root, n, proof, k) == failed.value
    ensures failed.None? ==>
              && Shaped(proof.tiles[..k + 1]) && JudgeFrom(task, root, n, proof, k) == JudgeFrom(task, root, n, proof, k + 1)
              && Allows(task, n, proof.tiles[..k + 1], dst[..], next)
  {
    hide *;
    next := off;
    JudgeAt(task, root, n, proof, k, read);
    var tile := proof.tiles[k];
    if |tile| != 1024 { return Some(TileShape), next; }
    var node := SubtreeRoot(task.h, tile);
    var ok := VerifyMerkle(task.h, node, off, proof.merkle[k], root);
    if !ok { return Some(RangeProof(k + 1)), next; }
    TransitionInto(kernel, task.mixer, dst, src, tile, k + 1);
    next := Mod(task.mixer.next(task.seed, k + 1, Line(tile, 0)), n);
    assert proof.tiles[..k + 1] == read + [tile];
    Advance(task, n, read, tile, dst[..], next);
    failed := None;
  }

  /** State and next offset after reading `tiles`. */
  ghost predicate Allows<D>(task: Task<D>, n: nat, tiles: seq<seq<u8>>, state: seq<u8>, off: nat)
    requires n > 0 && Shaped(tiles)
  {
    state == StateOf(task.mixer, task.seed, Squares(tiles)) && off == Off(task.mixer, task.seed, n, Squares(tiles))
  }

  lemma Advance<D>(task: Task<D>, n: nat, read: seq<Square>, tile: Square, state: seq<u8>, off: nat)
    requires n > 0 && state == Transition(task.mixer, StateOf(task.mixer, task.seed, read), tile, |read| + 1)
    requires off == Mod(task.mixer.next(task.seed, |read| + 1, Line(tile, 0)), n)
    ensures Shaped(read + [tile]) && Allows(task, n, read + [tile], state, off)
  {
    hide *;
    StateSnoc(task.mixer, task.seed, read, tile);
    OffSnoc(task.mixer, task.seed, n, read, tile);
    AllowsFrom(task, n, read + [tile], state, off);
  }

  lemma AllowsFrom<D>(task: Task<D>, n: nat, tiles: seq<Square>, state: seq<u8>, off: nat)
    requires n > 0 && state == StateOf(task.mixer, task.seed, tiles) && off == Off(task.mixer, task.seed, n, tiles)
    ensures Shaped(tiles) && Allows(task, n, tiles, state, off)
  {
    hide StateOf, Off;
    assert Squares(tiles) == tiles;
  }

  lemma AllowsIs<D>(task: Task<D>, n: nat, tiles: seq<seq<u8>>, read: seq<Square>, state: seq<u8>, off: nat)
    requires n > 0 && Shaped(tiles) && read == tiles && Allows(task, n, tiles, state, off)
    ensures state == StateOf(task.mixer, task.seed, read) && off == Off(task.mixer, task.seed, n, read)
  {
    hide StateOf, Off;
  }

  lemma JudgeStart<D>(task: Task<D>, root: D, nChunks: nat, proof: Proof<D>)
    requires |proof.tiles| == |proof.merkle| == STEPS && nChunks / 32 > 0
    ensures Shaped(proof.tiles[..0]) && proof.tiles[..0] == []
    ensures Judge(task, root, nChunks, proof) == JudgeFrom(task, root, nChunks / 32, proof, 0)
  {
    hide JudgeFrom;
  }

  lemma JudgeAt<D>(task: Task<D>, root: D, n: nat, proof: Proof<D>, k: nat, read: seq<Square>)
    requires n > 0 && k < STEPS == |proof.tiles| == |proof.merkle| && Shaped(proof.tiles[..k]) && read == proof.tiles[..k]
    ensures var v, tile := JudgeFrom(task, root, n, proof, k), proof.tiles[k];
            if |tile| != 1024 then v == TileShape
            else if Climb(task.h, SquareRoot(task.h, tile), Off(task.mixer, task.seed, n, read), proof.merkle[k]) != root
            then v == RangeProof(k + 1)
            else Shaped(proof.tiles[..k + 1]) && v == JudgeFrom(task, root, n, proof, k + 1)
  {
    hide Climb, SquareRoot, Off, FinalState;
    assert proof.tiles[..k + 1] == proof.tiles[..k] + [proof.tiles[k]];
  }

  lemma JudgeEnd<D>(task: Task<D>, root: D, n: nat, proof: Proof<D>, read: seq<Square>)
    requires n > 0 && STEPS == |proof.tiles| == |proof.merkle| && Shaped(proof.tiles[..STEPS]) && read == proof.tiles[..STEPS]
    ensures JudgeFrom(task, root, n, proof, STEPS)
            == Ok(task.fold(SquareRoot(task.h, StateOf(task.mixer, task.seed, read))))
  {
    hide SquareRoot, StateOf;
  }

  lemma Beginning(m: Mixer, seed: bv64, n: nat)
    requires n > 0
    ensures StateOf(m, seed, []) == m.initial(seed) && Off(m, seed, n, []) == Mod(m.first(seed), n)
  {}

  // ----- building -----

  /** build_proof_v4, with a state that moves between two buffers. */
  method BuildProof<D>(kernel: Kernel, task: Task<D>, index: WeightIndex<D>, file: seq<u8>, table: seq<(nat, nat)>,
                       ghost data: seq<u8>, tier: u8)
    returns (r: Option<(Proof<D>, bv64)>)
    requires index.Valid() && index.h == task.h && index.leaves == Leaves(task.h, data)
    requires Cuts(file, data, table, |index.leaves|) && |data| == 32 * |index.leaves|
    modifies index`memo
    ensures index.Valid()
    ensures r.None? <==> NTiles(data) == 0
    ensures r.Some? ==>
              && r.value.0 == Proof(tier, WalkTiles(task, data, STEPS), WalkPaths(task, data, STEPS))
              && r.value.1 == FinalState(task, WalkTiles(task, data, STEPS))
  {
    var n := |index.leaves| / 32;
    if n == 0 { return None; }
    hide *;
    Tiles(data);
    var state := new u8[1024](i requires 0 <= i < 1024 => task.mixer.initial(task.seed)[i]);
    var scratch := new u8[1024](_ => 0);
    var off := Mod(task.mixer.first(task.seed), n);
    Beginning(task.mixer, task.seed, n);
    NoSteps(task, data);
    NextStep(task, data, 0);
    var tiles: seq<Square>, merkle: seq<seq<D>> := [], [];
    for k := 0 to STEPS
      invariant state != scratch && fresh(state) && fresh(scratch) && state.Length == 1024 && scratch.Length == 1024
      invariant index.Valid() && tiles == WalkTiles(task, data, k) && merkle == WalkPaths(task, data, k)
      invariant state[..] == StateOf(task.mixer, task.seed, tiles) && off == NextOff(task, data, k)
    {
      var tile, path, next := BuildStep(kernel, task, index, file, table, data, scratch, state, off, k);
      NextStep(task, data, k);
      state, scratch, off := scratch, state, next;
      tiles, merkle := tiles + [tile], merkle + [path];
    }
    var stateRoot := SubtreeRoot(task.h, state[..]);
    FinalIs(task, tiles);
    r := Some((Proof(tier, tiles, merkle), task.fold(stateRoot)));
  }

  /** Read one tile and its path, and take the state in `src` one step on into `dst`. */
  method BuildStep<D>(kernel: Kernel, task: Task<D>, index: WeightIndex<D>, file: seq<u8>, table: seq<(nat, nat)>,
                      ghost data: seq<u8>, dst: array<u8>, src: array<u8>, off: nat, k: nat)
    returns (tile: Square, path: seq<D>, next: nat)
    requires index.Valid() && index.h == task.h && index.leaves == Leaves(task.h, data)
    requires Cuts(file, data, table, |index.leaves|) && |data| == 32 * |index.leaves|
    requires NTiles(data) > 0 && off == NextOff(task, data, k)
    requires dst != src && dst.Length == 1024 && src.Length == 1024
    requires src[..] == StateOf(task.mixer, task.seed, WalkTiles(task, data, k))
    modifies index`memo, dst
    ensures index.Valid() && tile == TileAt(data, off) && path == TilePath(task.h, data, off)
    ensures dst[..] == StateOf(task.mixer, task.seed, WalkTiles(task, data, k + 1)) && next == NextOff(task, data, k + 1)
  {
    hide *;
    ghost var tiles := WalkTiles(task, data, k);
    NextStep(task, data, k);
    NextStep(task, data, k + 1);
    Tiles(data);
    tile := ReadTile(file, table, data, |index.leaves|, off);
    path := ReadPath(index, data, off);
    TransitionInto(kernel, task.mixer, dst, src, tile, k + 1);
    next := Mod(task.mixer.next(task.seed, k + 1, Line(tile, 0)), |index.leaves| / 32);
    StateSnoc(task.mixer, task.seed, tiles, tile);
    OffSnoc(task.mixer, task.seed, NTiles(data), tiles, tile);
  }

  lemma Tiles(data: seq<u8>)
    ensures NTiles(data) == |data| / 32 / 32
  {}

  lemma FinalIs<D>(task: Task<D>, tiles: seq<Square>)
    ensures FinalState(task, tiles) == task.fold(SquareRoot(task.h, StateOf(task.mixer, task.seed, tiles)))
  {}

  lemma NoSteps<D>(task: Task<D>, data: seq<u8>)
    requires NTiles(data) > 0
    ensures WalkTiles(task, data, 0) == [] && WalkPaths(task, data, 0) == []
  {}

  lemma NextStep<D>(task: Task<D>, data: seq<u8>, k: nat)
    requires NTiles(data) > 0
    ensures NextOff(task, data, k) == Off(task.mixer, task.seed, NTiles(data), WalkTiles(task, data, k))
    ensures WalkTiles(task, data, k + 1) == WalkTiles(task, data, k) + [TileAt(data, NextOff(task, data, k))]
    ensures WalkPaths(task, data, k + 1) == WalkPaths(task, data, k) + [TilePath(task.h, data, NextOff(task, data, k))]
  {}

  /** One tile, out of the tensors that hold its chunks. */
  method ReadTile(file: seq<u8>, table: seq<(nat, nat)>, ghost data: seq<u8>, nChunks: nat, off: nat) returns (tile: Square)
    requires Cuts(file, data, table, nChunks) && |data| == 32 * nChunks && off < NTiles(data)
    ensures tile == TileAt(data, off)
  {
    hide Cuts;
    TileInRange(data, off);
    var buffer := new u8[1024](_ => 0);
    ReadChunksInto(file, data, table, nChunks, 32 * off, buffer);
    tile := buffer[..];
  }

  /** The path of a tile starts at the root of the tile's own subtree. */
  method ReadPath<D>(index: WeightIndex<D>, ghost data: seq<u8>, off: nat) returns (path: seq<D>)
    requires index.Valid() && index.leaves == Leaves(index.h, data) && off < NTiles(data)
    modifies index`memo
    ensures index.Valid() && path == TilePath(index.h, data, off)
  {
    hide Path, Up, Count;
    SixteenIsLow(|index.leaves|);
    SmallPowers();
    Quotient(32 * off, 32, off, 0);
    path := index.PathFromLevel(32 * off, DEPTH);
  }

  // ----- theorems -----

  /** The self-check accepts every proof the builder makes, with the builder's final state, for any hash. */
  lemma BuiltIsAccepted<D>(task: Task<D>, data: seq<u8>, tier: u8)
    requires NTiles(data) > 0
    ensures var proof := Proof(tier, WalkTiles(task, data, STEPS), WalkPaths(task, data, STEPS));
            Judge(task, TreeRoot(task.h, data), |data| / 32, proof) == Ok(FinalState(task, WalkTiles(task, data, STEPS)))
  {
    hide TreeRoot, WalkTiles, WalkPaths, FinalState, JudgeFrom;
    BuiltFrom(task, data, tier, 0);
  }

  lemma {:induction false} BuiltFrom<D>(task: Task<D>, data: seq<u8>, tier: u8, k: nat)
    requires NTiles(data) > 0 && k <= STEPS
    ensures var proof := Proof(tier, WalkTiles(task, data, STEPS), WalkPaths(task, data, STEPS));
            JudgeFrom(task, TreeRoot(task.h, data), NTiles(data), proof, k) == Ok(FinalState(task, WalkTiles(task, data, STEPS)))
    decreases STEPS - k
  {
    hide TreeRoot, WalkTiles, WalkPaths, FinalState, StepPasses, NTiles;
    var tiles, paths := WalkTiles(task, data, STEPS), WalkPaths(task, data, STEPS);
    assert tiles[..STEPS] == tiles;
    if k < STEPS {
      BuiltFrom(task, data, tier, k + 1);
      WalkAt(task, data, k);
      HonestPasses(task, data, k);
    }
  }

  lemma WalkAt<D>(task: Task<D>, data: seq<u8>, k: nat)
    requires NTiles(data) > 0 && k < STEPS
    ensures var tiles, paths := WalkTiles(task, data, STEPS), WalkPaths(task, data, STEPS);
            && tiles[..k] == WalkTiles(task, data, k) && tiles[k] == TileAt(data, NextOff(task, data, k))
            && paths[..k] == WalkPaths(task, data, k) && paths[k] == TilePath(task.h, data, NextOff(task, data, k))
  {
    hide *;
    WalkPrefix(task, data, k, STEPS);
    WalkPrefix(task, data, k + 1, STEPS);
    NextStep(task, data, k);
    var tiles, paths := WalkTiles(task, data, STEPS), WalkPaths(task, data, STEPS);
    assert tiles[..k + 1][k] == tiles[k] && paths[..k + 1][k] == paths[k];
  }

  lemma HonestPasses<D>(task: Task<D>, data: seq<u8>, k: nat)
    requires NTiles(data) > 0
    ensures var off := NextOff(task, data, k);
            StepPasses(task, TreeRoot(task.h, data), NTiles(data), WalkTiles(task, data, k), TileAt(data, off), TilePath(task.h, data, off))
  {
    hide TreeRoot, WalkTiles, Climb, SquareRoot, TileAt, TilePath, Off, NTiles;
    HonestStep(task.h, data, NextOff(task, data, k));
  }

  /** Step `k + 1` of a proof is the builder's own. */
  ghost predicate Matches<D>(task: Task<D>, data: seq<u8>, proof: Proof<D>, k: nat)
    requires NTiles(data) > 0 && k < |proof.tiles| == |proof.merkle|
  {
    var off := NextOff(task, data, k);
    proof.tiles[k] == TileAt(data, off) && proof.merkle[k] == TilePath(task.h, data, off)
  }

  /** Under an ideal hash, a step that passes after an honest prefix is the builder's own. */
  lemma PassesIffMatches<D(!new)>(task: Task<D>, data: seq<u8>, proof: Proof<D>, k: nat)
    requires Ideal(task.h) && NTiles(data) > 0 && k < |proof.tiles| == |proof.merkle| && |proof.tiles[k]| == 1024
    ensures Climb(task.h, SquareRoot(task.h, proof.tiles[k]), Off(task.mixer, task.seed, NTiles(data), WalkTiles(task, data, k)),
                  proof.merkle[k]) == TreeRoot(task.h, data)
            <==> Matches(task, data, proof, k)
  {
    hide Ideal, TreeRoot, WalkTiles, Climb, SquareRoot, TileAt, TilePath, Off, NTiles;
    var off := NextOff(task, data, k);
    HonestStep(task.h, data, off);
    if Climb(task.h, SquareRoot(task.h, proof.tiles[k]), off, proof.merkle[k]) == TreeRoot(task.h, data) {
      BoundStep(task.h, data, off, proof.tiles[k], proof.merkle[k]);
    }
  }

  /** The verdict a proof deserves from step `k + 1` on: everything matches, or the first step that does not is named. */
  ghost predicate Deserves<D>(task: Task<D>, data: seq<u8>, proof: Proof<D>, k: nat, v: Verdict)
    requires NTiles(data) > 0 && k <= STEPS == |proof.tiles| == |proof.merkle|
  {
    if forall j :: k <= j < STEPS ==> Matches(task, data, proof, j)
    then v == Ok(FinalState(task, WalkTiles(task, data, STEPS)))
    else exists j :: k <= j < STEPS && FirstMismatch(task, data, proof, k, j)
                     && v == if |proof.tiles[j]| != 1024 then TileShape else RangeProof(j + 1)
  }

  ghost predicate FirstMismatch<D>(task: Task<D>, data: seq<u8>, proof: Proof<D>, k: nat, j: nat)
    requires NTiles(data) > 0 && k <= j < STEPS == |proof.tiles| == |proof.merkle|
  {
    !Matches(task, data, proof, j) && forall i :: k <= i < j ==> Matches(task, data, proof, i)
  }

  lemma DeservesFails<D>(task: Task<D>, data: seq<u8>, proof: Proof<D>, k: nat, v: Verdict)
    requires NTiles(data) > 0 && k < STEPS == |proof.tiles| == |proof.merkle| && !Matches(task, data, proof, k)
    requires v == if |proof.tiles[k]| != 1024 then TileShape else RangeProof(k + 1)
    ensures Deserves(task, data, proof, k, v)
  {
    hide Matches, FinalState, WalkTiles, NTiles;
    assert FirstMismatch(task, data, proof, k, k);
  }

  lemma DeservesNext<D>(task: Task<D>, data: seq<u8>, proof: Proof<D>, k: nat, v: Verdict)
    requires NTiles(data) > 0 && k < STEPS == |proof.tiles| == |proof.merkle| && Matches(task, data, proof, k)
    requires Deserves(task, data, proof, k + 1, v)
    ensures Deserves(task, data, proof, k, v)
  {
    hide Matches, FinalState, WalkTiles, NTiles;
    if j :| k + 1 <= j < STEPS && FirstMismatch(task, data, proof, k + 1, j)
            && v == if |proof.tiles[j]| != 1024 then TileShape else RangeProof(j + 1)
    {
      assert FirstMismatch(task, data, proof, k, j);
    }
  }

  lemma DeservesEnd<D>(task: Task<D>, data: seq<u8>, proof: Proof<D>)
    requires NTiles(data) > 0 && STEPS == |proof.tiles| == |proof.merkle|
    ensures Deserves(task, data, proof, STEPS, Ok(FinalState(task, WalkTiles(task, data, STEPS))))
  {
    hide Matches, FinalState, WalkTiles, NTiles;
  }

  lemma {:induction false} JudgeExactFrom<D(!new)>(task: Task<D>, data: seq<u8>, proof: Proof<D>, k: nat)
    requires Ideal(task.h) && NTiles(data) > 0 && k <= STEPS == |proof.tiles| == |proof.merkle|
    requires Shaped(proof.tiles[..k]) && proof.tiles[..k] == WalkTiles(task, data, k)
    ensures Deserves(task, data, proof, k, JudgeFrom(task, TreeRoot(task.h, data), NTiles(data), proof, k))
    decreases STEPS - k
  {
    hide *;
    var root, n, read := TreeRoot(task.h, data), NTiles(data), WalkTiles(task, data, k);
    var v := JudgeFrom(task, root, n, proof, k);
    if k == STEPS {
      JudgeEnd(task, root, n, proof, read);
      FinalIs(task, read);
      DeservesEnd(task, data, proof);
    } else {
      JudgeAt(task, root, n, proof, k, read);
      TilesMatch(task, data, proof, k);
      if |proof.tiles[k]| != 1024 {
        DeservesFails(task, data, proof, k, v);
      } else {
        PassesIffMatches(task, data, proof, k);
        NextStep(task, data, k);
        if Matches(task, data, proof, k) {
          assert proof.tiles[..k + 1] == proof.tiles[..k] + [proof.tiles[k]];
          JudgeExactFrom(task, data, proof, k + 1);
          DeservesNext(task, data, proof, k, v);
        } else {
          DeservesFails(task, data, proof, k, v);
        }
      }
    }
  }

  lemma TilesMatch<D>(task: Task<D>, data: seq<u8>, proof: Proof<D>, k: nat)
    requires NTiles(data) > 0 && k < |proof.tiles| == |proof.merkle|
    ensures Matches(task, data, proof, k) ==> |proof.tiles[k]| == 1024 && proof.tiles[k] == TileAt(data, NextOff(task, data, k))
  {
    hide NextOff, NTiles;
  }

  /**
   Under an ideal hash the self-check accepts a proof exactly when all its tiles and paths are the
   builder's, and otherwise names the first step at which they are not.
   */
  lemma JudgeExact<D(!new)>(task: Task<D>, data: seq<u8>, proof: Proof<D>)
    requires Ideal(task.h) && NTiles(data) > 0 && |proof.tiles| == |proof.merkle| == STEPS
    ensures Deserves(task, data, proof, 0, Judge(task, TreeRoot(task.h, data), |data| / 32, proof))
  {
    hide Ideal, TreeRoot, JudgeFrom, Deserves;
    assert proof.tiles[..0] == [];
    NoSteps(task, data);
    JudgeExactFrom(task, data, proof, 0);
  }

  // ----- the walk, spelled out -----

  /** Offsets read, in 1024-byte tiles of the weights: the first from the seed, the next from each tile's first 32 bytes. */
  ghost predicate Offsets<D>(task: Task<D>, data: seq<u8>, tiles: seq<Square>, offs: seq<nat>) {
    |data| >= 1024 && |offs| == |tiles| && forall k :: 0 <= k < |offs| ==> OffsetAt(task, data, tiles, offs[k], k)
  }

  ghost predicate OffsetAt<D>(task: Task<D>, data: seq<u8>, tiles: seq<Square>, off: nat, k: nat)
    requires k < |tiles| && |data| >= 1024
  {
    && off == DrawAt(task, tiles, k) % (|data| / 1024)
    && 1024 * off + 1024 <= |data| && tiles[k] == data[1024 * off..1024 * off + 1024]
  }

  function DrawAt<D>(task: Task<D>, tiles: seq<Square>, k: nat): nat
    requires k <= |tiles|
  {
    if k == 0 then task.mixer.first(task.seed) else task.mixer.next(task.seed, k, tiles[k - 1][..32])
  }

  /** States passed through: the first from the seed, each next one from the one before it and its tile. */
  ghost predicate States<D>(task: Task<D>, tiles: seq<Square>, states: seq<Square>) {
    && |states| == |tiles| + 1 && states[0] == task.mixer.initial(task.seed)
    && forall k :: 0 <= k < |tiles| ==> Moves(task.mixer, states[k], tiles[k], k + 1, states[k + 1])
  }

  lemma TileCount(data: seq<u8>)
    ensures NTiles(data) == |data| / 1024
  {}

  lemma {:induction false} WalkOffsets<D>(task: Task<D>, data: seq<u8>, k: nat) returns (offs: seq<nat>)
    requires NTiles(data) > 0
    ensures Offsets(task, data, WalkTiles(task, data, k), offs)
    decreases k
  {
    TileCount(data);
    if k == 0 {
      offs := [];
    } else {
      var before := WalkOffsets(task, data, k - 1);
      hide *;
      NextStep(task, data, k - 1);
      var off := NextOff(task, data, k - 1);
      offs := before + [off];
      OffsetsSnoc(task, data, WalkTiles(task, data, k - 1), before, TileAt(data, off), off);
    }
  }

  lemma OffsetsSnoc<D>(task: Task<D>, data: seq<u8>, tiles: seq<Square>, offs: seq<nat>, tile: Square, off: nat)
    requires Offsets(task, data, tiles, offs) && off < NTiles(data) && tile == TileAt(data, off)
    requires off == Off(task.mixer, task.seed, NTiles(data), tiles)
    ensures Offsets(task, data, tiles + [tile], offs + [off])
  {
    TileCount(data);
    OffsetNew(task, data, tiles, tile, off);
    hide NTiles, Off, OffsetAt;
    forall k: nat | k < |offs| ensures OffsetAt(task, data, tiles + [tile], offs[k], k) {
      OffsetKept(task, data, tiles, tile, offs[k], k);
    }
  }

  lemma OffsetKept<D>(task: Task<D>, data: seq<u8>, tiles: seq<Square>, tile: Square, off: nat, k: nat)
    requires k < |tiles| && |data| >= 1024 && OffsetAt(task, data, tiles, off, k)
    ensures OffsetAt(task, data, tiles + [tile], off, k)
  {
    assert DrawAt(task, tiles + [tile], k) == DrawAt(task, tiles, k);
  }

  lemma OffsetNew<D>(task: Task<D>, data: seq<u8>, tiles: seq<Square>, tile: Square, off: nat)
    requires |data| >= 1024 && off < NTiles(data) && tile == TileAt(data, off)
    requires off == Off(task.mixer, task.seed, NTiles(data), tiles)
    ensures OffsetAt(task, data, tiles + [tile], off, |tiles|)
  {
    TileCount(data);
    TileInRange(data, off);
    DrawIs(task, tiles, NTiles(data));
    hide NTiles, Off;
    assert DrawAt(task, tiles + [tile], |tiles|) == DrawAt(task, tiles, |tiles|);
  }

  lemma DrawIs<D>(task: Task<D>, tiles: seq<Square>, n: nat)
    requires n > 0
    ensures Off(task.mixer, task.seed, n, tiles) == DrawAt(task, tiles, |tiles|) % n
  {}

  lemma {:induction false} WalkStates<D>(task: Task<D>, tiles: seq<Square>) returns (states: seq<Square>)
    ensures States(task, tiles, states) && states[|tiles|] == StateOf(task.mixer, task.seed, tiles)
    decreases |tiles|
  {
    hide Moves, Transition;
    if tiles == [] {
      states := [task.mixer.initial(task.seed)];
    } else {
      var front, last := tiles[..|tiles| - 1], tiles[|tiles| - 1];
      var before := WalkStates(task, front);
      TransitionMoves(task.mixer, before[|front|], last, |tiles|);
      states := before + [Transition(task.mixer, before[|front|], last, |tiles|)];
    }
  }

  /**
   What a built proof holds, from the bytes up: 256 tiles of the weights at the offsets drawn from the seed and from the
   tiles themselves, and as final state the folded root of the last of the states they lead through.
   */
  lemma WalkSpelled<D>(task: Task<D>, data: seq<u8>) returns (offs: seq<nat>, states: seq<Square>)
    requires NTiles(data) > 0
    ensures var tiles := WalkTiles(task, data, STEPS);
            && |tiles| == 256 && Offsets(task, data, tiles, offs) && States(task, tiles, states)
            && FinalState(task, tiles) == task.fold(SquareRoot(task.h, states[256]))
  {
    assert STEPS == 256;
    hide *;
    var tiles := WalkTiles(task, data, STEPS);
    offs := WalkOffsets(task, data, STEPS);
    states := WalkStates(task, tiles);
    StatesCount(task, tiles, states);
    FinalIs(task, tiles);
  }

  lemma StatesCount<D>(task: Task<D>, tiles: seq<Square>, states: seq<Square>)
    requires States(task, tiles, states)
    ensures |states| == |tiles| + 1
  {}

  /** Proofs without 256 tiles and paths have the wrong shape; otherwise weights without a whole tile are too small. */
  lemma JudgeErrors<D>(task: Task<D>, root: D, nChunks: nat, proof: Proof<D>)
    ensures Judge(task, root, nChunks, proof) == WrongShape <==> |proof.tiles| != 256 || |proof.merkle| != 256
    ensures Judge(task, root, nChunks, proof) == BlobTooSmall <==> |proof.tiles| == 256 && |proof.merkle| == 256 && nChunks < 32
  {
    if |proof.tiles| == 256 && |proof.merkle| == 256 && nChunks >= 32 {
      assert proof.tiles[..0] == [];
      JudgedBySteps(task, root, nChunks / 32, proof, 0);
    }
    hide JudgeFrom;
  }

  lemma {:induction false} JudgedBySteps<D>(task: Task<D>, root: D, n: nat, proof: Proof<D>, k: nat)
    requires n > 0 && k <= STEPS == |proof.tiles| == |proof.merkle| && Shaped(proof.tiles[..k])
    ensures var v := JudgeFrom(task, root, n, proof, k); v.Ok? || v.TileShape? || v.RangeProof?
    decreases STEPS - k
  {
    hide StepPasses, FinalState;
    if k < STEPS && |proof.tiles[k]| == 1024 {
      assert proof.tiles[..k + 1] == proof.tiles[..k] + [proof.tiles[k]];
      JudgedBySteps(task, root, n, proof, k + 1);
    }
  }

  /** A blob with at least one tile has the dense root as its R_T. */
  lemma SparseRootServes<D>(h: Hasher<D>, data: seq<u8>)
    requires NTiles(data) > 0
    ensures Leaves(h, data) != [] && SparseRoot(h, Leaves(h, data)) == TreeRoot(h, data)
  {
    hide Root, Up, Height, Count;
    SixteenIsLow(|Leaves(h, data)|);
  }

  /**
   Index the tensors of a file, build a proof on one kernel and check it on another against the index's own R_T:
   the check passes and agrees.
   */
  method BuildAndCheck<D(==)>(builder: Kernel, checker: Kernel, task: Task<D>, file: seq<u8>, tensors: seq<Tensor>, tier: u8,
                              buildDense: bool, memoOn: bool, memoMax: nat)
    returns (built: Option<(Proof<D>, bv64)>, verdict: Verdict)
    requires InFile(file, tensors) && FirstChunk(tensors, |tensors|) > 0
    ensures built.None? <==> FirstChunk(tensors, |tensors|) < 32
    ensures built.Some? ==> verdict == Ok(built.value.1)
  {
    hide *;
    var table, nChunks := BuildTable(file, tensors);
    var data := Weights(file, tensors);
    Tiles(data);
    Whole(nChunks);
    var index := new WeightIndex<D>(task.h, Leaves(task.h, data), buildDense, memoOn, memoMax);
    built := BuildProof(builder, task, index, file, table, data, tier);
    if built.None? { return built, BlobTooSmall; }
    verdict := VerifyProof(checker, task, built.value.0, index.root, nChunks);
    SparseRootServes(task.h, data);
    BuiltIsAccepted(task, data, tier);
  }
}
