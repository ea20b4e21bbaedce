/** Grinding a batch of nonces in bounded sub-dispatches over a GPU driver that reports one offset or a status. */
module VkDispatch {
  import opened Wrappers

  const U32: nat := 0x1_0000_0000
  const MAX_SUB: nat := 0xffff_ffff
  const U64: nat := 0x1_0000_0000_0000_0000

  /** The nonce `j` places after `base`. */
  function At(base: nat, j: nat): (nonce: nat)
    ensures nonce < U64
  {
    (base + j) % U64
  }

  /** Counting up, and from 0 again after 2^64 - 1. */
  lemma AtCounts(base: nat, j: nat)
    requires base < U64 && j <= U64
    ensures At(base, j) == if base + j < U64 then base + j else base + j - U64
  {}

  lemma AtAt(base: nat, i: nat, j: nat)
    ensures At(At(base, i), j) == At(base, i + j)
  {}

  datatype Outcome =
    | Found(nonce: nat, hashes: nat)
    | Exhausted(hashes: nat)
    | Unavailable
    | Failed
    | Running(hashes: nat)

  datatype Dispatch = Dispatch(start: nat, n: nat)

  type i64 = x: int | -0x8000_0000_0000_0000 <= x < 0x8000_0000_0000_0000

  /** -1: no winner; 0..n: offset of a winner; anything else: a status. */
  type Driver = (nat, nat) -> i64

  ghost predicate NoWin(win: nat -> bool, base: nat, lo: nat, hi: nat) {
    forall j :: lo <= j < hi ==> !win(At(base, j))
  }

  /** A driver that reports the lowest winning offset of every non-empty sub-range it is given. */
  ghost predicate Honest(drive: Driver, win: nat -> bool) {
    forall start: nat, n: nat :: 0 < n <= MAX_SUB && start < U64 ==> HonestAt(drive, win, start, n)
  }

  ghost predicate HonestAt(drive: Driver, win: nat -> bool, start: nat, n: nat) {
    var r := drive(start, n);
    if r == -1 then NoWin(win, start, 0, n) else 0 <= r < n && win(At(start, r)) && NoWin(win, start, 0, r)
  }

  // ----- coverage -----

  function Total(log: seq<Dispatch>): nat {
    if log == [] then 0 else Total(log[..|log| - 1]) + log[|log| - 1].n
  }

  /** Each dispatch starts where the one before it ended, modulo 2^64. */
  ghost predicate Contiguous(log: seq<Dispatch>, base: nat, most: nat) {
    forall i :: 0 <= i < |log| ==> log[i].n <= most && log[i].start == At(base, Total(log[..i]))
  }

  /** Every dispatch takes as much of what is left of the batch as it may. */
  ghost predicate FullPieces(log: seq<Dispatch>, batch: nat, most: nat) {
    forall i :: 0 <= i < |log| ==> Total(log[..i]) <= batch && log[i].n == Min(batch - Total(log[..i]), most)
  }

  lemma PiecesNext(log: seq<Dispatch>, batch: nat, most: nat, d: Dispatch)
    requires FullPieces(log, batch, most) && Total(log) <= batch && d.n == Min(batch - Total(log), most)
    ensures FullPieces(log + [d], batch, most)
  {
    hide Total;
    var grown := log + [d];
    forall i | 0 <= i < |grown|
      ensures Total(grown[..i]) <= batch && grown[i].n == Min(batch - Total(grown[..i]), most)
    {
      if i < |log| { assert grown[i] == log[i] && grown[..i] == log[..i]; } else { assert grown[..i] == log; }
    }
  }

  ghost predicate NonEmpty(log: seq<Dispatch>) { forall i :: 0 <= i < |log| ==> log[i].n > 0 }

  lemma {:induction false} NonEmptyTotal(log: seq<Dispatch>)
    requires NonEmpty(log)
    ensures Total(log) >= |log|
  {
    if log != [] { NonEmptyTotal(log[..|log| - 1]); }
  }

  lemma TotalNext(log: seq<Dispatch>, d: Dispatch)
    ensures Total(log + [d]) == Total(log) + d.n
  {
    assert (log + [d])[..|log|] == log;
  }

  lemma Extend(log: seq<Dispatch>, base: nat, most: nat, n: nat)
    requires Contiguous(log, base, most) && n <= most
    ensures var grown := log + [Dispatch(At(base, Total(log)), n)];
            && Contiguous(grown, base, most) && Total(grown) == Total(log) + n
            && (NonEmpty(log) && n > 0 ==> NonEmpty(grown))
  {
    hide At, Total;
    var d := Dispatch(At(base, Total(log)), n);
    var grown := log + [d];
    TotalNext(log, d);
    forall i | 0 <= i < |grown|
      ensures grown[i].n <= most && grown[i].start == At(base, Total(grown[..i]))
    {
      if i < |log| {
        assert grown[i] == log[i] && grown[..i] == log[..i];
      } else {
        assert grown[i] == d && grown[..i] == log;
      }
    }
  }

  lemma JoinNoWin(win: nat -> bool, base: nat, done: nat, n: nat)
    requires NoWin(win, base, 0, done) && NoWin(win, At(base, done), 0, n)
    ensures NoWin(win, base, 0, done + n)
  {
    forall j | 0 <= j < done + n
      ensures !win(At(base, j))
    {
      if j >= done { AtAt(base, done, j - done); }
    }
  }

  /** The first winner of the whole batch, or none in the prefix searched. */
  ghost predicate FirstWinner(win: nat -> bool, base: nat, batch: nat, r: Outcome) {
    match r
    case Found(nonce, hashes) =>
      exists k :: 0 <= k < hashes <= batch && nonce == At(base, k) && win(nonce) && NoWin(win, base, 0, k)
    case Exhausted(hashes) => hashes <= batch && NoWin(win, base, 0, hashes)
    case Running(hashes) => hashes <= batch && NoWin(win, base, 0, hashes)
    case Unavailable => false
    case Failed => false
  }

  lemma WinnerFound(win: nat -> bool, drive: Driver, base: nat, batch: nat, done: nat, n: nat)
    requires NoWin(win, base, 0, done) && done + n <= batch && HonestAt(drive, win, At(base, done), n)
    requires drive(At(base, done), n) != -1
    ensures var r := drive(At(base, done), n);
            0 <= r < n && FirstWinner(win, base, batch, Found(At(At(base, done), r), done + n))
  {
    var r := drive(At(base, done), n);
    AtAt(base, done, r);
    JoinNoWin(win, base, done, r);
    assert At(base, done + r) == At(At(base, done), r);
  }

  /** All these dispatches reported no winner. */
  ghost predicate Fruitless(drive: Driver, log: seq<Dispatch>) {
    forall i :: 0 <= i < |log| ==> drive(log[i].start, log[i].n) == -1
  }

  /** Everything before the last dispatch was fruitless, and the last one reported `status`. */
  ghost predicate EndedWith(drive: Driver, log: seq<Dispatch>, status: int) {
    log != [] && Fruitless(drive, log[..|log| - 1]) && drive(log[|log| - 1].start, log[|log| - 1].n) == status
  }

  function Min(a: nat, b: nat): (m: nat)
    ensures m <= a && m <= b && (m == a || m == b)
  {
    if a <= b then a else b
  }

  // ----- the resident walk -----

  class MiningWalk {
    const cap: nat
    const defaultSub: nat
    var healthy: bool
    var frees: nat
    ghost var log: seq<Dispatch>
    /** How many dispatches had been made when a call first failed. */
    ghost var failedAt: Option<nat>
    ghost var dropped: bool

    /** After a failure nothing is dispatched or freed any more; otherwise the handle is freed by the drop, once. */
    ghost predicate Valid()
      reads this
    {
      && defaultSub in {32768, 131072}
      && (healthy <==> failedAt.None?)
      && (failedAt.Some? ==> |log| == failedAt.value)
      && frees == if dropped && failedAt.None? then 1 else 0
    }

    constructor (cap: nat, windows: bool)
      ensures Valid() && this.cap == cap && log == [] && failedAt == None && !dropped
      ensures defaultSub == if windows then 32768 else 131072
    {
      this.cap := cap;
      defaultSub := if windows then 32768 else 131072;
      healthy, frees, log, failedAt, dropped := true, 0, [], None, false;
    }

    /** The default size, unless the device reports a smaller capacity. */
    function SubMax(): (size: nat)
      ensures size <= defaultSub && (cap == 0 || defaultSub <= cap ==> size == defaultSub) && (0 < cap < defaultSub ==> size == cap)
    {
      if cap == 0 then defaultSub else Min(cap, defaultSub)
    }

    /** mine_v4: every status but -1 and an offset in range ends the walk's life. */
    method MineV4(drive: Driver, stop: nat -> bool, base: nat, batch: nat, ghost win: nat -> bool)
      returns (r: Outcome, ghost calls: seq<Dispatch>)
      requires Valid() && !dropped && base < U64 && batch < U64
      modifies this`healthy, this`log, this`failedAt
      ensures Valid() && failedAt == Recorded(old(failedAt), r, |log|)
      ensures log == old(log) + calls && Contiguous(calls, base, SubMax()) && NonEmpty(calls) && Total(calls) <= batch
      ensures FullPieces(calls, batch, SubMax())
      ensures old(failedAt).Some? ==> r == Failed && calls == []
      ensures r.Found? ==> Total(calls) == r.hashes && exists k :: 0 <= k < r.hashes && r.nonce == At(base, k)
      ensures r.Exhausted? ==> Total(calls) == r.hashes && Fruitless(drive, calls) && (r.hashes == batch || stop(|calls|))
      ensures forall i :: 0 <= i < |calls| ==> !stop(i)
      ensures old(failedAt).None? && r.Failed? ==>
                exists rc :: EndedWith(drive, calls, rc) && (rc < -1 || rc >= calls[|calls| - 1].n)
      ensures old(failedAt).None? && Honest(drive, win) ==> FirstWinner(win, base, batch, r)
    {
      hide Contiguous, FullPieces, NonEmpty, Fruitless, EndedWith, FirstWinner, Honest, Total, At;
      calls := [];
      Nothing(drive, win, base, SubMax());
      NoPieces(batch, SubMax());
      if !healthy { return Failed, calls; }
      r, calls := RunV4(drive, stop, base, batch, SubMax(), win);
      log := log + calls;
      if r.Failed? { healthy, failedAt := false, Some(|log|); }
    }

    /** mine_v5 over Api::run: a status of -3 leaves the walk usable, any other stray one does not. */
    method MineV5(drive: Driver, stop: nat -> bool, base: nat, batch: nat, tiles: nat, hasApi: bool, subEnv: nat, ghost win: nat -> bool)
      returns (r: Outcome, ghost calls: seq<Dispatch>)
      requires Valid() && !dropped && base < U64 && batch < U64
      modifies this`healthy, this`log, this`failedAt
      ensures Valid() && failedAt == Recorded(old(failedAt), r, |log|)
      ensures log == old(log) + calls && Contiguous(calls, base, 8192) && NonEmpty(calls) && Total(calls) <= batch
      ensures FullPieces(calls, batch, SubOfEnv(subEnv))
      ensures old(failedAt).Some? ==> r == Failed && calls == []
      ensures old(failedAt).None? && (!hasApi || tiles == 0) ==> r == Unavailable && calls == []
      ensures r.Found? ==> Total(calls) == r.hashes && exists k :: 0 <= k < r.hashes && r.nonce == At(base, k)
      ensures r.Exhausted? ==> Total(calls) == r.hashes && Fruitless(drive, calls) && (r.hashes == batch || stop(|calls|))
      ensures forall i :: 0 <= i < |calls| ==> !stop(i)
      ensures old(failedAt).None? && r.Failed? ==>
                exists rc :: EndedWith(drive, calls, rc) && rc != -3 && (rc < -1 || rc >= calls[|calls| - 1].n)
      ensures old(failedAt).None? && hasApi && tiles > 0 && Honest(drive, win) ==> FirstWinner(win, base, batch, r)
    {
      hide Contiguous, FullPieces, NonEmpty, Fruitless, EndedWith, FirstWinner, Honest, Total, At, SubOfEnv;
      calls := [];
      Nothing(drive, win, base, 8192);
      NoPieces(batch, SubOfEnv(subEnv));
      if !healthy { return Failed, calls; }
      if !hasApi || tiles == 0 { return Unavailable, calls; }
      r, calls := RunV5(drive, stop, base, batch, subEnv, win);
      log := log + calls;
      if r.Failed? { healthy, failedAt := false, Some(|log|); }
    }

    /** Drop: the handle of a walk on which a call ever failed is kept, so that nothing waits on its device. */
    method Drop()
      requires Valid() && !dropped
      modifies this`frees, this`dropped
      ensures Valid() && dropped
      ensures frees == if failedAt.None? then 1 else 0
    {
      if healthy { frees := frees + 1; }
      dropped := true;
    }
  }

  /** When the first failure happened, after a call with this outcome. */
  ghost function Recorded(before: Option<nat>, r: Outcome, dispatches: nat): Option<nat> {
    if before.None? && r == Failed then Some(dispatches) else before
  }

  datatype Call =
    | V4(drive: Driver, stop: nat -> bool, base: nat, batch: nat)
    | V5(drive: Driver, stop: nat -> bool, base: nat, batch: nat, tiles: nat, hasApi: bool, subEnv: nat)

  /**
   A walk's whole life, whatever is called on it: from the first failure on every call fails, nothing more is
   dispatched, and the drop frees nothing; without a failure the drop frees the handle once.
   */
  method Lifetime(cap: nat, windows: bool, calls: seq<Call>) returns (results: seq<Outcome>, ghost sent: seq<nat>, frees: nat)
    requires forall i :: 0 <= i < |calls| ==> calls[i].base < U64 && calls[i].batch < U64
    ensures |results| == |sent| == |calls|
    ensures forall i, j :: 0 <= i <= j < |calls| && results[i] == Failed ==> results[j] == Failed && sent[j] == sent[i]
    ensures frees == if Failed in results then 0 else 1
  {
    var walk := new MiningWalk(cap, windows);
    results, sent := [], [];
    for k := 0 to |calls|
      invariant fresh(walk) && walk.Valid() && !walk.dropped && |results| == |sent| == k
      invariant walk.failedAt.Some? <==> Failed in results
      invariant forall i :: 0 <= i < k && results[i] == Failed ==> walk.failedAt == Some(sent[i])
      invariant forall i, j :: 0 <= i <= j < k && results[i] == Failed ==> results[j] == Failed && sent[j] == sent[i]
    {
      var r;
      ghost var dispatched;
      match calls[k] {
        case V4(drive, stop, base, batch) => r, dispatched := walk.MineV4(drive, stop, base, batch, _ => false);
        case V5(drive, stop, base, batch, tiles, hasApi, subEnv) =>
          r, dispatched := walk.MineV5(drive, stop, base, batch, tiles, hasApi, subEnv, _ => false);
      }
      results, sent := results + [r], sent + [|walk.log|];
    }
    walk.Drop();
    frees := walk.frees;
  }

  /** The loop of mine_v4. */
  method RunV4(drive: Driver, stop: nat -> bool, base: nat, batch: nat, subMax: nat, ghost win: nat -> bool)
    returns (r: Outcome, ghost calls: seq<Dispatch>)
    requires base < U64 && batch < U64 && 0 < subMax <= MAX_SUB
    ensures Contiguous(calls, base, subMax) && NonEmpty(calls) && FullPieces(calls, batch, subMax) && Total(calls) <= batch
    ensures r.Found? || r.Exhausted? || r.Failed?
    ensures r.Found? ==> Total(calls) == r.hashes && exists k :: 0 <= k < r.hashes && r.nonce == At(base, k)
    ensures r.Exhausted? ==> Total(calls) == r.hashes && Fruitless(drive, calls) && (r.hashes == batch || stop(|calls|))
    ensures forall i :: 0 <= i < |calls| ==> !stop(i)
    ensures r.Failed? ==> exists rc :: EndedWith(drive, calls, rc) && (rc < -1 || rc >= calls[|calls| - 1].n)
    ensures Honest(drive, win) ==> FirstWinner(win, base, batch, r)
  {
    hide *;
    calls := [];
    Nothing(drive, win, base, subMax);
    NoPieces(batch, subMax);
    var done: nat, polls: nat := 0, 0;
    while done < batch
      invariant done <= batch && Total(calls) == done && Contiguous(calls, base, subMax) && NonEmpty(calls) && Fruitless(drive, calls)
      invariant FullPieces(calls, batch, subMax)
      invariant polls == |calls| && forall i :: 0 <= i < polls ==> !stop(i)
      invariant Honest(drive, win) ==> NoWin(win, base, 0, done)
      decreases batch - done
    {
      if stop(polls) { break; }
      polls := polls + 1;
      var n := Min(batch - done, subMax);
      var start := At(base, done);
      Extend(calls, base, subMax, n);
      PiecesNext(calls, batch, subMax, Dispatch(start, n));
      Grow(drive, calls, Dispatch(start, n));
      calls := calls + [Dispatch(start, n)];
      var result := drive(start, n);
      if Honest(drive, win) { HonestHere(drive, win, start, n); }
      if Honest(drive, win) && result != -1 { WinnerFound(win, drive, base, batch, done, n); }
      if result == -2 || result >= n || result < -1 { return Failed, calls; }
      if result >= 0 {
        AtAt(base, done, result);
        return Found(At(start, result), done + n), calls;
      }
      if Honest(drive, win) {
        FruitlessRange(win, drive, start, n);
        JoinNoWin(win, base, done, n);
      }
      done := done + n;
    }
    r := Exhausted(done);
    if Honest(drive, win) { NothingFound(win, base, batch, done); }
  }

  /** Api::run, also the body of the shared v5 walk. */
  method RunV5(drive: Driver, stop: nat -> bool, base: nat, batch: nat, subEnv: nat, ghost win: nat -> bool)
    returns (r: Outcome, ghost calls: seq<Dispatch>)
    requires base < U64 && batch < U64
    ensures Contiguous(calls, base, 8192) && NonEmpty(calls) && Total(calls) <= batch && !r.Running?
    ensures FullPieces(calls, batch, SubOfEnv(subEnv))
    ensures r.Found? ==> Total(calls) == r.hashes && exists k :: 0 <= k < r.hashes && r.nonce == At(base, k)
    ensures r.Exhausted? ==> Total(calls) == r.hashes && Fruitless(drive, calls) && (r.hashes == batch || stop(|calls|))
    ensures forall i :: 0 <= i < |calls| ==> !stop(i)
    ensures r == Unavailable ==> EndedWith(drive, calls, -3)
    ensures r == Failed ==> exists rc :: EndedWith(drive, calls, rc) && rc != -3 && (rc < -1 || rc >= calls[|calls| - 1].n)
    ensures Honest(drive, win) ==> FirstWinner(win, base, batch, r)
  {
    hide *;
    SubSize(subEnv);
    r, calls := SubDispatches(drive, stop, base, batch, SubOfEnv(subEnv), win);
    Wider(calls, base, SubOfEnv(subEnv), 8192);
  }

  /** KERYX_VK_V5_SUB_DISPATCH, kept between 8 and 8192. */
  function SubOfEnv(subEnv: nat): nat { if subEnv < 8 then 8 else Min(subEnv, 8192) }

  lemma SubSize(subEnv: nat)
    ensures 8 <= SubOfEnv(subEnv) <= 8192 <= MAX_SUB
    ensures SubOfEnv(subEnv) == if subEnv <= 8 then 8 else if subEnv >= 8192 then 8192 else subEnv
  {}

  lemma NoPieces(batch: nat, most: nat)
    ensures FullPieces([], batch, most)
  {}

  lemma Wider(log: seq<Dispatch>, base: nat, most: nat, more: nat)
    requires Contiguous(log, base, most) && most <= more
    ensures Contiguous(log, base, more)
  {}

  method SubDispatches(drive: Driver, stop: nat -> bool, base: nat, batch: nat, subMax: nat, ghost win: nat -> bool)
    returns (r: Outcome, ghost calls: seq<Dispatch>)
    requires base < U64 && batch < U64 && 0 < subMax <= MAX_SUB
    ensures Contiguous(calls, base, subMax) && NonEmpty(calls) && Total(calls) <= batch && !r.Running?
    ensures FullPieces(calls, batch, subMax)
    ensures r.Found? ==> Total(calls) == r.hashes && exists k :: 0 <= k < r.hashes && r.nonce == At(base, k)
    ensures r.Exhausted? ==> Total(calls) == r.hashes && Fruitless(drive, calls) && (r.hashes == batch || stop(|calls|))
    ensures forall i :: 0 <= i < |calls| ==> !stop(i)
    ensures r == Unavailable ==> EndedWith(drive, calls, -3)
    ensures r == Failed ==> exists rc :: EndedWith(drive, calls, rc) && rc != -3 && (rc < -1 || rc >= calls[|calls| - 1].n)
    ensures Honest(drive, win) ==> FirstWinner(win, base, batch, r)
  {
    hide *;
    calls := [];
    Nothing(drive, win, base, subMax);
    NoPieces(batch, subMax);
    var done: nat, polls: nat := 0, 0;
    while done < batch
      invariant done <= batch && Total(calls) == done && Contiguous(calls, base, subMax) && NonEmpty(calls) && Fruitless(drive, calls)
      invariant FullPieces(calls, batch, subMax)
      invariant polls == |calls| && forall i :: 0 <= i < polls ==> !stop(i)
      invariant Honest(drive, win) ==> NoWin(win, base, 0, done)
      decreases batch - done
    {
      if stop(polls) { break; }
      polls := polls + 1;
      var n := Min(batch - done, subMax);
      var start := At(base, done);
      Extend(calls, base, subMax, n);
      PiecesNext(calls, batch, subMax, Dispatch(start, n));
      Grow(drive, calls, Dispatch(start, n));
      calls := calls + [Dispatch(start, n)];
      var rc := drive(start, n);
      if Honest(drive, win) { HonestHere(drive, win, start, n); }
      if Honest(drive, win) && rc != -1 { WinnerFound(win, drive, base, batch, done, n); }
      if rc == -3 { return Unavailable, calls; }
      if rc < -1 || rc >= n { return Failed, calls; }
      if rc >= 0 {
        AtAt(base, done, rc);
        return Found(At(start, rc), done + n), calls;
      }
      if Honest(drive, win) {
        FruitlessRange(win, drive, start, n);
        JoinNoWin(win, base, done, n);
      }
      done := done + n;
    }
    r := Exhausted(done);
    if Honest(drive, win) { NothingFound(win, base, batch, done); }
  }

  // ----- the shared walk -----

  /** `min(batch - done, sub_max) as u32`: the cast keeps the low 32 bits. */
  function SubOf(batch: nat, done: nat, subMax: nat): nat
    requires done <= batch
  {
    Min(batch - done, subMax) % U32
  }

  /** `done` after `k` rounds that found nothing and were not stopped. */
  function DoneAfter(batch: nat, subMax: nat, k: nat): (done: nat)
    ensures done <= batch
  {
    if k == 0 then 0
    else
      var done := DoneAfter(batch, subMax, k - 1);
      done + SubOf(batch, done, subMax)
  }

  /** What makes the shared loop reach the end of its batch. */
  predicate Ends(batch: nat, subMax: nat) { subMax < U32 || batch < U32 }

  lemma {:induction false} StuckForever(batch: nat, subMax: nat, k: nat)
    requires subMax >= U32 && batch >= U32
    ensures batch - DoneAfter(batch, subMax, k) >= U32
  {
    if k > 0 {
      StuckForever(batch, subMax, k - 1);
      var left := batch - DoneAfter(batch, subMax, k - 1);
      var x := Min(left, subMax);
      assert x >= U32 && x - x % U32 >= U32;
    }
  }

  lemma {:induction false} MakesProgress(batch: nat, subMax: nat, k: nat)
    requires subMax > 0 && Ends(batch, subMax)
    ensures DoneAfter(batch, subMax, k) >= Min(k, batch)
  {
    if k > 0 {
      MakesProgress(batch, subMax, k - 1);
      var done := DoneAfter(batch, subMax, k - 1);
      hide SubOf;
      if done < batch { SubExact(batch, done, subMax); }
    }
  }

  /**
   A fruitless, undisturbed shared walk ends exactly when the sub-dispatch size or the batch fits 32 bits.
   The size comes from KERYX_VK_SUB_DISPATCH when the engine reports no capacity.
   */
  lemma SharedWalkEndsIff(batch: nat, subMax: nat)
    requires subMax > 0
    ensures (exists k :: DoneAfter(batch, subMax, k) == batch) <==> Ends(batch, subMax)
  {
    if Ends(batch, subMax) {
      MakesProgress(batch, subMax, batch);
      assert DoneAfter(batch, subMax, batch) == batch;
    } else {
      forall k
        ensures DoneAfter(batch, subMax, k) != batch
      {
        StuckForever(batch, subMax, k);
      }
    }
  }

  /** A size of 2^32 makes every dispatch of a batch of 2^32 empty. */
  lemma EmptyDispatches(k: nat)
    ensures DoneAfter(U32, U32, k) == 0
  {
    if k > 0 { EmptyDispatches(k - 1); }
  }

  function SharedSubMax(env: nat, cap: nat, windows: bool): nat {
    var size := if env >= 8 then env else if windows then 32768 else 131072;
    if cap != 0 then Min(size, cap) else size
  }

  /** An override of at least 8 replaces the default of 131072, on Windows 32768; a reported capacity bounds either. */
  lemma SharedSizeIs(env: nat, cap: nat, windows: bool)
    ensures cap == 0 ==> SharedSubMax(env, cap, windows) == if env < 8 then (if windows then 32_768 else 131_072) else env
    ensures cap > 0 ==> SharedSubMax(env, cap, windows) <= cap
    ensures cap > 0 && SharedSubMax(env, cap, windows) < cap ==> SharedSubMax(env, cap, windows) == SharedSubMax(env, 0, windows)
    ensures cap > 0 && SharedSubMax(env, 0, windows) < cap ==> SharedSubMax(env, cap, windows) == SharedSubMax(env, 0, windows)
  {}

  /** The size fits 32 bits exactly when the override does or the engine reports a capacity that does. */
  lemma SharedSizeFits(env: nat, cap: nat, windows: bool)
    ensures SharedSubMax(env, cap, windows) > 0
    ensures SharedSubMax(env, cap, windows) < U32 <==> env < U32 || 0 < cap < U32
  {}

  lemma SubExact(batch: nat, done: nat, subMax: nat)
    requires done < batch && subMax > 0 && Ends(batch, subMax)
    ensures 0 < SubOf(batch, done, subMax) <= MAX_SUB && done + SubOf(batch, done, subMax) <= batch
  {
    var x := Min(batch - done, subMax);
    assert x % U32 == x;
  }

  /** `off as u64`: a negative status is kept modulo 2^64. */
  function AsU64(rc: int): nat { rc % U64 }

  /** As a 64-bit offset only a status in range is below the size of its dispatch. */
  lemma OffsetInRange(rc: i64, n: nat)
    requires n <= MAX_SUB
    ensures AsU64(rc) < n <==> 0 <= rc < n
    ensures 0 <= rc < n ==> AsU64(rc) == rc
  {}

  /** The nonce is one that the dispatch covers. */
  ghost predicate Covered(nonce: nat, d: Dispatch) { exists j :: 0 <= j < d.n && nonce == At(d.start, j) }

  lemma CoveredIff(d: Dispatch, rc: i64)
    requires d.n <= MAX_SUB
    ensures Covered(At(d.start, AsU64(rc)), d) <==> 0 <= rc < d.n
  {
    hide At, AsU64;
    OffsetInRange(rc, d.n);
    forall j: nat | j < d.n && At(d.start, AsU64(rc)) == At(d.start, j) ensures AsU64(rc) == j {
      Below64(rc);
      AtInjective(d.start, AsU64(rc), j);
    }
  }

  lemma Below64(rc: i64)
    ensures AsU64(rc) < U64
  {}

  lemma AtInjective(base: nat, i: nat, j: nat)
    requires i < U64 && j < U64 && At(base, i) == At(base, j)
    ensures i == j
  {}

  /** Polls made before these dispatches: none while nothing has been searched. */
  function Polled(log: seq<Dispatch>): nat {
    if log == [] then 0 else Polled(log[..|log| - 1]) + if Total(log[..|log| - 1]) > 0 then 1 else 0
  }

  lemma PolledNext(log: seq<Dispatch>, d: Dispatch)
    ensures Polled(log + [d]) == Polled(log) + if Total(log) > 0 then 1 else 0
  {
    assert (log + [d])[..|log|] == log;
  }

  lemma {:induction false} PolledNonEmpty(log: seq<Dispatch>)
    requires NonEmpty(log) && log != []
    ensures Polled(log) == |log| - 1
  {
    if |log| > 1 {
      PolledNonEmpty(log[..|log| - 1]);
      NonEmptyTotal(log[..|log| - 1]);
    } else {
      assert log[..0] == [];
    }
  }

  /** A driver that finds nothing where there is nothing to search. */
  ghost predicate QuietOnEmpty(drive: Driver) { forall start :: drive(start, 0) == -1 }

  /**
   The first `rounds` rounds of pom_mine_v4 after its claim: any status but -1 and -2 is taken for an offset, so the
   nonce lies in the last dispatch exactly when the last status is an offset into it.
   */
  method MineShared(drive: Driver, stop: nat -> bool, base: nat, batch: nat, subMax: nat, rounds: nat, ghost win: nat -> bool)
    returns (r: Outcome, ghost calls: seq<Dispatch>)
    requires base < U64 && batch < U64 && subMax > 0
    ensures Contiguous(calls, base, MAX_SUB) && Total(calls) <= batch && |calls| <= rounds
    ensures Ends(batch, subMax) ==> NonEmpty(calls)
    ensures !r.Unavailable? && (r == Failed <==> EndedWith(drive, calls, -2))
    ensures r.Found? ==> Total(calls) == r.hashes && calls != []
    ensures r.Found? ==> exists rc: i64 ::
                && EndedWith(drive, calls, rc) && r.nonce == At(calls[|calls| - 1].start, AsU64(rc))
                && (Covered(r.nonce, calls[|calls| - 1]) <==> 0 <= rc < calls[|calls| - 1].n)
    ensures r.Exhausted? || r.Running? ==>
              Total(calls) == r.hashes == DoneAfter(batch, subMax, |calls|) && Fruitless(drive, calls)
    ensures r.Exhausted? ==> r.hashes == batch || stop(Polled(calls))
    ensures r.Running? ==> r.hashes < batch && |calls| == rounds
    ensures Ends(batch, subMax) && rounds >= batch ==> !r.Running?
    ensures forall i :: 0 <= i < Polled(calls) ==> !stop(i)
    ensures Honest(drive, win) && (Ends(batch, subMax) || QuietOnEmpty(drive)) ==> FirstWinner(win, base, batch, r)
  {
    hide *;
    calls := [];
    var done: nat, polls: nat, left := 0, 0, rounds;
    ghost var trusted := Honest(drive, win) && (Ends(batch, subMax) || QuietOnEmpty(drive));
    Nothing(drive, win, base, MAX_SUB);
    NoRounds(batch, subMax);
    while done < batch
      invariant done <= batch && Total(calls) == done == DoneAfter(batch, subMax, |calls|)
      invariant Contiguous(calls, base, MAX_SUB) && Fruitless(drive, calls) && |calls| + left == rounds
      invariant Ends(batch, subMax) ==> NonEmpty(calls)
      invariant polls == Polled(calls) && forall i :: 0 <= i < polls ==> !stop(i)
      invariant trusted ==> NoWin(win, base, 0, done)
      decreases left
    {
      if done > 0 {
        if stop(polls) { break; }
      }
      if left == 0 {
        FruitlessEnd(drive, calls);
        if Ends(batch, subMax) { NonEmptyTotal(calls); }
        if trusted { NothingFound(win, base, batch, done); }
        return Running(done), calls;
      }
      polls, left := if done > 0 then polls + 1 else polls, left - 1;
      var sub := SubOf(batch, done, subMax);
      SubFits(batch, done, subMax);
      NextDone(batch, subMax, |calls|);
      var start := At(base, done);
      Extend(calls, base, MAX_SUB, sub);
      PolledNext(calls, Dispatch(start, sub));
      Grow(drive, calls, Dispatch(start, sub));
      calls := calls + [Dispatch(start, sub)];
      var rc := drive(start, sub);
      CoveredIff(Dispatch(start, sub), rc);
      if trusted { TrustedHere(drive, win, batch, subMax, start, sub); }
      if trusted && rc != -1 {
        WinnerFound(win, drive, base, batch, done, sub);
        OffsetInRange(rc, sub);
      }
      if rc == -2 { return Failed, calls; }
      if rc != -1 { return Found(At(start, AsU64(rc)), done + sub), calls; }
      if trusted {
        FruitlessRange(win, drive, start, sub);
        JoinNoWin(win, base, done, sub);
      }
      done := done + sub;
    }
    r := Exhausted(done);
    FruitlessEnd(drive, calls);
    if trusted { NothingFound(win, base, batch, done); }
  }

  lemma NoRounds(batch: nat, subMax: nat)
    ensures DoneAfter(batch, subMax, 0) == 0 && Polled([]) == 0
  {}

  lemma NextDone(batch: nat, subMax: nat, k: nat)
    ensures DoneAfter(batch, subMax, k + 1) == DoneAfter(batch, subMax, k) + SubOf(batch, DoneAfter(batch, subMax, k), subMax)
  {}

  lemma SubFits(batch: nat, done: nat, subMax: nat)
    requires done < batch && subMax > 0
    ensures SubOf(batch, done, subMax) <= MAX_SUB && done + SubOf(batch, done, subMax) <= batch
    ensures Ends(batch, subMax) ==> SubOf(batch, done, subMax) > 0
  {
    if Ends(batch, subMax) { SubExact(batch, done, subMax); }
  }

  lemma TrustedHere(drive: Driver, win: nat -> bool, batch: nat, subMax: nat, start: nat, n: nat)
    requires Honest(drive, win) && n <= MAX_SUB && start < U64 && (n > 0 || QuietOnEmpty(drive))
    ensures HonestAt(drive, win, start, n)
  {
    if n > 0 { HonestHere(drive, win, start, n); }
  }

  lemma Nothing(drive: Driver, win: nat -> bool, base: nat, most: nat)
    ensures NoWin(win, base, 0, 0) && Fruitless(drive, []) && Contiguous([], base, most) && NonEmpty([]) && Total([]) == 0
  {}

  lemma HonestHere(drive: Driver, win: nat -> bool, start: nat, n: nat)
    requires Honest(drive, win) && 0 < n <= MAX_SUB && start < U64
    ensures HonestAt(drive, win, start, n)
  {}

  lemma Grow(drive: Driver, log: seq<Dispatch>, d: Dispatch)
    requires Fruitless(drive, log)
    ensures EndedWith(drive, log + [d], drive(d.start, d.n))
    ensures drive(d.start, d.n) == -1 ==> Fruitless(drive, log + [d])
    ensures drive(d.start, d.n) != -2 ==> !EndedWith(drive, log + [d], -2)
  {
    assert (log + [d])[..|log|] == log;
  }

  lemma FruitlessRange(win: nat -> bool, drive: Driver, start: nat, n: nat)
    requires HonestAt(drive, win, start, n) && drive(start, n) == -1
    ensures NoWin(win, start, 0, n)
  {}

  lemma NothingFound(win: nat -> bool, base: nat, batch: nat, done: nat)
    requires done <= batch && NoWin(win, base, 0, done)
    ensures FirstWinner(win, base, batch, Exhausted(done)) && FirstWinner(win, base, batch, Running(done))
  {}

  lemma FruitlessEnd(drive: Driver, log: seq<Dispatch>)
    requires Fruitless(drive, log)
    ensures !EndedWith(drive, log, -2)
  {}
}
