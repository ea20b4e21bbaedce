/** select_claim_batch: which escrow outputs the next claim transaction spends. */
module ClaimSelection {
  import opened Wrappers
  import opened EscrowModel

  predicate Eligible(e: Entry, daa: nat, inFlight: set<Outpoint>) {
    && Live(e)
    && daa >= e.confirmDaa + e.csvWindow + 10
    && (e.retryAfter.Some? ==> daa >= e.retryAfter.value)
    && e.outpoint !in inFlight
  }

  /** Pass 0 nominal, 1 repair, 2 drain, 3 the known-dead pool. */
  predicate InPass(e: Entry, pass: nat, current: nat) {
    match pass
    case 0 => e.batchCap == 0 && !e.orphanSlashed
    case 1 => e.batchCap != 0 && !e.orphanSlashed
    case 2 => e.batchCap == 0 && !e.orphanSlashed && e.csvWindow != current
    case _ => e.orphanSlashed
  }

  predicate InWindow(e: Entry, window: Option<nat>) { window.Some? ==> e.csvWindow == window.value }

  predicate Candidate(e: Entry, daa: nat, inFlight: set<Outpoint>, pass: nat, current: nat, window: Option<nat>) {
    InPass(e, pass, current) && Eligible(e, daa, inFlight) && InWindow(e, window)
  }

  /** The indices a pass may draw from. */
  function Pool(entries: seq<Entry>, daa: nat, inFlight: set<Outpoint>, pass: nat, current: nat, window: Option<nat>): set<nat> {
    set i: nat | i < |entries| && Candidate(entries[i], daa, inFlight, pass, current, window)
  }

  /** Queue order of the nominal pass: inference outputs first, otherwise oldest first. */
  predicate Before(entries: seq<Entry>, i: nat, j: nat)
    requires i < |entries| && j < |entries|
  {
    if entries[i].isInference == entries[j].isInference then i < j else entries[i].isInference
  }

  predicate Distinct(batch: seq<nat>) {
    forall a, b :: 0 <= a < b < |batch| ==> batch[a] != batch[b]
  }

  /** What every candidate batch is: distinct members of one pass and one window, no larger than any member's cap. */
  predicate Sound(entries: seq<Entry>, pool: set<nat>, batch: seq<nat>) {
    && |batch| <= MAX_CLAIM_BATCH
    && Distinct(batch)
    && (forall a :: 0 <= a < |batch| ==> batch[a] < |entries| && batch[a] in pool)
    && (forall a :: 0 <= a < |batch| ==> |batch| <= EffCap(entries[batch[a]]))
    && (forall a, b :: 0 <= a < |batch| && 0 <= b < |batch| ==> entries[batch[a]].csvWindow == entries[batch[b]].csvWindow)
  }

  /** A nominal batch is the first MAX_CLAIM_BATCH outputs of its window in queue order. */
  predicate FirstInQueue(entries: seq<Entry>, pool: set<nat>, batch: seq<nat>)
    requires forall a :: 0 <= a < |batch| ==> batch[a] < |entries|
    requires forall j :: j in pool ==> j < |entries|
  {
    forall j :: j in pool && j !in batch ==>
      |batch| == MAX_CLAIM_BATCH && forall a :: 0 <= a < |batch| ==> Before(entries, batch[a], j)
  }

  /** Outside the nominal pass the oldest output of the pool opens the batch, so none is starved. */
  predicate OldestLeads(pool: set<nat>, batch: seq<nat>)
    requires batch != []
  {
    forall j :: j in pool ==> batch[0] <= j
  }

  // ----- the order a pass walks the entries in -----

  function KindIndices(entries: seq<Entry>, n: nat, inference: bool): seq<nat>
    requires n <= |entries|
  {
    if n == 0 then []
    else if entries[n - 1].isInference == inference then KindIndices(entries, n - 1, inference) + [n - 1]
    else KindIndices(entries, n - 1, inference)
  }

  /** Indices below `n` of one kind, in increasing order. */
  predicate OfKind(entries: seq<Entry>, s: seq<nat>, n: nat, inference: bool)
    requires n <= |entries|
  {
    && (forall a :: 0 <= a < |s| ==> s[a] < n && entries[s[a]].isInference == inference)
    && (forall a, b :: 0 <= a < b < |s| ==> s[a] < s[b])
  }

  lemma OfKindSnoc(entries: seq<Entry>, s: seq<nat>, n: nat, inference: bool)
    requires n < |entries| && OfKind(entries, s, n, inference)
    ensures OfKind(entries, s, n + 1, inference)
    ensures entries[n].isInference == inference ==> OfKind(entries, s + [n], n + 1, inference)
  {}

  lemma {:induction false} KindIndicesAre(entries: seq<Entry>, n: nat, inference: bool)
    requires n <= |entries|
    ensures OfKind(entries, KindIndices(entries, n, inference), n, inference)
  {
    if n > 0 {
      KindIndicesAre(entries, n - 1, inference);
      OfKindSnoc(entries, KindIndices(entries, n - 1, inference), n - 1, inference);
    }
  }

  lemma {:induction false} KindIndicesComplete(entries: seq<Entry>, n: nat, inference: bool, i: nat)
    requires i < n <= |entries| && entries[i].isInference == inference
    ensures i in KindIndices(entries, n, inference)
  {
    var s := KindIndices(entries, n, inference);
    if i < n - 1 { KindIndicesComplete(entries, n - 1, inference, i); } else { assert s[|s| - 1] == i; }
  }

  predicate Covers(n: nat, order: seq<nat>) {
    Distinct(order) && (forall a :: 0 <= a < |order| ==> order[a] < n) && (forall i: nat :: i < n ==> i in order)
  }

  /** The indices in the order the pass visits them: a stable sort by kind in the nominal pass only. */
  method WalkOrder(entries: seq<Entry>, pass: nat) returns (order: seq<nat>)
    ensures Covers(|entries|, order)
    ensures pass == 0 ==> forall a, b :: 0 <= a < b < |order| ==> Before(entries, order[a], order[b])
    ensures pass != 0 ==> forall a, b :: 0 <= a < b < |order| ==> order[a] < order[b]
  {
    if pass == 0 {
      var inf, rest := KindIndices(entries, |entries|, true), KindIndices(entries, |entries|, false);
      KindIndicesAre(entries, |entries|, true);
      KindIndicesAre(entries, |entries|, false);
      order := inf + rest;
      forall i: nat | i < |entries|
        ensures i in order
      {
        KindIndicesComplete(entries, |entries|, entries[i].isInference, i);
      }
    } else {
      order := seq(|entries|, i => i);
      forall i: nat | i < |entries|
        ensures i in order
      {
        assert order[i] == i;
      }
    }
  }

  /** What the greedy walk keeps: a sound batch that can still grow to `limit`, all in one window. */
  predicate Growing(entries: seq<Entry>, pool: set<nat>, batch: seq<nat>, limit: nat, window: Option<nat>, forced: Option<nat>) {
    && Sound(entries, pool, batch)
    && |batch| <= limit <= MAX_CLAIM_BATCH
    && (forall a :: 0 <= a < |batch| ==> limit <= EffCap(entries[batch[a]]))
    && (forall a :: 0 <= a < |batch| ==> window == Some(entries[batch[a]].csvWindow))
    && (batch == [] || forced.Some? ==> window == forced)
  }

  lemma JoinKeepsGrowing(entries: seq<Entry>, pool: set<nat>, batch: seq<nat>, limit: nat, window: Option<nat>,
                         forced: Option<nat>, i: nat)
    requires Growing(entries, pool, batch, limit, window, forced)
    requires i < |entries| && i in pool && i !in batch
    requires InWindow(entries[i], window) && InWindow(entries[i], forced)
    requires Min(EffCap(entries[i]), limit) >= |batch| + 1
    ensures Growing(entries, pool, batch + [i], Min(limit, EffCap(entries[i])), Some(entries[i].csvWindow), forced)
  {
    var grown := batch + [i];
    forall a | 0 <= a < |grown|
      ensures grown[a] in pool && Min(limit, EffCap(entries[i])) <= EffCap(entries[grown[a]])
      ensures entries[grown[a]].csvWindow == entries[i].csvWindow
    {
      if a < |batch| { assert grown[a] == batch[a]; }
    }
  }

  /** The walk after its first `k` entries. */
  ghost predicate Walked(entries: seq<Entry>, pool: set<nat>, order: seq<nat>, batch: seq<nat>, limit: nat, window: Option<nat>,
                         forced: Option<nat>, pass: nat, k: nat)
  {
    && k <= |order| && Growing(entries, pool, batch, limit, window, forced) && limit >= 1
    && (pass == 0 ==> limit == MAX_CLAIM_BATCH)
    && (forall a :: 0 <= a < |batch| ==> batch[a] in order[..k])
    && (batch != [] && pass != 0 ==> forall b :: 0 <= b < |order| && order[b] in pool ==> batch[0] <= order[b])
    && (batch == [] || pass == 0 ==> forall b :: 0 <= b < k && order[b] in pool ==> order[b] in batch)
  }

  /** How the pass visits the entries. */
  ghost predicate Ordered(entries: seq<Entry>, order: seq<nat>, pass: nat) {
    && Covers(|entries|, order)
    && (pass == 0 ==> forall a, b :: 0 <= a < b < |order| ==> Before(entries, order[a], order[b]))
    && (pass != 0 ==> forall a, b :: 0 <= a < b < |order| ==> order[a] < order[b])
  }

  lemma WalkStarts(entries: seq<Entry>, pool: set<nat>, order: seq<nat>, forced: Option<nat>, pass: nat)
    ensures Walked(entries, pool, order, [], MAX_CLAIM_BATCH, forced, forced, pass, 0)
  {}

  lemma WalkSkips(entries: seq<Entry>, pool: set<nat>, order: seq<nat>, batch: seq<nat>, limit: nat, window: Option<nat>,
                  forced: Option<nat>, pass: nat, k: nat)
    requires Walked(entries, pool, order, batch, limit, window, forced, pass, k) && k < |order|
    requires batch == [] || pass == 0 ==> order[k] !in pool
    ensures Walked(entries, pool, order, batch, limit, window, forced, pass, k + 1)
  {
    hide Growing;
    assert order[..k + 1] == order[..k] + [order[k]];
  }

  lemma WalkJoins(entries: seq<Entry>, pool: set<nat>, order: seq<nat>, batch: seq<nat>, limit: nat, window: Option<nat>,
                  forced: Option<nat>, pass: nat, k: nat)
    requires Walked(entries, pool, order, batch, limit, window, forced, pass, k) && k < |order| && Ordered(entries, order, pass)
    requires order[k] in pool && InWindow(entries[order[k]], window) && InWindow(entries[order[k]], forced)
    requires Min(EffCap(entries[order[k]]), limit) >= |batch| + 1
    requires pass == 0 ==> EffCap(entries[order[k]]) == MAX_CLAIM_BATCH
    ensures Walked(entries, pool, order, batch + [order[k]], Min(limit, EffCap(entries[order[k]])),
                   Some(entries[order[k]].csvWindow), forced, pass, k + 1)
  {
    var i := order[k];
    assert i !in batch by { assert forall c :: 0 <= c < k ==> order[..k][c] == order[c]; }
    JoinKeepsGrowing(entries, pool, batch, limit, window, forced, i);
    hide Growing, EffCap;
    assert order[..k + 1] == order[..k] + [i];
  }

  ghost predicate CandidateOk(entries: seq<Entry>, pool: set<nat>, batch: seq<nat>, pass: nat) {
    && Sound(entries, pool, batch)
    && (batch == [] <==> pool == {})
    && (forall j :: j in pool ==> j < |entries|)
    && (pass == 0 ==> FirstInQueue(entries, pool, batch))
    && (pass != 0 && batch != [] ==> OldestLeads(pool, batch))
  }

  lemma WalkEnds(entries: seq<Entry>, pool: set<nat>, order: seq<nat>, batch: seq<nat>, limit: nat, window: Option<nat>,
                 forced: Option<nat>, pass: nat, k: nat)
    requires Walked(entries, pool, order, batch, limit, window, forced, pass, k) && Ordered(entries, order, pass)
    requires k == |order| || |batch| >= limit
    requires forall j :: j in pool ==> j < |entries|
    ensures CandidateOk(entries, pool, batch, pass)
  {
    if batch == [] {
      EmptyOnlyIfNone(entries, pool, order);
    } else {
      assert batch[0] in pool;
      if pass != 0 { LeadsWhole(entries, pool, order, batch[0]); }
    }
    if pass == 0 { QueueIsPrefix(entries, pool, batch, order, k); }
  }

  lemma PoolMembers(entries: seq<Entry>, daa: nat, inFlight: set<Outpoint>, pass: nat, current: nat, forced: Option<nat>, i: nat)
    requires i < |entries|
    ensures i in Pool(entries, daa, inFlight, pass, current, forced) <==>
              InPass(entries[i], pass, current) && Eligible(entries[i], daa, inFlight) && InWindow(entries[i], forced)
    ensures pass == 0 && InPass(entries[i], pass, current) ==> EffCap(entries[i]) == MAX_CLAIM_BATCH
    ensures forall j :: j in Pool(entries, daa, inFlight, pass, current, forced) ==> j < |entries|
  {}

  /** One candidate batch: the inner loop of select_claim_batch. */
  method BuildCandidate(entries: seq<Entry>, daa: nat, inFlight: set<Outpoint>, current: nat, pass: nat, forced: Option<nat>)
    returns (batch: seq<nat>)
    requires pass == 0 ==> forced.Some?
    ensures CandidateOk(entries, Pool(entries, daa, inFlight, pass, current, forced), batch, pass)
  {
    ghost var pool := Pool(entries, daa, inFlight, pass, current, forced);
    var order := WalkOrder(entries, pass);
    batch := [];
    var limit: nat := MAX_CLAIM_BATCH;
    var window := forced;
    var k := 0;
    WalkStarts(entries, pool, order, forced, pass);
    assert Ordered(entries, order, pass);
    assert forall a :: 0 <= a < |order| ==> order[a] < |entries|;
    hide Walked, Ordered, CandidateOk, Eligible, InPass, EffCap, Pool, Before, Covers;
    while k < |order| && |batch| < limit
      invariant 0 <= k <= |order| && Walked(entries, pool, order, batch, limit, window, forced, pass, k)
    {
      var i := order[k];
      var e := entries[i];
      PoolMembers(entries, daa, inFlight, pass, current, forced, i);
      WalkWindow(entries, pool, order, batch, limit, window, forced, pass, k);
      var takes := InPass(e, pass, current) && Eligible(e, daa, inFlight) && InWindow(e, window);
      var cap := EffCap(e);
      if takes && Min(cap, limit) >= |batch| + 1 {
        WalkJoins(entries, pool, order, batch, limit, window, forced, pass, k);
        batch := batch + [i];
        limit := Min(limit, cap);
        window := Some(e.csvWindow);
      } else {
        WalkSkips(entries, pool, order, batch, limit, window, forced, pass, k);
      }
      k := k + 1;
    }
    PoolBelow(entries, daa, inFlight, pass, current, forced);
    WalkEnds(entries, pool, order, batch, limit, window, forced, pass, k);
  }

  lemma PoolBelow(entries: seq<Entry>, daa: nat, inFlight: set<Outpoint>, pass: nat, current: nat, forced: Option<nat>)
    ensures forall j :: j in Pool(entries, daa, inFlight, pass, current, forced) ==> j < |entries|
  {}

  /** The window in force is the forced one, or that of the batch so far, and a batch of one always fits its cap. */
  lemma WalkWindow(entries: seq<Entry>, pool: set<nat>, order: seq<nat>, batch: seq<nat>, limit: nat, window: Option<nat>,
                   forced: Option<nat>, pass: nat, k: nat)
    requires Walked(entries, pool, order, batch, limit, window, forced, pass, k)
    ensures batch == [] || forced.Some? ==> window == forced
    ensures limit >= 1 && (pass == 0 ==> limit == MAX_CLAIM_BATCH)
  {}

  lemma LeadsWhole(entries: seq<Entry>, pool: set<nat>, order: seq<nat>, first: nat)
    requires Covers(|entries|, order)
    requires forall j :: j in pool ==> j < |entries|
    requires forall b :: 0 <= b < |order| && order[b] in pool ==> first <= order[b]
    ensures forall j :: j in pool ==> first <= j
  {
    forall j | j in pool
      ensures first <= j
    {
      assert j in order;
    }
  }

  lemma EmptyOnlyIfNone(entries: seq<Entry>, pool: set<nat>, order: seq<nat>)
    requires Covers(|entries|, order)
    requires forall j :: j in pool ==> j < |entries|
    requires forall b :: 0 <= b < |order| ==> order[b] !in pool
    ensures pool == {}
  {
    forall i: nat | i < |entries|
      ensures i !in pool
    {
      assert i in order;
      var b :| 0 <= b < |order| && order[b] == i;
    }
  }

  lemma QueueIsPrefix(entries: seq<Entry>, pool: set<nat>, batch: seq<nat>, order: seq<nat>, k: nat)
    requires Covers(|entries|, order) && k <= |order|
    requires forall a, b :: 0 <= a < b < |order| ==> Before(entries, order[a], order[b])
    requires forall j :: j in pool ==> j < |entries|
    requires forall a :: 0 <= a < |batch| ==> batch[a] < |entries| && batch[a] in order[..k]
    requires forall b :: 0 <= b < k && order[b] in pool ==> order[b] in batch
    requires |batch| == MAX_CLAIM_BATCH || k == |order|
    ensures FirstInQueue(entries, pool, batch)
  {
    forall j | j in pool && j !in batch
      ensures |batch| == MAX_CLAIM_BATCH && forall a :: 0 <= a < |batch| ==> Before(entries, batch[a], j)
    {
      assert j in order;
      var b :| 0 <= b < |order| && order[b] == j;
      assert b >= k;
      forall a | 0 <= a < |batch|
        ensures Before(entries, batch[a], j)
      {
        var c :| 0 <= c < k && order[c] == batch[a];
      }
    }
  }

  // ----- all candidates, in priority order -----

  /** Windows are tried current era first, then in ascending order. */
  predicate WindowBefore(current: nat, v: nat, w: nat) {
    if (v == current) == (w == current) then v < w else v == current
  }

  /** The windows present, sorted by priority and without duplicates. */
  method SortedWindows(entries: seq<Entry>, current: nat) returns (windows: seq<nat>)
    ensures forall a, b :: 0 <= a < b < |windows| ==> WindowBefore(current, windows[a], windows[b])
    ensures forall i :: 0 <= i < |entries| ==> entries[i].csvWindow in windows
    ensures forall w :: w in windows ==> exists i :: 0 <= i < |entries| && entries[i].csvWindow == w
  {
    windows := [];
    for n := 0 to |entries|
      invariant forall a, b :: 0 <= a < b < |windows| ==> WindowBefore(current, windows[a], windows[b])
      invariant forall i :: 0 <= i < n ==> entries[i].csvWindow in windows
      invariant forall w :: w in windows ==> exists i :: 0 <= i < n && entries[i].csvWindow == w
    {
      var w := entries[n].csvWindow;
      var at := 0;
      while at < |windows| && WindowBefore(current, windows[at], w)
        invariant 0 <= at <= |windows|
        invariant forall a :: 0 <= a < at ==> WindowBefore(current, windows[a], w)
      {
        at := at + 1;
      }
      if at == |windows| || windows[at] != w {
        ghost var before := windows;
        windows := windows[..at] + [w] + windows[at..];
        assert windows[at] == w;
        assert forall v :: v in before ==> v in windows by {
          assert before == before[..at] + before[at..];
        }
        assert forall v :: v in windows ==> v == w || v in before;
      }
    }
  }

  /** Whether a candidate may ship: nominal batches only when full, the other passes at any size. */
  predicate Releasable(entries: seq<Entry>, daa: nat, inFlight: set<Outpoint>, current: nat, pass: nat, window: Option<nat>) {
    var pool := Pool(entries, daa, inFlight, pass, current, window);
    if pass == 0 then |pool| >= MIN_CLAIM_BATCH else pool != {}
  }

  function Members(batch: seq<nat>): set<nat> { set x | x in batch }

  lemma DistinctCard(batch: seq<nat>)
    requires Distinct(batch)
    ensures |Members(batch)| == |batch|
  {
    if batch != [] {
      var front, last := batch[..|batch| - 1], batch[|batch| - 1];
      DistinctCard(front);
      assert batch == front + [last];
      assert Members(batch) == Members(front) + {last};
    }
  }

  lemma CardMonotone(a: set<nat>, b: set<nat>)
    requires a <= b
    ensures |a| <= |b|
  {
    assert b == a + (b - a);
  }

  /** A candidate batch is full exactly when its pool holds enough outputs for a full batch. */
  lemma FullIffPoolLarge(entries: seq<Entry>, pool: set<nat>, batch: seq<nat>)
    requires Sound(entries, pool, batch)
    requires forall j :: j in pool ==> j < |entries|
    requires FirstInQueue(entries, pool, batch)
    ensures |batch| >= MIN_CLAIM_BATCH <==> |pool| >= MIN_CLAIM_BATCH
  {
    DistinctCard(batch);
    var members := Members(batch);
    assert members <= pool;
    CardMonotone(members, pool);
    if |batch| < MAX_CLAIM_BATCH {
      assert pool == members;
    }
  }

  /** No candidate of any pass may ship. */
  ghost predicate NothingReleasable(entries: seq<Entry>, daa: nat, inFlight: set<Outpoint>, current: nat) {
    && (forall w: nat :: !Releasable(entries, daa, inFlight, current, 0, Some(w)))
    && (forall pass: nat :: 1 <= pass <= 3 ==> !Releasable(entries, daa, inFlight, current, pass, None))
  }

  /** The batch of one pass, which is the highest-priority releasable one. */
  ghost predicate Chosen(entries: seq<Entry>, daa: nat, inFlight: set<Outpoint>, current: nat, pass: nat, batch: seq<nat>) {
    && pass <= 3 && batch != []
    && Sound(entries, Pool(entries, daa, inFlight, pass, current, None), batch)
    && (pass == 0 ==>
          var w := entries[batch[0]].csvWindow;
          && |batch| == MIN_CLAIM_BATCH
          && FirstInQueue(entries, Pool(entries, daa, inFlight, 0, current, Some(w)), batch)
          && forall v: nat :: WindowBefore(current, v, w) ==> !Releasable(entries, daa, inFlight, current, 0, Some(v)))
    && (pass >= 1 ==> OldestLeads(Pool(entries, daa, inFlight, pass, current, None), batch))
    && (pass >= 1 ==> forall v: nat :: !Releasable(entries, daa, inFlight, current, 0, Some(v)))
    && (forall q: nat :: 1 <= q < pass ==> !Releasable(entries, daa, inFlight, current, q, None))
  }

  /** A window no entry has offers nothing. */
  lemma AbsentWindow(entries: seq<Entry>, daa: nat, inFlight: set<Outpoint>, current: nat, w: nat)
    requires forall i :: 0 <= i < |entries| ==> entries[i].csvWindow != w
    ensures !Releasable(entries, daa, inFlight, current, 0, Some(w))
  {
    assert Pool(entries, daa, inFlight, 0, current, Some(w)) == {};
  }

  /** Narrowing a pool to one window keeps a sound batch sound for the whole pass. */
  lemma SoundForPass(entries: seq<Entry>, daa: nat, inFlight: set<Outpoint>, current: nat, pass: nat, w: Option<nat>, batch: seq<nat>)
    requires Sound(entries, Pool(entries, daa, inFlight, pass, current, w), batch)
    ensures Sound(entries, Pool(entries, daa, inFlight, pass, current, None), batch)
  {}

  /**
   select_claim_batch.  The result is empty exactly when nothing may ship; otherwise it is the batch
   of the first pass and window, in priority order, that has something releasable.
   */
  method SelectClaimBatch(entries: seq<Entry>, daa: nat, inFlight: set<Outpoint>, gate: nat) returns (batch: seq<nat>)
    ensures var current := CsvWindowForDaa(gate, daa);
            && (batch == [] <==> NothingReleasable(entries, daa, inFlight, current))
            && (batch != [] ==> exists pass :: Chosen(entries, daa, inFlight, current, pass, batch))
  {
    var current := CsvWindowForDaa(gate, daa);
    var windows := SortedWindows(entries, current);
    forall w: nat | w !in windows
      ensures !Releasable(entries, daa, inFlight, current, 0, Some(w))
    {
      AbsentWindow(entries, daa, inFlight, current, w);
    }
    var c := 0;
    while c < |windows|
      invariant 0 <= c <= |windows|
      invariant forall d :: 0 <= d < c ==> !Releasable(entries, daa, inFlight, current, 0, Some(windows[d]))
    {
      var w := windows[c];
      batch := BuildCandidate(entries, daa, inFlight, current, 0, Some(w));
      FullIffPoolLarge(entries, Pool(entries, daa, inFlight, 0, current, Some(w)), batch);
      if |batch| >= MIN_CLAIM_BATCH {
        SoundForPass(entries, daa, inFlight, current, 0, Some(w), batch);
        EarlierWindows(windows, current, c);
        assert Chosen(entries, daa, inFlight, current, 0, batch) by {
          assert entries[batch[0]].csvWindow == w by { assert batch[0] in Pool(entries, daa, inFlight, 0, current, Some(w)); }
        }
        assert Releasable(entries, daa, inFlight, current, 0, Some(w));
        return;
      }
      c := c + 1;
    }
    var pass: nat := 1;
    while pass <= 3
      invariant 1 <= pass <= 4
      invariant forall q: nat :: 1 <= q < pass ==> !Releasable(entries, daa, inFlight, current, q, None)
    {
      batch := BuildCandidate(entries, daa, inFlight, current, pass, None);
      if batch != [] {
        assert Releasable(entries, daa, inFlight, current, pass, None);
        assert Chosen(entries, daa, inFlight, current, pass, batch);
        return;
      }
      pass := pass + 1;
    }
    batch := [];
  }

  lemma EarlierWindows(windows: seq<nat>, current: nat, c: nat)
    requires c < |windows|
    requires forall a, b :: 0 <= a < b < |windows| ==> WindowBefore(current, windows[a], windows[b])
    ensures forall v :: v in windows && WindowBefore(current, v, windows[c]) ==> v in windows[..c]
  {
    forall v | v in windows && WindowBefore(current, v, windows[c])
      ensures v in windows[..c]
    {
      var d :| 0 <= d < |windows| && windows[d] == v;
      assert d < c;
      assert windows[..c][d] == v;
    }
  }
}
