/** What the escrow watcher keeps true between calls, and how its building blocks keep it. */
module EscrowInvariants {
  import opened Wrappers
  import opened ByteOrder
  import opened EscrowModel
  import opened ClaimTransaction

  /** A claim transaction submitted and awaiting its response. */
  datatype InFlightClaim = InFlightClaim(outpoints: seq<Outpoint>, submitDaa: nat, gross: nat)

  type Claims = map<string, InFlightClaim>

  // ----- lookup indexes -----

  /** The positions of a block's entries, found by a scan. */
  function IndicesOf(entries: seq<Entry>, hash: string): seq<nat> {
    if entries == [] then []
    else
      var n := |entries| - 1;
      IndicesOf(entries[..n], hash) + (if entries[n].blockHash == hash then [n] else [])
  }

  lemma IndicesOfExact(entries: seq<Entry>, hash: string)
    ensures var s := IndicesOf(entries, hash);
            && (forall a :: 0 <= a < |s| ==> s[a] < |entries| && entries[s[a]].blockHash == hash)
            && (forall a, b :: 0 <= a < b < |s| ==> s[a] < s[b])
            && (forall i :: 0 <= i < |entries| && entries[i].blockHash == hash ==> i in s)
  {
    if entries != [] {
      var n := |entries| - 1;
      IndicesOfExact(entries[..n], hash);
      var p, s := IndicesOf(entries[..n], hash), IndicesOf(entries, hash);
      forall i | 0 <= i < |entries| && entries[i].blockHash == hash
        ensures i in s
      {
        if i < n { assert entries[..n][i] == entries[i]; assert i in p; } else { assert s[|s| - 1] == i; }
      }
    }
  }

  lemma IndicesOfSame(a: seq<Entry>, b: seq<Entry>, hash: string)
    requires |a| == |b| && forall i :: 0 <= i < |a| ==> a[i].blockHash == b[i].blockHash
    ensures IndicesOf(a, hash) == IndicesOf(b, hash)
  {
    if a != [] { IndicesOfSame(a[..|a| - 1], b[..|b| - 1], hash); }
  }

  predicate HasBlock(entries: seq<Entry>, hash: string) {
    exists i :: 0 <= i < |entries| && entries[i].blockHash == hash
  }

  predicate Tracks(entries: seq<Entry>, o: Outpoint) {
    exists i :: 0 <= i < |entries| && entries[i].outpoint == o
  }

  /** Both indexes agree with a full scan of the entries. */
  ghost predicate Indexed(entries: seq<Entry>, outpoints: set<Outpoint>, blocks: map<string, seq<nat>>) {
    && DistinctOutpoints(entries)
    && (forall o :: o in outpoints <==> Tracks(entries, o))
    && BlocksIndexed(entries, blocks)
  }

  ghost predicate BlocksIndexed(entries: seq<Entry>, blocks: map<string, seq<nat>>) {
    && (forall h :: h in blocks <==> h != "" && HasBlock(entries, h))
    && (forall h :: h in blocks ==> blocks[h] == IndicesOf(entries, h))
  }

  /** Same entries in the same places, whatever else about them changed. */
  predicate SameKeys(a: seq<Entry>, b: seq<Entry>) {
    |a| == |b| && forall i :: 0 <= i < |a| ==> a[i].outpoint == b[i].outpoint && a[i].blockHash == b[i].blockHash
  }

  lemma UpdateKeepsIndexed(a: seq<Entry>, b: seq<Entry>, outpoints: set<Outpoint>, blocks: map<string, seq<nat>>)
    requires Indexed(a, outpoints, blocks) && SameKeys(a, b)
    ensures Indexed(b, outpoints, blocks)
  {
    forall h
      ensures HasBlock(a, h) <==> HasBlock(b, h)
      ensures IndicesOf(a, h) == IndicesOf(b, h)
    {
      IndicesOfSame(a, b, h);
    }
    forall o
      ensures Tracks(a, o) <==> Tracks(b, o)
    {
      if i :| 0 <= i < |a| && a[i].outpoint == o { assert b[i].outpoint == o; }
      if i :| 0 <= i < |b| && b[i].outpoint == o { assert a[i].outpoint == o; }
    }
  }

  function AddToBlock(blocks: map<string, seq<nat>>, hash: string, i: nat): map<string, seq<nat>> {
    if hash == "" then blocks
    else blocks[hash := (if hash in blocks then blocks[hash] else []) + [i]]
  }

  lemma EmptyIndicesOf(entries: seq<Entry>, hash: string)
    requires forall i :: 0 <= i < |entries| ==> entries[i].blockHash != hash
    ensures IndicesOf(entries, hash) == []
  {
    if entries != [] { EmptyIndicesOf(entries[..|entries| - 1], hash); }
  }

  lemma AppendKeepsBlocks(entries: seq<Entry>, e: Entry, blocks: map<string, seq<nat>>)
    requires BlocksIndexed(entries, blocks)
    ensures BlocksIndexed(entries + [e], AddToBlock(blocks, e.blockHash, |entries|))
  {
    var grown, n := entries + [e], |entries|;
    assert grown[..n] == entries && grown[n] == e;
    forall h
      ensures HasBlock(grown, h) <==> HasBlock(entries, h) || h == e.blockHash
    {
      if i :| 0 <= i < n && entries[i].blockHash == h { assert grown[i].blockHash == h; }
      if h == e.blockHash { assert grown[n].blockHash == h; }
    }
    if !HasBlock(entries, e.blockHash) { EmptyIndicesOf(entries, e.blockHash); }
  }

  lemma AppendKeepsIndexed(entries: seq<Entry>, e: Entry, outpoints: set<Outpoint>, blocks: map<string, seq<nat>>)
    requires Indexed(entries, outpoints, blocks) && e.outpoint !in outpoints
    ensures Indexed(entries + [e], outpoints + {e.outpoint}, AddToBlock(blocks, e.blockHash, |entries|))
  {
    AppendKeepsBlocks(entries, e, blocks);
    var grown, n := entries + [e], |entries|;
    forall o
      ensures o in outpoints + {e.outpoint} <==> Tracks(grown, o)
    {
      if i :| 0 <= i < n && entries[i].outpoint == o { assert grown[i].outpoint == o; }
      if o == e.outpoint { assert grown[n].outpoint == o; }
    }
    forall i | 0 <= i < n
      ensures grown[i].outpoint != e.outpoint
    {
      assert Tracks(entries, entries[i].outpoint);
    }
  }

  // ----- claims in flight -----

  predicate DistinctOps(ops: seq<Outpoint>) {
    forall a, b :: 0 <= a < b < |ops| ==> ops[a] != ops[b]
  }

  function OpSet(ops: seq<Outpoint>): set<Outpoint> { set o | o in ops }

  /**
   The outpoints in flight are exactly the disjoint union of the outpoints of at most four claims of
   1 to 87 outputs each.
   */
  ghost predicate Flights(claims: Claims, inFlight: set<Outpoint>) {
    && |claims| <= MAX_IN_FLIGHT_CLAIMS
    && (forall t :: t in claims ==> 1 <= |claims[t].outpoints| <= MAX_CLAIM_BATCH && DistinctOps(claims[t].outpoints))
    && (forall t, u, o :: t in claims && u in claims && o in claims[t].outpoints && o in claims[u].outpoints ==> t == u)
    && (forall o :: o in inFlight <==> exists t :: t in claims && o in claims[t].outpoints)
  }

  lemma ReleaseKeepsFlights(claims: Claims, inFlight: set<Outpoint>, t: string)
    requires Flights(claims, inFlight) && t in claims
    ensures Flights(claims - {t}, inFlight - OpSet(claims[t].outpoints))
  {
    var rest, left := claims - {t}, inFlight - OpSet(claims[t].outpoints);
    assert |rest| <= |claims| by { assert claims.Keys == rest.Keys + {t}; }
    forall o
      ensures o in left <==> exists u :: u in rest && o in rest[u].outpoints
    {
      if o in left {
        var u :| u in claims && o in claims[u].outpoints;
        assert u in rest;
      }
      if u :| u in rest && o in rest[u].outpoints { assert u in claims && o in claims[u].outpoints; }
    }
  }

  lemma SubmitKeepsFlights(claims: Claims, inFlight: set<Outpoint>, t: string, c: InFlightClaim)
    requires Flights(claims, inFlight) && t !in claims && |claims| < MAX_IN_FLIGHT_CLAIMS
    requires 1 <= |c.outpoints| <= MAX_CLAIM_BATCH && DistinctOps(c.outpoints) && OpSet(c.outpoints) !! inFlight
    ensures Flights(claims[t := c], inFlight + OpSet(c.outpoints))
  {
    var grown, all := claims[t := c], inFlight + OpSet(c.outpoints);
    assert grown.Keys == claims.Keys + {t};
    forall u, o | u in claims && o in claims[u].outpoints
      ensures o !in c.outpoints
    {
      assert o in inFlight;
    }
    forall o
      ensures o in all <==> exists u :: u in grown && o in grown[u].outpoints
    {
      if o in c.outpoints { assert t in grown && o in grown[t].outpoints; }
      if u :| u in claims && o in claims[u].outpoints { assert u in grown && o in grown[u].outpoints; }
    }
  }

  /** Every key is the transaction id of the claim it stands for. */
  ghost predicate Keyed(claims: Claims, payout: Payout) {
    forall t :: t in claims ==> KeyedBy(t, claims[t].outpoints, payout)
  }

  ghost predicate KeyedBy(t: string, ops: seq<Outpoint>, payout: Payout) {
    WellFormed(ops) && exists amount: nat, sequence: nat :: t == ClaimTxid(payout, ops, amount, sequence)
  }

  lemma KeyDeterminesInputs(t: string, a: seq<Outpoint>, b: seq<Outpoint>, payout: Payout)
    requires Injective(payout.hash) && KeyedBy(t, a, payout) && KeyedBy(t, b, payout)
    ensures a == b
  {
    hide ClaimTxid, Injective, WellFormed;
    var amountA: nat, sa: nat :| t == ClaimTxid(payout, a, amountA, sa);
    var amountB: nat, sb: nat :| t == ClaimTxid(payout, b, amountB, sb);
    SameTxidSameInputs(payout, a, b, amountA, amountB, sa, sb);
  }

  /** A claim that shares no output with the ones in flight gets a transaction id of its own. */
  lemma NewClaimNewTxid(claims: Claims, inFlight: set<Outpoint>, payout: Payout, t: string, ops: seq<Outpoint>)
    requires Flights(claims, inFlight) && Keyed(claims, payout) && Injective(payout.hash)
    requires KeyedBy(t, ops, payout) && ops != [] && OpSet(ops) !! inFlight
    ensures t !in claims
  {
    hide KeyedBy, Injective;
    if t in claims {
      var other := claims[t].outpoints;
      assert other[0] in inFlight by { assert other[0] in claims[t].outpoints; }
      assert ops[0] !in inFlight by { assert ops[0] in OpSet(ops); }
      KeyDeterminesInputs(t, ops, other, payout);
    }
  }

  // ----- caps and retry counters -----

  /** No claim is larger than the cap of any of its outputs that is still tracked. */
  predicate CapsHold(entries: seq<Entry>, claims: Claims) {
    forall t, i :: t in claims && 0 <= i < |entries| && entries[i].outpoint in claims[t].outpoints
      ==> |claims[t].outpoints| <= EffCap(entries[i])
  }

  /**
   History of an entry: `solo` counts the orphan rejections of its single-output claims, `cuts` the
   multi-output rejections since it was tracked or its cap last expired.
   */
  predicate EntryHistory(e: Entry, solo: nat, cuts: nat, flying: bool) {
    && e.orphanRetries == solo <= MAX_ORPHAN_RETRIES
    && (!e.slashed || flying ==> solo < MAX_ORPHAN_RETRIES)
    && EffCap(e) * Pow2(cuts) <= MAX_CLAIM_BATCH
  }

  predicate Histories(entries: seq<Entry>, inFlight: set<Outpoint>, solo: map<Outpoint, nat>, cuts: map<Outpoint, nat>) {
    forall i :: 0 <= i < |entries| ==>
      var o := entries[i].outpoint;
      o in solo && o in cuts && EntryHistory(entries[i], solo[o], cuts[o], o in inFlight)
  }

  /** What a state file must satisfy to be loaded; every state this watcher saves does. */
  predicate Loadable(entries: seq<Entry>) {
    && DistinctOutpoints(entries)
    && (forall i :: 0 <= i < |entries| ==> entries[i].outpoint.index < U32_LIMIT)
    && (forall i :: 0 <= i < |entries| ==> entries[i].orphanRetries <= MAX_ORPHAN_RETRIES)
    && (forall i :: 0 <= i < |entries| && !entries[i].slashed ==> entries[i].orphanRetries < MAX_ORPHAN_RETRIES)
  }

  // ----- rejections -----

  datatype Verdict = Accepted | Orphan | SequenceLock | Unrecognised

  function HalvedCap(n: nat): (cap: u8)
    ensures n >= 2 ==> cap >= 1 && 2 * cap <= n
  {
    Min(if n / 2 >= 1 then n / 2 else 1, 255)
  }

  /** What one rejected claim of `n` outputs does to each of its entries. */
  function Rejected(e: Entry, n: nat, v: Verdict, lastDaa: nat): Entry
    requires v == Orphan && n <= 1 ==> e.orphanRetries < 255
  {
    match v
    case Accepted => e
    case Orphan =>
      if n > 1 then e.(batchCap := HalvedCap(n), capSetDaa := lastDaa)
      else if e.orphanRetries + 1 >= MAX_ORPHAN_RETRIES
      then e.(orphanRetries := e.orphanRetries + 1, orphanSlashed := false, slashed := true)
      else e.(orphanRetries := e.orphanRetries + 1, orphanSlashed := true,
              retryAfter := Some(lastDaa + ORPHAN_RETRY_COOLDOWN_BLOCKS))
    case SequenceLock => e.(retryAfter := Some(lastDaa + SEQ_LOCK_RETRY_COOLDOWN_BLOCKS))
    case Unrecognised =>
      var capped := if n > 1 then e.(batchCap := HalvedCap(n), capSetDaa := lastDaa) else e;
      var retries: u8 := Min(e.submitRetries + 1, 255);
      var cooldown := Min(UNKNOWN_RETRY_BASE_COOLDOWN_DAA * Pow2(Min(retries, 9)), UNKNOWN_RETRY_MAX_COOLDOWN_DAA);
      capped.(submitRetries := retries, retryAfter := Some(lastDaa + cooldown))
  }

  /** A multi-output rejection that bisects: orphan or unrecognised. */
  predicate Cuts(n: nat, v: Verdict) { n > 1 && (v == Orphan || v == Unrecognised) }

  predicate SoloOrphan(n: nat, v: Verdict) { n <= 1 && v == Orphan }

  /** Bisection: such a rejection at least halves the largest batch the entry may join again. */
  lemma RejectionHalves(e: Entry, n: nat, v: Verdict, lastDaa: nat)
    requires Cuts(n, v) && n <= EffCap(e)
    ensures 2 * EffCap(Rejected(e, n, v, lastDaa)) <= EffCap(e)
  {}

  /** ... so after six of them, the cap not having expired in between, the entry is claimed only alone. */
  lemma SixCutsIsolate(e: Entry, cuts: nat)
    requires EffCap(e) * Pow2(cuts) <= MAX_CLAIM_BATCH
    ensures cuts <= 6
    ensures cuts == 6 ==> EffCap(e) == 1
  {
    assert Pow2(6) == 64 && Pow2(7) == 128 by {
      assert Pow2(7) == 2 * (2 * (2 * (2 * (2 * (2 * (2 * Pow2(0)))))));
    }
    if cuts >= 7 {
      Pow2Monotone(7, cuts);
      MulMonotone(1, EffCap(e), Pow2(cuts));
    }
  }

  lemma Pow2Monotone(a: nat, b: nat)
    requires a <= b
    ensures Pow2(a) <= Pow2(b)
  {
    if a < b { Pow2Monotone(a, b - 1); }
  }

  /** How one rejection moves the history of an entry it concerns. */
  lemma RejectionKeepsHistory(e: Entry, n: nat, v: Verdict, lastDaa: nat, solo: nat, cuts: nat)
    requires EntryHistory(e, solo, cuts, true) && 1 <= n <= EffCap(e) && v != Accepted
    ensures EntryHistory(Rejected(e, n, v, lastDaa), if SoloOrphan(n, v) then solo + 1 else solo,
                         if Cuts(n, v) then cuts + 1 else cuts, false)
  {
    RejectionCap(e, n, v, lastDaa, cuts);
    hide EffCap, Pow2;
  }

  lemma RejectionCap(e: Entry, n: nat, v: Verdict, lastDaa: nat, cuts: nat)
    requires (v == Orphan && n <= 1 ==> e.orphanRetries < 255) && 1 <= n <= EffCap(e)
    requires EffCap(e) * Pow2(cuts) <= MAX_CLAIM_BATCH
    ensures EffCap(Rejected(e, n, v, lastDaa)) * Pow2(if Cuts(n, v) then cuts + 1 else cuts) <= MAX_CLAIM_BATCH
  {
    var r := Rejected(e, n, v, lastDaa);
    if Cuts(n, v) {
      RejectionHalves(e, n, v, lastDaa);
      hide EffCap, Rejected;
      HalvedProduct(EffCap(r), EffCap(e), Pow2(cuts));
    } else {
      assert EffCap(r) == EffCap(e);
    }
  }

  lemma HalvedProduct(a: nat, b: nat, p: nat)
    requires 2 * a <= b
    ensures a * (2 * p) <= b * p
  {
    MulMonotone(2 * a, b, p);
  }

  lemma MulMonotone(a: nat, b: nat, c: nat)
    requires a <= b
    ensures a * c <= b * c
  {}

  /** No slash by association: only the tenth orphan rejection of a single-output claim slashes. */
  lemma SlashOnlyAtTenth(e: Entry, n: nat, v: Verdict, lastDaa: nat, solo: nat, cuts: nat)
    requires EntryHistory(e, solo, cuts, true) && v != Accepted && !e.slashed
    ensures Rejected(e, n, v, lastDaa).slashed <==> SoloOrphan(n, v) && solo + 1 == MAX_ORPHAN_RETRIES
    ensures Rejected(e, n, v, lastDaa).claimed == e.claimed
  {}

  // ----- healing -----

  predicate CapExpired(e: Entry, daa: nat) {
    e.batchCap != 0 && daa >= e.capSetDaa + CAP_EXPIRY_DAA
  }

  /** Repair verdicts expire; the cumulative orphan counter does not. */
  function Healed(e: Entry, daa: nat): Entry {
    var uncapped := if CapExpired(e, daa) then e.(batchCap := 0) else e;
    var holdoff := CAP_EXPIRY_DAA * Pow2(Min(e.orphanRetries, 10));
    if e.orphanSlashed && (e.retryAfter.Some? ==> daa >= e.retryAfter.value + holdoff)
    then uncapped.(orphanSlashed := false) else uncapped
  }

  lemma HealingKeepsHistory(e: Entry, daa: nat, solo: nat, cuts: nat, flying: bool)
    requires EntryHistory(e, solo, cuts, flying)
    ensures EntryHistory(Healed(e, daa), solo, if CapExpired(e, daa) then 0 else cuts, flying)
    ensures Healed(e, daa).orphanRetries == e.orphanRetries && Healed(e, daa).slashed == e.slashed
    ensures EffCap(Healed(e, daa)) >= EffCap(e)
  {}

  // ----- compaction -----

  function Retained(entries: seq<Entry>): (kept: seq<Entry>)
    ensures |kept| <= |entries|
  {
    if entries == [] then []
    else Retained(entries[..|entries| - 1]) + (if Live(entries[|entries| - 1]) then [entries[|entries| - 1]] else [])
  }

  /** Compaction keeps exactly the live entries, so nothing that may still be claimed is dropped. */
  lemma {:induction false} RetainedExact(entries: seq<Entry>)
    ensures forall e :: e in Retained(entries) <==> e in entries && Live(e)
    ensures |Retained(entries)| == |entries| ==> Retained(entries) == entries
  {
    hide Live;
    if entries != [] {
      var front, last := entries[..|entries| - 1], entries[|entries| - 1];
      RetainedExact(front);
      assert entries == front + [last];
      forall e ensures e in Retained(entries) <==> e in entries && Live(e) {
        assert e in entries <==> e in front || e == last;
      }
    }
  }

  lemma {:induction false} RetainedDistinct(entries: seq<Entry>)
    requires DistinctOutpoints(entries)
    ensures DistinctOutpoints(Retained(entries))
  {
    hide DistinctOutpoints, Live;
    NoneDistinct();
    if entries != [] {
      var front, last := entries[..|entries| - 1], entries[|entries| - 1];
      FrontDistinct(entries);
      RetainedDistinct(front);
      RetainedExact(front);
      var kept := Retained(front);
      forall e | e in kept ensures e.outpoint != last.outpoint { OtherOutpoint(entries, e); }
      DistinctSnoc(kept, last);
    }
  }

  lemma NoneDistinct()
    ensures DistinctOutpoints([])
  {}

  lemma FrontDistinct(entries: seq<Entry>)
    requires DistinctOutpoints(entries) && entries != []
    ensures DistinctOutpoints(entries[..|entries| - 1])
  {}

  lemma OtherOutpoint(entries: seq<Entry>, e: Entry)
    requires DistinctOutpoints(entries) && entries != [] && e in entries[..|entries| - 1]
    ensures e.outpoint != entries[|entries| - 1].outpoint
  {}

  lemma DistinctSnoc(kept: seq<Entry>, last: Entry)
    requires DistinctOutpoints(kept) && forall e :: e in kept ==> e.outpoint != last.outpoint
    ensures DistinctOutpoints(kept + [last]) && kept + [] == kept
  {
    forall i | 0 <= i < |kept| ensures kept[i].outpoint != last.outpoint { assert kept[i] in kept; }
  }
}
