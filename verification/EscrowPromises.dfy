/** What the escrow watcher promises, in the terms of its operators: answer texts, scores, amounts and scripts. */
module EscrowPromises {
  import opened Wrappers
  import opened ByteOrder
  import opened EscrowModel
  import opened ClaimSelection
  import opened ClaimTransaction
  import opened EscrowInvariants
  import opened EscrowBook

  // ----- answers to a claim -----

  /** A text contains a part exactly when it is that part with something before and after it. */
  lemma ContainsIff(text: string, part: string)
    ensures Contains(text, part) <==> exists a, b :: text == a + part + b
  {
    if Contains(text, part) {
      var i :| 0 <= i <= |text| && OccursAt(text, part, i);
      assert text == text[..i] + part + text[i + |part|..];
    }
    if a, b :| text == a + part + b {
      assert OccursAt(text, part, |a|);
    }
  }

  /** No error, or one that says that the node already has this very transaction. */
  predicate Accepts(error: Option<string>) {
    error.None? || Contains(error.value, "already in the mempool") || Contains(error.value, "already accepted")
  }

  /** The wait after the `n`-th unrecognised rejection: 200, 400, ... 25600, then 50000. */
  function Backoff(n: nat): nat { if n >= 9 then 50_000 else 100 * Pow2(n) }

  /** What an answer to a claim of `n` outputs does to one of its entries, read off the answer's text. */
  ghost predicate Settles(e: Entry, after: Entry, n: nat, error: Option<string>, lastDaa: nat) {
    if Accepts(error) then after == e.(claimed := true)
    else if Contains(error.value, "orphan") then
      if n > 1 then after == e.(batchCap := after.batchCap, capSetDaa := lastDaa) && after.batchCap as int == n / 2
      else
        && after.orphanRetries as int == e.orphanRetries + 1
        && after == if e.orphanRetries >= 9 then e.(orphanRetries := after.orphanRetries, orphanSlashed := false, slashed := true)
                    else e.(orphanRetries := after.orphanRetries, orphanSlashed := true, retryAfter := Some(lastDaa + 100))
    else if Contains(error.value, "sequence lock") then after == e.(retryAfter := Some(lastDaa + 20))
    else
      && after.submitRetries as int == (if e.submitRetries < 255 then e.submitRetries + 1 else 255)
      && (if n > 1 then after.batchCap as int == n / 2 && after.capSetDaa == lastDaa
          else after.batchCap == e.batchCap && after.capSetDaa == e.capSetDaa)
      && after == e.(batchCap := after.batchCap, capSetDaa := after.capSetDaa, submitRetries := after.submitRetries,
                     retryAfter := Some(lastDaa + Backoff(after.submitRetries)))
  }

  /** The answer settles the entries of its claim and leaves all others alone. */
  ghost predicate SettledBy(a: seq<Entry>, b: seq<Entry>, ops: seq<Outpoint>, error: Option<string>, lastDaa: nat) {
    |b| == |a| && forall i :: 0 <= i < |a| ==>
      if a[i].outpoint in ops then Settles(a[i], b[i], |ops|, error, lastDaa) else b[i] == a[i]
  }

  lemma BackoffIs(n: nat)
    ensures Min(UNKNOWN_RETRY_BASE_COOLDOWN_DAA * Pow2(Min(n, 9)), UNKNOWN_RETRY_MAX_COOLDOWN_DAA) == Backoff(n)
  {
    assert Pow2(9) == 512 by { assert Pow2(9) == 2 * (2 * (2 * (2 * (2 * (2 * (2 * (2 * (2 * Pow2(0))))))))); }
    if n < 9 {
      Pow2Monotone(n, 8);
      assert Pow2(9) == 2 * Pow2(8);
    }
  }

  lemma RejectedSettles(e: Entry, n: nat, error: Option<string>, lastDaa: nat)
    requires 1 <= n <= 87 && !Accepts(error) && e.orphanRetries < 255
    ensures Settles(e, Rejected(e, n, Classify(error), lastDaa), n, error, lastDaa)
  {
    hide Contains, Pow2, Min;
    BackoffIs(Saturating(e.submitRetries));
    SaturatingIs(e.submitRetries);
    if n > 1 { HalvedIs(n); }
  }

  function Saturating(n: u8): nat { if n < 255 then n + 1 else 255 }

  lemma SaturatingIs(n: u8)
    ensures Min(n + 1, 255) == Saturating(n)
  {}

  lemma HalvedIs(n: nat)
    requires 2 <= n <= 87
    ensures HalvedCap(n) as int == n / 2
  {}

  /** Every answer settles exactly the entries of the claim it belongs to, by its text. */
  lemma AnsweredSettles(payout: Payout, a: Book, b: Book, t: string, error: Option<string>, lastDaa: nat, outcome: Outcome)
    requires Consistent(payout, a) && t in a.claims && Answered(a, b, t, Classify(error), lastDaa, outcome)
    ensures SettledBy(a.entries, b.entries, a.claims[t].outpoints, error, lastDaa)
  {
    ClaimSize(payout, a, t);
    ClassifiesAccepts(error);
    hide Consistent, Classify, Accepts, Settles, Rejected;
    var ops := a.claims[t].outpoints;
    forall i | 0 <= i < |a.entries|
      ensures |b.entries| == |a.entries|
      ensures if a.entries[i].outpoint in ops then Settles(a.entries[i], b.entries[i], |ops|, error, lastDaa)
              else b.entries[i] == a.entries[i]
    {
      if a.entries[i].outpoint in ops {
        if Accepts(error) {
          AcceptedSettles(a.entries[i], |ops|, error, lastDaa);
        } else {
          RejectedSettles(a.entries[i], |ops|, error, lastDaa);
        }
      }
    }
  }

  lemma ClaimSize(payout: Payout, b: Book, t: string)
    requires Consistent(payout, b) && t in b.claims
    ensures 1 <= |b.claims[t].outpoints| <= 87
  {}

  lemma ClassifiesAccepts(error: Option<string>)
    ensures Classify(error) == Accepted <==> Accepts(error)
  {
    hide Contains;
  }

  lemma AcceptedSettles(e: Entry, n: nat, error: Option<string>, lastDaa: nat)
    requires Accepts(error)
    ensures Settles(e, e.(claimed := true), n, error, lastDaa)
  {
    hide Accepts;
  }

  /**
   A live output becomes slashed exactly by its tenth orphan answer to a claim of it alone, and claimed exactly by an
   acceptance or a duplicate; a sequence-lock answer only makes it wait twenty scores.
   */
  lemma AnswerVerdicts(e: Entry, after: Entry, n: nat, error: Option<string>, lastDaa: nat)
    requires Settles(e, after, n, error, lastDaa) && Live(e) && n >= 1 && e.orphanRetries <= 9
    ensures after.slashed <==>
              && n == 1 && e.orphanRetries == 9 && error.Some? && Contains(error.value, "orphan")
              && !Contains(error.value, "already in the mempool") && !Contains(error.value, "already accepted")
    ensures after.claimed <==>
              error.None? || Contains(error.value, "already in the mempool") || Contains(error.value, "already accepted")
    ensures error.Some? && Contains(error.value, "sequence lock") && !Contains(error.value, "orphan")
            && !Contains(error.value, "already in the mempool") && !Contains(error.value, "already accepted")
            ==> after == e.(retryAfter := Some(lastDaa + 20))
  {
    hide Contains, Pow2;
  }

  // ----- tracking -----

  /** Scripts are compared without regard to case. */
  lemma LowerCase(text: string, i: nat)
    requires i < |text|
    ensures |ToLower(text)| == |text|
    ensures ToLower(text)[i] == if 'A' <= text[i] <= 'Z' then "abcdefghijklmnopqrstuvwxyz"[text[i] as int - 'A' as int] else text[i]
  {}

  /** Output `k` of a coinbase pays one of the miner's two escrow scripts, and `e` is what is tracked of it. */
  ghost predicate Mints(e: Entry, output: Output, k: nat, txid: Txid, hash: string, daa: nat, legacy: string, bonded: string) {
    && output.script.Some? && output.script.value.version == 0
    && (|| (ToLower(output.script.value.text) == legacy && e.csvWindow == 36_000)
        || (ToLower(output.script.value.text) != legacy && ToLower(output.script.value.text) == bonded && e.csvWindow == 792_000))
    && e.outpoint == Outpoint(txid, k) && e.blockHash == hash && e.confirmDaa == daa && e.amount == output.amount
    && !e.claimed && !e.slashed && !e.orphanSlashed && e.orphanRetries == 0 && e.retryAfter == None && e.submitRetries == 0
    && e.batchCap == 0 && e.capSetDaa == 0 && !e.isInference
  }

  /** The output of the first `n` that `e` was minted by. */
  ghost predicate MintedBelow(e: Entry, outputs: seq<Output>, n: nat, txid: Txid, hash: string, daa: nat, legacy: string,
                              bonded: string, known: set<Outpoint>)
    requires n <= |outputs|
  {
    e.outpoint.index < n && e.outpoint !in known && Mints(e, outputs[e.outpoint.index], e.outpoint.index, txid, hash, daa, legacy, bonded)
  }

  lemma {:induction false} TrackedExactly(outputs: seq<Output>, n: nat, txid: Txid, hash: string, daa: nat, legacy: string,
                                          bonded: string, known: set<Outpoint>, e: Entry)
    requires n <= |outputs|
    ensures var minted := TrackedFrom(outputs, n, txid, hash, daa, legacy, bonded, known);
            e in minted <==> MintedBelow(e, outputs, n, txid, hash, daa, legacy, bonded, known)
    decreases n
  {
    hide ToLower;
    if n > 0 { TrackedExactly(outputs, n - 1, txid, hash, daa, legacy, bonded, known, e); }
  }

  /** Outputs in increasing order, all below `n`. */
  ghost predicate Ascending(minted: seq<Entry>, n: nat) {
    && (forall i :: 0 <= i < |minted| ==> minted[i].outpoint.index < n)
    && (forall i, j :: 0 <= i < j < |minted| ==> minted[i].outpoint.index < minted[j].outpoint.index)
  }

  lemma {:induction false} TrackedOnce(outputs: seq<Output>, n: nat, txid: Txid, hash: string, daa: nat, legacy: string,
                                       bonded: string, known: set<Outpoint>)
    requires n <= |outputs|
    ensures Ascending(TrackedFrom(outputs, n, txid, hash, daa, legacy, bonded, known), n)
    decreases n
  {
    hide ToLower, WindowOfScript;
    if n > 0 {
      TrackedOnce(outputs, n - 1, txid, hash, daa, legacy, bonded, known);
      var front := TrackedFrom(outputs, n - 1, txid, hash, daa, legacy, bonded, known);
      var all := TrackedFrom(outputs, n, txid, hash, daa, legacy, bonded, known);
      assert Ascending(front, n - 1);
      if |all| == |front| {
        assert all == front;
      } else {
        assert all == front + [all[|front|]] && all[|front|].outpoint.index == n - 1;
      }
    }
  }

  /** The coinbase is the first transaction without inputs. */
  ghost predicate IsCoinbase(txs: seq<Tx>, c: nat) {
    c < |txs| && txs[c].inputs == 0 && forall d :: 0 <= d < c ==> txs[d].inputs != 0
  }

  lemma {:induction false} CoinbaseIs(txs: seq<Tx>, c: nat)
    requires IsCoinbase(txs, c)
    ensures Coinbase(txs) == Some(txs[c])
  {
    if c > 0 {
      assert txs[1..][c - 1] == txs[c];
      assert forall d :: 0 <= d < c - 1 ==> txs[1..][d] == txs[d + 1];
      CoinbaseIs(txs[1..], c - 1);
    }
  }

  lemma {:induction false} NoCoinbase(txs: seq<Tx>)
    requires forall c :: 0 <= c < |txs| ==> txs[c].inputs != 0
    ensures Coinbase(txs) == None
  {
    if txs != [] { NoCoinbase(txs[1..]); }
  }

  /** A block's new entries are exactly its coinbase outputs that pay one of our scripts and are not tracked yet, in order, once each. */
  lemma NewEscrowsExactly(txs: seq<Tx>, c: nat, daa: nat, hash: string, legacy: string, bonded: string, known: set<Outpoint>, e: Entry)
    requires IsCoinbase(txs, c)
    ensures var minted := NewEscrows(txs, daa, hash, legacy, bonded, known);
            && (e in minted <==>
                  && txs[c].txid.Some? && txs[c].txid.value != [] && e.outpoint !in known && e.outpoint.index < |txs[c].outputs|
                  && Mints(e, txs[c].outputs[e.outpoint.index], e.outpoint.index, txs[c].txid.value, hash, daa, legacy, bonded))
            && Ascending(minted, |txs[c].outputs|)
  {
    hide TrackedFrom, Mints, Ascending;
    NoneMinted(|txs[c].outputs|);
    CoinbaseIs(txs, c);
    var tx := txs[c];
    if tx.txid.Some? {
      TrackedExactly(tx.outputs, |tx.outputs|, tx.txid.value, hash, daa, legacy, bonded, known, e);
      TrackedOnce(tx.outputs, |tx.outputs|, tx.txid.value, hash, daa, legacy, bonded, known);
    }
  }

  lemma NoneMinted(n: nat)
    ensures Ascending([], n)
  {}

  // ----- shipping -----

  /** The window coinbases mint at this score. */
  function EraWindow(gate: nat, daa: nat): nat { if daa < gate then 36_000 else 792_000 }

  /** Unspent, past its lock by ten scores, past its cooldown, and in no claim. */
  predicate Due(e: Entry, daa: nat, inFlight: set<Outpoint>) {
    && !e.claimed && !e.slashed && e.confirmDaa + e.csvWindow + 10 <= daa && e.outpoint !in inFlight
    && (e.retryAfter == None || e.retryAfter.value <= daa)
  }

  /** Never rejected, as far as is still remembered. */
  predicate Fresh(e: Entry) { e.batchCap == 0 && !e.orphanSlashed }

  function DueFresh(entries: seq<Entry>, daa: nat, inFlight: set<Outpoint>, w: nat): set<nat> {
    set i: nat | i < |entries| && Due(entries[i], daa, inFlight) && Fresh(entries[i]) && entries[i].csvWindow == w
  }

  lemma PoolIs(entries: seq<Entry>, daa: nat, inFlight: set<Outpoint>, pass: nat, current: nat, window: Option<nat>, i: nat)
    requires pass <= 3
    ensures i in Pool(entries, daa, inFlight, pass, current, window) <==>
              && i < |entries| && Due(entries[i], daa, inFlight) && (window.Some? ==> entries[i].csvWindow == window.value)
              && (pass == 0 ==> Fresh(entries[i]))
              && (pass == 1 ==> entries[i].batchCap != 0 && !entries[i].orphanSlashed)
              && (pass == 2 ==> Fresh(entries[i]) && entries[i].csvWindow != current)
              && (pass == 3 ==> entries[i].orphanSlashed)
  {}

  lemma NominalPoolIs(entries: seq<Entry>, daa: nat, inFlight: set<Outpoint>, current: nat, w: nat)
    ensures Pool(entries, daa, inFlight, 0, current, Some(w)) == DueFresh(entries, daa, inFlight, w)
  {
    hide Pool, Due;
    forall i: nat ensures i in Pool(entries, daa, inFlight, 0, current, Some(w)) <==> i in DueFresh(entries, daa, inFlight, w) {
      PoolIs(entries, daa, inFlight, 0, current, Some(w), i);
    }
  }

  /** Nothing ships exactly when every due output is a fresh one of the current era and there are fewer than 87 of them. */
  lemma NothingDueIff(entries: seq<Entry>, daa: nat, inFlight: set<Outpoint>, gate: nat)
    ensures var w := EraWindow(gate, daa);
            NothingReleasable(entries, daa, inFlight, CsvWindowForDaa(gate, daa)) <==>
              && (forall i :: 0 <= i < |entries| && Due(entries[i], daa, inFlight) ==> Fresh(entries[i]) && entries[i].csvWindow == w)
              && |DueFresh(entries, daa, inFlight, w)| < 87
  {
    var w := EraWindow(gate, daa);
    assert CsvWindowForDaa(gate, daa) == w;
    hide Pool, Due, CsvWindowForDaa, DueFresh;
    forall v: nat ensures Pool(entries, daa, inFlight, 0, w, Some(v)) == DueFresh(entries, daa, inFlight, v) {
      NominalPoolIs(entries, daa, inFlight, w, v);
    }
    if NothingReleasable(entries, daa, inFlight, w) {
      assert !Releasable(entries, daa, inFlight, w, 0, Some(w));
      forall i: nat | i < |entries| && Due(entries[i], daa, inFlight) ensures Fresh(entries[i]) && entries[i].csvWindow == w {
        StuckEntry(entries, daa, inFlight, w, i);
      }
    } else if (forall i :: 0 <= i < |entries| && Due(entries[i], daa, inFlight) ==> Fresh(entries[i]) && entries[i].csvWindow == w)
              && |DueFresh(entries, daa, inFlight, w)| < 87 {
      OnlyFresh(entries, daa, inFlight, w);
    }
  }

  lemma StuckEntry(entries: seq<Entry>, daa: nat, inFlight: set<Outpoint>, w: nat, i: nat)
    requires NothingReleasable(entries, daa, inFlight, w) && i < |entries| && Due(entries[i], daa, inFlight)
    ensures Fresh(entries[i]) && entries[i].csvWindow == w
  {
    hide Pool, Due;
    PoolIs(entries, daa, inFlight, 1, w, None, i);
    PoolIs(entries, daa, inFlight, 2, w, None, i);
    PoolIs(entries, daa, inFlight, 3, w, None, i);
    assert !Releasable(entries, daa, inFlight, w, 1, None);
    assert !Releasable(entries, daa, inFlight, w, 2, None);
    assert !Releasable(entries, daa, inFlight, w, 3, None);
  }

  lemma OnlyFresh(entries: seq<Entry>, daa: nat, inFlight: set<Outpoint>, w: nat)
    requires forall i :: 0 <= i < |entries| && Due(entries[i], daa, inFlight) ==> Fresh(entries[i]) && entries[i].csvWindow == w
    requires |DueFresh(entries, daa, inFlight, w)| < 87
    ensures NothingReleasable(entries, daa, inFlight, w)
  {
    hide Pool, Due;
    forall v: nat ensures !Releasable(entries, daa, inFlight, w, 0, Some(v)) {
      NominalPoolIs(entries, daa, inFlight, w, v);
      if v != w { assert DueFresh(entries, daa, inFlight, v) == {}; }
    }
    forall pass: nat | 1 <= pass <= 3 ensures !Releasable(entries, daa, inFlight, w, pass, None) {
      forall i: nat ensures i !in Pool(entries, daa, inFlight, pass, w, None) { PoolIs(entries, daa, inFlight, pass, w, None, i); }
    }
  }

  /** A batch of outputs that may be claimed together. */
  ghost predicate MayShip(picked: seq<Entry>, daa: nat, inFlight: set<Outpoint>, w: nat) {
    && 1 <= |picked| <= 87
    && (forall a :: 0 <= a < |picked| ==> Due(picked[a], daa, inFlight) && (picked[a].batchCap != 0 ==> |picked| <= picked[a].batchCap))
    && (|| (|picked| == 87 && forall a :: 0 <= a < |picked| ==> Fresh(picked[a]))
        || (forall a :: 0 <= a < |picked| ==> picked[a].batchCap != 0 && !picked[a].orphanSlashed)
        || (forall a :: 0 <= a < |picked| ==> Fresh(picked[a]) && picked[a].csvWindow != w)
        || (forall a :: 0 <= a < |picked| ==> picked[a].orphanSlashed))
  }

  /** What the first `n` outputs hold together. */
  function Worth(picked: seq<Entry>, n: nat): nat
    requires n <= |picked|
  {
    if n == 0 then 0 else Worth(picked, n - 1) + picked[n - 1].amount
  }

  lemma {:induction false} WorthShifts(picked: seq<Entry>, n: nat)
    requires 0 < n <= |picked|
    ensures Worth(picked, n) == picked[0].amount + Worth(picked[1..], n - 1)
    decreases n
  {
    if n > 1 { WorthShifts(picked, n - 1); }
  }

  lemma {:induction false} WorthIsTotal(picked: seq<Entry>)
    ensures Worth(picked, |picked|) == TotalAmount(picked)
  {
    if picked != [] {
      WorthShifts(picked, |picked|);
      WorthIsTotal(picked[1..]);
    }
  }

  /** The claim spends these tracked outputs in order, through their one window, and pays all of it but 0.3 coins. */
  ghost predicate Spends(entries: seq<Entry>, picked: seq<Entry>, tx: ClaimTx) {
    && |tx.inputs| == |picked| && tx.amountOut > 0 && tx.amountOut + 30_000_000 == Worth(picked, |picked|)
    && forall a :: 0 <= a < |picked| ==> picked[a] in entries && tx.inputs[a] == picked[a].outpoint && tx.sequence == picked[a].csvWindow
  }

  /** What is shipped is such a batch. */
  ghost predicate ShipsDue(entries: seq<Entry>, daa: nat, inFlight: set<Outpoint>, gate: nat, tx: ClaimTx) {
    exists picked: seq<Entry> :: MayShip(picked, daa, inFlight, EraWindow(gate, daa)) && Spends(entries, picked, tx)
  }

  lemma ShippedIsDue(entries: seq<Entry>, daa: nat, inFlight: set<Outpoint>, gate: nat, payout: Payout, tx: ClaimTx)
    requires ShipsChosen(entries, daa, inFlight, CsvWindowForDaa(gate, daa), payout, tx)
    ensures ShipsDue(entries, daa, inFlight, gate, tx)
  {
    var w := EraWindow(gate, daa);
    assert CsvWindowForDaa(gate, daa) == w;
    hide Chosen, Picks, Buildable, Pays, MayShip, Spends, CsvWindowForDaa, EraWindow;
    var pass, batch, picked :|
      Chosen(entries, daa, inFlight, w, pass, batch) && Picks(entries, batch, picked) && Buildable(picked) && Pays(payout, picked, tx);
    ChosenMayShip(entries, daa, inFlight, w, pass, batch, picked);
    PaysOut(payout, entries, batch, picked, tx);
  }

  lemma PaysOut(payout: Payout, entries: seq<Entry>, batch: seq<nat>, picked: seq<Entry>, tx: ClaimTx)
    requires Picks(entries, batch, picked) && Pays(payout, picked, tx)
    ensures Spends(entries, picked, tx)
  {
    hide TotalAmount, ClaimTxid, Worth;
    WorthIsTotal(picked);
  }

  /** A nominal batch leaves no inference output behind for another kind, and no older output behind for a newer one. */
  lemma InferenceFirst(entries: seq<Entry>, daa: nat, inFlight: set<Outpoint>, w: nat, batch: seq<nat>, j: nat, a: nat)
    requires Chosen(entries, daa, inFlight, w, 0, batch) && a < |batch| && j < |entries| && j !in batch
    requires Due(entries[j], daa, inFlight) && Fresh(entries[j]) && entries[j].csvWindow == entries[batch[a]].csvWindow
    ensures entries[j].isInference ==> entries[batch[a]].isInference && batch[a] < j
    ensures !entries[j].isInference && !entries[batch[a]].isInference ==> batch[a] < j
  {
    var v := entries[batch[0]].csvWindow;
    NominalPoolIs(entries, daa, inFlight, w, v);
    hide Due, Pool, Releasable;
    assert entries[batch[a]].csvWindow == v;
    assert j in DueFresh(entries, daa, inFlight, v);
    assert Before(entries, batch[a], j);
  }

  /**
   A nominal batch of another window ships only when the current one is short of 87; what was rejected, minted for another
   window or orphaned before ships only when no window has 87, and the orphaned only when nothing else is due.
   */
  lemma PassOrder(entries: seq<Entry>, daa: nat, inFlight: set<Outpoint>, w: nat, pass: nat, batch: seq<nat>, v: nat, i: nat)
    requires Chosen(entries, daa, inFlight, w, pass, batch)
    ensures pass == 0 && entries[batch[0]].csvWindow != w && (v == w || (v < entries[batch[0]].csvWindow)) ==>
              |DueFresh(entries, daa, inFlight, v)| < 87
    ensures pass >= 1 ==> |DueFresh(entries, daa, inFlight, v)| < 87
    ensures pass >= 2 && i < |entries| && Due(entries[i], daa, inFlight) ==> entries[i].batchCap == 0 || entries[i].orphanSlashed
    ensures pass == 3 && i < |entries| && Due(entries[i], daa, inFlight) ==> entries[i].orphanSlashed || entries[i].csvWindow == w
  {
    NominalPoolIs(entries, daa, inFlight, w, v);
    PoolIs(entries, daa, inFlight, 1, w, None, i);
    PoolIs(entries, daa, inFlight, 2, w, None, i);
    hide Due, Pool, Sound, FirstInQueue, OldestLeads, DueFresh;
    if pass == 0 && entries[batch[0]].csvWindow != w && (v == w || v < entries[batch[0]].csvWindow) {
      assert WindowBefore(w, v, entries[batch[0]].csvWindow);
      assert !Releasable(entries, daa, inFlight, w, 0, Some(v));
    }
    if pass >= 1 { assert !Releasable(entries, daa, inFlight, w, 0, Some(v)); }
    if pass >= 2 { assert !Releasable(entries, daa, inFlight, w, 1, None); }
    if pass == 3 { assert !Releasable(entries, daa, inFlight, w, 2, None); }
  }

  lemma ChosenMayShip(entries: seq<Entry>, daa: nat, inFlight: set<Outpoint>, w: nat, pass: nat, batch: seq<nat>, picked: seq<Entry>)
    requires Chosen(entries, daa, inFlight, w, pass, batch) && Picks(entries, batch, picked)
    ensures MayShip(picked, daa, inFlight, w)
  {
    hide Due, Pool, FirstInQueue, OldestLeads, Releasable;
    forall a | 0 <= a < |picked|
      ensures Due(picked[a], daa, inFlight) && (picked[a].batchCap != 0 ==> |picked| <= picked[a].batchCap)
      ensures pass == 0 ==> Fresh(picked[a])
      ensures pass == 1 ==> picked[a].batchCap != 0 && !picked[a].orphanSlashed
      ensures pass == 2 ==> Fresh(picked[a]) && picked[a].csvWindow != w
      ensures pass == 3 ==> picked[a].orphanSlashed
    {
      assert batch[a] in Pool(entries, daa, inFlight, pass, w, None);
      PoolIs(entries, daa, inFlight, pass, w, None, batch[a]);
    }
  }

  // ----- healing and expiry -----

  /** A claim waits 600 scores for its answer; every 2000th block compacts. */
  lemma Schedule(claims: Claims, daa: nat, t: string, blocks: nat)
    ensures t in Unexpired(claims, daa) <==> t in claims && daa < claims[t].submitDaa + 600
    ensures CompactionDue(blocks) <==> blocks >= 1_999
    ensures MAX_IN_FLIGHT_CLAIMS == 4
  {}

  /** A cap lasts 36000 scores; an orphan verdict lasts until its cooldown is over by 36000 doubled for every strike. */
  lemma HealsExactly(e: Entry, daa: nat)
    ensures var h := Healed(e, daa);
            && h == e.(batchCap := h.batchCap, orphanSlashed := h.orphanSlashed)
            && h.batchCap == (if e.capSetDaa + 36_000 <= daa then 0 else e.batchCap)
            && (h.orphanSlashed <==> e.orphanSlashed && e.retryAfter.Some? && daa < e.retryAfter.value + 36_000 * Pow2(Min(e.orphanRetries, 10)))
  {
    hide Pow2;
  }
}
