/** The escrow watcher of src/escrow.rs: tracking, claiming, retrying and retiring escrow outputs. */
module EscrowWatching {
  import opened Wrappers
  import opened ByteOrder
  import opened EscrowModel
  import opened ClaimSelection
  import opened ClaimTransaction
  import opened EscrowInvariants
  import opened EscrowBook
  import opened EscrowPromises

  class EscrowWatcher {
    const gate: nat
    const payout: Payout
    const legacyScript: string
    const bondedScript: string
    var entries: seq<Entry>
    var inFlight: Claims
    var claimsHeld: bool
    var inFlightOutpoints: set<Outpoint>
    var lastDaa: nat
    var outpointSet: set<Outpoint>
    var blockIndex: map<string, seq<nat>>
    var blocksSinceCompact: nat
    var validationPending: set<string>
    /** Orphan rejections of single-output claims, per tracked outpoint. */
    ghost var solo: map<Outpoint, nat>
    /** Multi-output rejections since the outpoint was tracked or its cap last expired. */
    ghost var cuts: map<Outpoint, nat>

    ghost function Data(): Book
      reads this
    {
      Book(entries, inFlight, inFlightOutpoints, outpointSet, blockIndex, solo, cuts)
    }

    /** The book is consistent, and no block without a hash awaits validation. */
    ghost predicate Valid()
      reads this
    {
      Consistent(payout, Data()) && "" !in validationPending
    }

    constructor (gate: nat, payout: Payout, legacyScript: string, bondedScript: string, loaded: seq<Entry>)
      requires Injective(payout.hash) && Loadable(loaded)
      ensures Valid() && entries == loaded && inFlight == map[] && validationPending == {}
      ensures this.payout == payout && this.gate == gate
    {
      this.gate, this.payout, this.legacyScript, this.bondedScript := gate, payout, legacyScript, bondedScript;
      entries, inFlight, claimsHeld, inFlightOutpoints, lastDaa := loaded, map[], false, {}, 0;
      blocksSinceCompact, validationPending := 0, {};
      outpointSet, blockIndex := {}, map[];
      solo := LoadedRetries(loaded);
      cuts := map o | o in LoadedRetries(loaded) :: 0;
      new;
      RebuildIndexes();
      LoadConsistent(payout, Data());
    }

    method RebuildIndexes()
      requires DistinctOutpoints(entries)
      modifies this`outpointSet, this`blockIndex
      ensures Indexed(entries, outpointSet, blockIndex)
    {
      outpointSet, blockIndex := {}, map[];
      for k := 0 to |entries|
        invariant Indexed(entries[..k], outpointSet, blockIndex)
      {
        var e := entries[k];
        assert entries[..k + 1] == entries[..k] + [e];
        assert e.outpoint !in outpointSet by {
          assert forall i :: 0 <= i < k ==> entries[..k][i].outpoint == entries[i].outpoint != e.outpoint;
        }
        AppendKeepsIndexed(entries[..k], e, outpointSet, blockIndex);
        outpointSet := outpointSet + {e.outpoint};
        blockIndex := AddToBlock(blockIndex, e.blockHash, k);
      }
      assert entries[..|entries|] == entries;
    }

    method Compact()
      requires Valid()
      modifies this`entries, this`outpointSet, this`blockIndex
      ensures Valid() && entries == Retained(old(entries))
    {
      ghost var b := Data();
      var kept := Retained(entries);
      RetainedExact(entries);
      RetainedDistinct(entries);
      if |kept| != |entries| {
        entries := kept;
        RebuildIndexes();
        CompactConsistent(payout, b, kept, outpointSet, blockIndex);
      }
    }

    /** Forget a claim whose response arrived or never will; its outputs are free again. */
    method Release(t: string)
      requires Valid() && t in inFlight
      modifies this`inFlight, this`inFlightOutpoints
      ensures Valid() && Data() == Released(old(Data()), t)
    {
      hide Consistent;
      ReleaseConsistent(payout, Data(), t);
      inFlightOutpoints := inFlightOutpoints - OpSet(inFlight[t].outpoints);
      inFlight := inFlight - {t};
    }

    method ExpireInFlight(daa: nat)
      requires Valid()
      modifies this`inFlight, this`inFlightOutpoints
      ensures Valid() && inFlight == Unexpired(old(inFlight), daa)
    {
      hide Consistent;
      var expired := set t | t in inFlight && daa >= inFlight[t].submitDaa + CLAIM_RESPONSE_TIMEOUT_DAA;
      ghost var late := expired;
      assert inFlight == inFlight - (late - expired);
      while expired != {}
        invariant Valid()
        invariant expired <= late && inFlight == old(inFlight) - (late - expired)
        decreases expired
      {
        var t :| t in expired;
        Release(t);
        assert old(inFlight) - (late - expired) - {t} == old(inFlight) - (late - (expired - {t}));
        expired := expired - {t};
      }
    }

    /** Replace the entries by a pass that only retires some of them. */
    method Retire(result: seq<Entry>)
      requires Valid() && OnlyRetires(entries, result)
      modifies this`entries
      ensures Valid() && entries == result
    {
      hide Consistent;
      RetireConsistent(payout, Data(), result);
      entries := result;
    }

    /** Slash a block through the index. */
    method SlashBlock(hash: string, spareInference: bool)
      requires Valid() && hash != ""
      modifies this`entries
      ensures Valid() && SlashedBlock(old(entries), entries, hash, spareInference)
    {
      hide Consistent, OnlyRetires, HasBlock, SlashedBlock;
      BlockLookup(payout, Data(), hash);
      if hash in blockIndex {
        var result := SlashIndexed(entries, hash, blockIndex[hash], spareInference);
        SlashingRetires(entries, result, hash, spareInference);
        Retire(result);
      } else {
        NothingToSlash(entries, hash, spareInference);
      }
    }

    /** Red-set slashing: exactly the live, non-inference entries of a block in `reds`. */
    method SlashReds(reds: seq<string>)
      requires Valid()
      modifies this`entries
      ensures Valid() && SlashedReds(old(entries), entries, reds)
    {
      hide Consistent;
      for k := 0 to |reds|
        invariant Valid() && SlashedReds(old(entries), entries, reds[..k])
      {
        ghost var before := entries;
        // The empty hash is never indexed.
        if reds[k] != "" {
          SlashBlock(reds[k], true);
        }
        assert reds[..k + 1] == reds[..k] + [reds[k]];
        RedsAddUp(old(entries), before, entries, reds[..k], reds[k]);
      }
      assert reds[..|reds|] == reds;
    }

    /** Append one freshly seen output. */
    method Track(e: Entry)
      requires Valid() && e.outpoint !in outpointSet && e.outpoint.index < U32_LIMIT
      requires e.batchCap == 0 && e.orphanRetries == 0
      modifies this`entries, this`outpointSet, this`blockIndex, this`solo, this`cuts
      ensures Valid() && Data() == Tracked(old(Data()), e)
    {
      hide Consistent;
      TrackConsistent(payout, Data(), e);
      blockIndex := AddToBlock(blockIndex, e.blockHash, |entries|);
      entries := entries + [e];
      outpointSet := outpointSet + {e.outpoint};
      solo, cuts := solo[e.outpoint := 0], cuts[e.outpoint := 0];
    }

    /** Scan a coinbase for outputs paying one of our scripts; known outpoints are not tracked twice. */
    method TrackBlockEscrows(txs: seq<Tx>, daa: nat, hash: string)
      requires Valid() && forall k :: 0 <= k < |txs| ==> |txs[k].outputs| <= U32_LIMIT
      modifies this`entries, this`outpointSet, this`blockIndex, this`solo, this`cuts
      ensures Valid()
      ensures entries == old(entries) + NewEscrows(txs, daa, hash, legacyScript, bondedScript, old(outpointSet))
    {
      hide Consistent;
      var coinbase := Coinbase(txs);
      if coinbase.None? || coinbase.value.txid.None? || coinbase.value.txid.value == [] { return; }
      var outputs, txid := coinbase.value.outputs, coinbase.value.txid.value;
      assert |outputs| <= U32_LIMIT by { CoinbaseIsListed(txs); }
      for k := 0 to |outputs|
        invariant Valid()
        invariant entries == old(entries) + TrackedFrom(outputs, k, txid, hash, daa, legacyScript, bondedScript, old(outpointSet))
        invariant forall i :: k <= i ==> (Outpoint(txid, i) in outpointSet <==> Outpoint(txid, i) in old(outpointSet))
      {
        var op, window := Outpoint(txid, k), WindowOfScript(outputs[k], legacyScript, bondedScript);
        if window.Some? && op !in outpointSet {
          Track(FreshEntry(op, hash, daa, outputs[k].amount, false, window.value));
        }
      }
    }

    method TrackInferenceEscrow(txid: Txid, confirmDaa: nat, amount: nat)
      requires Valid()
      modifies this`entries, this`outpointSet, this`blockIndex, this`solo, this`cuts
      ensures Valid()
      ensures var op := Outpoint(txid, 1);
              entries == if amount == 0 || op in old(outpointSet) then old(entries)
                         else old(entries) + [FreshEntry(op, "", confirmDaa, amount, true, CHALLENGE_WINDOW_BLOCKS)]
    {
      hide Consistent;
      var op := Outpoint(txid, 1);
      if amount == 0 || op in outpointSet { return; }
      Track(FreshEntry(op, "", confirmDaa, amount, true, CHALLENGE_WINDOW_BLOCKS));
    }

    // ----- boot-time validation -----

    method StartStateValidation() returns (hashes: set<string>)
      requires Valid()
      modifies this`validationPending
      ensures Valid() && validationPending == hashes
      ensures forall h :: h in hashes <==>
                h != "" && exists i :: 0 <= i < |entries| && Live(entries[i]) && entries[i].blockHash == h
    {
      hide Consistent;
      hashes := {};
      for k := 0 to |entries|
        invariant forall h :: h in hashes <==>
                    h != "" && exists i :: 0 <= i < k && Live(entries[i]) && entries[i].blockHash == h
      {
        if Live(entries[k]) && entries[k].blockHash != "" { hashes := hashes + {entries[k].blockHash}; }
      }
      validationPending := hashes;
    }

    /** A block the node disowns purges exactly its live entries. */
    method OnBlockValidated(hash: string, known: bool)
      requires Valid()
      modifies this`entries, this`validationPending
      ensures Valid() && validationPending == old(validationPending) - {hash}
      ensures if hash in old(validationPending) && !known then SlashedBlock(old(entries), entries, hash, false)
              else entries == old(entries)
    {
      hide Consistent;
      if hash !in validationPending { return; }
      validationPending := validationPending - {hash};
      if !known { SlashBlock(hash, false); }
    }

    /** A block the node cannot return is unknown, not a ghost: its entries stay. */
    method OnBlockValidationError(message: string) returns (consumed: bool)
      requires Valid()
      modifies this`validationPending
      ensures Valid()
      ensures consumed <==> exists h :: h in old(validationPending) && Contains(message, h)
      ensures if consumed then exists h :: h in old(validationPending) && Contains(message, h)
                                           && validationPending == old(validationPending) - {h}
              else validationPending == old(validationPending)
    {
      hide Consistent;
      consumed := exists h :: h in validationPending && Contains(message, h);
      if consumed {
        var h :| h in validationPending && Contains(message, h);
        validationPending := validationPending - {h};
      }
    }

    method ConsumeValidationOk(hash: string, isChainBlock: bool) returns (consumed: bool)
      requires Valid()
      modifies this`entries, this`validationPending
      ensures Valid() && (consumed <==> hash in old(validationPending))
      ensures validationPending == old(validationPending) - {hash}
      ensures if consumed && !isChainBlock then SlashedBlock(old(entries), entries, hash, false) else entries == old(entries)
    {
      hide Consistent;
      consumed := hash in validationPending;
      if consumed { OnBlockValidated(hash, isChainBlock); }
    }

    // ----- claiming -----

    predicate Blocked()
      reads this
    {
      claimsHeld || |inFlight| >= MAX_IN_FLIGHT_CLAIMS || validationPending != {}
    }

    /** Heal expired verdicts, pick the next batch and put its claim in flight. */
    method FindClaim(daa: nat) returns (claim: Option<ClaimTx>)
      requires Valid()
      modifies this`entries, this`inFlight, this`inFlightOutpoints, this`cuts
      ensures Valid()
      ensures old(Blocked()) ==> claim.None? && Data() == old(Data())
      ensures !old(Blocked()) ==> AllHealed(old(entries), entries, daa)
      ensures claim.None? ==> inFlight == old(inFlight) && inFlightOutpoints == old(inFlightOutpoints)
      ensures claim.Some? ==>
                && claim.value.txid !in old(inFlight)
                && OpSet(claim.value.inputs) !! old(inFlightOutpoints)
                && inFlight == old(inFlight)[claim.value.txid :=
                     InFlightClaim(claim.value.inputs, daa, claim.value.amountOut + CLAIM_FEE_SOMPI)]
                && inFlightOutpoints == old(inFlightOutpoints) + OpSet(claim.value.inputs)
                && ShipsChosen(entries, daa, old(inFlightOutpoints), CsvWindowForDaa(gate, daa), payout, claim.value)
                && ShipsDue(entries, daa, old(inFlightOutpoints), gate, claim.value)
      ensures claim.None? && !old(Blocked()) ==>
                NothingReleasable(entries, daa, inFlightOutpoints, CsvWindowForDaa(gate, daa))
                || RefusesChosen(entries, daa, inFlightOutpoints, CsvWindowForDaa(gate, daa), payout)
    {
      hide Consistent, ShipsChosen, ShipsDue, CsvWindowForDaa;
      if claimsHeld || |inFlight| >= MAX_IN_FLIGHT_CLAIMS || validationPending != {} { return None; }
      Heal(daa);
      claim := ClaimBatch(daa);
      if claim.Some? { ShippedIsDue(entries, daa, old(inFlightOutpoints), gate, payout, claim.value); }
    }

    method Heal(daa: nat)
      requires Valid()
      modifies this`entries, this`cuts
      ensures Valid() && AllHealed(old(entries), entries, daa)
    {
      hide Consistent;
      var result := HealAll(entries, daa);
      HealConsistent(payout, Data(), daa, result);
      cuts := CutsHealed(entries, daa, cuts);
      entries := result;
    }

    method ClaimBatch(daa: nat) returns (claim: Option<ClaimTx>)
      requires Valid() && |inFlight| < MAX_IN_FLIGHT_CLAIMS
      modifies this`inFlight, this`inFlightOutpoints
      ensures Valid()
      ensures claim.None? ==> Data() == old(Data())
      ensures claim.Some? ==>
                && claim.value.txid !in old(inFlight)
                && OpSet(claim.value.inputs) !! old(inFlightOutpoints)
                && Data() == Submitted(old(Data()), claim.value, daa)
                && ShipsChosen(entries, daa, old(inFlightOutpoints), CsvWindowForDaa(gate, daa), payout, claim.value)
      ensures claim.None? ==>
                NothingReleasable(entries, daa, inFlightOutpoints, CsvWindowForDaa(gate, daa))
                || RefusesChosen(entries, daa, inFlightOutpoints, CsvWindowForDaa(gate, daa), payout)
    {
      hide Consistent, Chosen, Picks, Buildable, BuildClaimTx, Pays, Unpayable, DistinctOutpoints, IndicesFit, NothingReleasable;
      var batch := SelectClaimBatch(entries, daa, inFlightOutpoints, gate);
      if batch == [] { return None; }
      ghost var current := CsvWindowForDaa(gate, daa);
      ghost var pass :| Chosen(entries, daa, inFlightOutpoints, current, pass, batch);
      TrackedKeys(payout, Data());
      ChosenPicks(entries, daa, inFlightOutpoints, current, pass, batch);
      var picked := Pick(entries, batch);
      ChosenNeverMixes(payout, entries, daa, inFlightOutpoints, current, pass, batch, picked);
      match BuildClaimTx(payout, picked)
      case Failed(_) =>
        claim := None;
      case Built(tx) =>
        SubmitConsistent(payout, Data(), daa, current, pass, batch, picked, tx);
        inFlight := inFlight[tx.txid := InFlightClaim(tx.inputs, daa, tx.amountOut + CLAIM_FEE_SOMPI)];
        inFlightOutpoints := inFlightOutpoints + OpSet(tx.inputs);
        claim := Some(tx);
    }

    // ----- responses -----

    /** The claim a response belongs to: its own id, or one its error text mentions. */
    method MatchClaim(responseTxid: string, error: Option<string>) returns (matched: Option<string>)
      ensures matched.Some? ==> matched.value in inFlight
      ensures responseTxid in inFlight ==> matched == Some(responseTxid)
      ensures responseTxid !in inFlight && matched.Some? ==> error.Some? && Contains(error.value, matched.value)
      ensures matched.None? ==> error.None? || forall t :: t in inFlight ==> !Contains(error.value, t)
    {
      if responseTxid in inFlight { return Some(responseTxid); }
      if error.Some? && exists u :: u in inFlight && Contains(error.value, u) {
        var t :| t in inFlight && Contains(error.value, t);
        return Some(t);
      }
      matched := None;
    }

    method OnAccepted(t: string) returns (outcome: Outcome)
      requires Valid() && t in inFlight
      modifies this`entries, this`inFlight, this`inFlightOutpoints
      ensures Valid()
      ensures var ops := old(inFlight)[t].outpoints;
              && outcome == AcceptedClaim(|ops|, OpenAmounts(old(entries), ops))
              && AllClaimed(old(entries), entries, ops)
              && Data() == Released(old(Data()), t).(entries := entries)
    {
      hide Consistent;
      var ops := inFlight[t].outpoints;
      FlyingRetries(payout, Data(), t);
      Release(t);
      var result, total := MarkClaimed(entries, ops);
      Retire(result);
      outcome := AcceptedClaim(|ops|, total);
    }

    method OnRejected(t: string, v: Verdict)
      requires Valid() && t in inFlight && v != Accepted
      modifies this`entries, this`inFlight, this`inFlightOutpoints, this`solo, this`cuts
      ensures Valid()
      ensures AllRejected(old(entries), entries, old(inFlight)[t].outpoints, v, lastDaa)
      ensures Data() == RejectedBook(old(Data()), t, v, entries)
    {
      hide Consistent;
      var ops := inFlight[t].outpoints;
      FlyingRetries(payout, Data(), t);
      var result := RejectAll(entries, ops, v, lastDaa);
      RejectConsistent(payout, Data(), t, v, lastDaa, result);
      inFlightOutpoints := inFlightOutpoints - OpSet(ops);
      inFlight := inFlight - {t};
      solo, cuts := SoloAfter(solo, ops, v), CutsAfter(cuts, ops, v);
      entries := result;
    }

    /** Match a response to a claim, release the claim and apply the verdict to its entries only. */
    method OnSubmitResponse(responseTxid: string, error: Option<string>) returns (outcome: Outcome)
      requires Valid()
      modifies this`entries, this`inFlight, this`inFlightOutpoints, this`solo, this`cuts
      ensures Valid()
      ensures outcome == NotOurs ==> Data() == old(Data()) && responseTxid !in old(inFlight)
      ensures outcome == NotOurs <==> responseTxid !in old(inFlight)
                                      && (error.None? || forall t :: t in old(inFlight) ==> !Contains(error.value, t))
      ensures outcome != NotOurs ==> exists t ::
                && t in old(inFlight)
                && (t == responseTxid || (error.Some? && Contains(error.value, t)))
                && Answered(old(Data()), Data(), t, Classify(error), lastDaa, outcome)
                && SettledBy(old(entries), entries, old(inFlight)[t].outpoints, error, lastDaa)
    {
      hide Consistent, SettledBy, Classify;
      var matched := MatchClaim(responseTxid, error);
      if matched.None? { return NotOurs; }
      var v := Classify(error);
      if v == Accepted {
        outcome := OnAccepted(matched.value);
      } else {
        OnRejected(matched.value, v);
        outcome := Handled;
      }
      assert Answered(old(Data()), Data(), matched.value, v, lastDaa, outcome);
      AnsweredSettles(payout, old(Data()), Data(), matched.value, error, lastDaa, outcome);
    }

    /** Everything handle_block does before it looks for a claim. */
    method Ingest(block: Block, daa: nat)
      requires Valid() && forall k :: 0 <= k < |block.txs| ==> |block.txs[k].outputs| <= U32_LIMIT
      modifies this`lastDaa, this`blocksSinceCompact, this`entries, this`inFlight, this`inFlightOutpoints,
               this`outpointSet, this`blockIndex, this`solo, this`cuts
      ensures Valid() && lastDaa == daa && inFlight == Unexpired(old(inFlight), daa)
      ensures var due := CompactionDue(old(blocksSinceCompact));
              && blocksSinceCompact == (if due then 0 else old(blocksSinceCompact) + 1)
              && Ingested(old(entries), entries, block, daa, due, legacyScript, bondedScript)
    {
      hide Consistent, Unexpired, SlashedReds, NewEscrows, KeysOf, Retained;
      lastDaa := daa;
      ExpireInFlight(daa);
      blocksSinceCompact := blocksSinceCompact + 1;
      if blocksSinceCompact >= COMPACT_EVERY_BLOCKS {
        blocksSinceCompact := 0;
        Compact();
      }
      if block.verbose.Some? {
        SlashReds(block.verbose.value.reds);
        ghost var slashed := entries;
        KeysAre(payout, Data());
        if block.verbose.value.isChain {
          TrackBlockEscrows(block.txs, daa, block.verbose.value.hash);
        } else {
          assert entries == slashed + [];
        }
      }
    }

    /** handle_block: expire, compact, slash reds, track and claim. */
    method HandleBlock(block: Block) returns (claim: Option<ClaimTx>)
      requires Valid() && forall k :: 0 <= k < |block.txs| ==> |block.txs[k].outputs| <= U32_LIMIT
      modifies this
      ensures Valid()
      ensures block.daa.None? ==> claim.None? && Data() == old(Data())
      ensures block.daa.Some? ==> lastDaa == block.daa.value
      ensures block.daa.Some? ==>
                var daa := block.daa.value;
                var waiting := Unexpired(old(inFlight), daa);
                var blocked := claimsHeld || |waiting| >= MAX_IN_FLIGHT_CLAIMS || validationPending != {};
                && (exists mid ::
                      && Ingested(old(entries), mid, block, daa, CompactionDue(old(blocksSinceCompact)), legacyScript, bondedScript)
                      && if blocked then entries == mid else AllHealed(mid, entries, daa))
                && (claim.None? ==> inFlight == waiting)
                && (claim.None? && !blocked ==>
                      NothingReleasable(entries, daa, FlyingOf(waiting), CsvWindowForDaa(gate, daa))
                      || RefusesChosen(entries, daa, FlyingOf(waiting), CsvWindowForDaa(gate, daa), payout))
                && (claim.Some? ==>
                      && !blocked && claim.value.txid !in waiting
                      && ShipsChosen(entries, daa, FlyingOf(waiting), CsvWindowForDaa(gate, daa), payout, claim.value)
                      && inFlight == waiting[claim.value.txid :=
                           InFlightClaim(claim.value.inputs, daa, claim.value.amountOut + CLAIM_FEE_SOMPI)])
      ensures claim.Some? ==> forall t :: t in inFlight && t != claim.value.txid ==>
                claim.value.txid in inFlight && OpSet(inFlight[claim.value.txid].outpoints) !! OpSet(inFlight[t].outpoints)
      ensures claimsHeld == old(claimsHeld) && validationPending == old(validationPending)
    {
      hide Consistent, Unexpired, Ingested, AllHealed, NothingReleasable, ShipsChosen, RefusesChosen, FlyingOf;
      if block.daa.None? { return None; }
      Ingest(block, block.daa.value);
      ghost var mid := entries;
      assert Ingested(old(entries), mid, block, block.daa.value, CompactionDue(old(blocksSinceCompact)), legacyScript, bondedScript);
      FlyingIs(payout, Data());
      claim := FindClaim(block.daa.value);
      if claim.Some? { ClaimsAreDisjoint(payout, Data(), claim.value.txid); }
    }
  }
}
