/** The passes the escrow watcher makes over its entries, and what each keeps of the whole book. */
module EscrowBook {
  import opened Wrappers
  import opened ByteOrder
  import opened EscrowModel
  import opened ClaimSelection
  import opened ClaimTransaction
  import opened EscrowInvariants

  datatype Script = Script(version: nat, text: string)
  datatype Output = Output(script: Option<Script>, amount: nat)
  datatype Tx = Tx(inputs: nat, txid: Option<Txid>, outputs: seq<Output>)
  datatype Verbose = Verbose(hash: string, reds: seq<string>, isChain: bool)
  datatype Block = Block(daa: Option<nat>, verbose: Option<Verbose>, txs: seq<Tx>)

  datatype Outcome = NotOurs | Handled | AcceptedClaim(outputs: nat, amount: nat)

  predicate OccursAt(text: string, part: string, i: int) {
    0 <= i <= |text| - |part| && text[i..i + |part|] == part
  }

  predicate Contains(text: string, part: string) {
    exists i :: 0 <= i <= |text| && OccursAt(text, part, i)
  }

  /** How the node's answer to a claim is read. */
  function Classify(error: Option<string>): Verdict {
    if error.None? then Accepted
    else if Contains(error.value, "already in the mempool") || Contains(error.value, "already accepted") then Accepted
    else if Contains(error.value, "orphan") then Orphan
    else if Contains(error.value, "sequence lock") then SequenceLock
    else Unrecognised
  }

  // ----- passes over the entries -----

  method FindEntry(entries: seq<Entry>, op: Outpoint) returns (at: Option<nat>)
    ensures at.Some? ==> at.value < |entries| && entries[at.value].outpoint == op
    ensures at.None? ==> !Tracks(entries, op)
  {
    for i := 0 to |entries|
      invariant forall j :: 0 <= j < i ==> entries[j].outpoint != op
    {
      if entries[i].outpoint == op { return Some(i); }
    }
    at := None;
  }

  /** The rejection branch of on_submit_response: every tracked output of the claim, and no other entry, changes. */
  method RejectAll(entries: seq<Entry>, ops: seq<Outpoint>, v: Verdict, lastDaa: nat) returns (result: seq<Entry>)
    requires DistinctOutpoints(entries) && DistinctOps(ops)
    requires forall i :: 0 <= i < |entries| && entries[i].outpoint in ops ==> entries[i].orphanRetries < 255
    ensures AllRejected(entries, result, ops, v, lastDaa)
  {
    result := entries;
    for k := 0 to |ops|
      invariant |result| == |entries| && SameKeys(entries, result)
      invariant forall i :: 0 <= i < |entries| ==>
                  result[i] == if entries[i].outpoint in ops[..k] then Rejected(entries[i], |ops|, v, lastDaa) else entries[i]
    {
      var at := FindEntry(result, ops[k]);
      assert ops[..k + 1] == ops[..k] + [ops[k]];
      assert ops[k] !in ops[..k];
      if at.Some? {
        assert entries[at.value].outpoint == ops[k];
        result := result[at.value := Rejected(result[at.value], |ops|, v, lastDaa)];
      } else {
        assert forall i :: 0 <= i < |entries| ==> result[i].outpoint != ops[k];
      }
    }
    assert ops[..|ops|] == ops;
  }

  /** The amount of one outpoint, if it is tracked and not claimed yet. */
  function OpenAmount(entries: seq<Entry>, op: Outpoint): nat {
    if entries == [] then 0
    else if entries[0].outpoint == op then (if entries[0].claimed then 0 else entries[0].amount)
    else OpenAmount(entries[1..], op)
  }

  function OpenAmounts(entries: seq<Entry>, ops: seq<Outpoint>): nat {
    if ops == [] then 0 else OpenAmounts(entries, ops[..|ops| - 1]) + OpenAmount(entries, ops[|ops| - 1])
  }

  lemma OpenAmountAt(entries: seq<Entry>, op: Outpoint, at: nat)
    requires DistinctOutpoints(entries) && at < |entries| && entries[at].outpoint == op
    ensures OpenAmount(entries, op) == if entries[at].claimed then 0 else entries[at].amount
  {
    if at > 0 { OpenAmountAt(entries[1..], op, at - 1); }
  }

  lemma OpenAmountNone(entries: seq<Entry>, op: Outpoint)
    requires forall i :: 0 <= i < |entries| ==> entries[i].outpoint != op
    ensures OpenAmount(entries, op) == 0
  {}

  /** The entries with an outpoint in `ops` are claimed, and nothing else has changed. */
  ghost predicate AllClaimed(entries: seq<Entry>, result: seq<Entry>, ops: seq<Outpoint>) {
    |result| == |entries| && forall i :: 0 <= i < |entries| ==>
      result[i] == if entries[i].outpoint in ops then entries[i].(claimed := true) else entries[i]
  }

  lemma ClaimFound(entries: seq<Entry>, result: seq<Entry>, done: seq<Outpoint>, at: nat)
    requires DistinctOutpoints(entries) && AllClaimed(entries, result, done) && at < |result| && result[at].outpoint !in done
    ensures AllClaimed(entries, result[at := result[at].(claimed := true)], done + [result[at].outpoint])
    ensures OpenAmount(entries, result[at].outpoint) == if result[at].claimed then 0 else result[at].amount
  {
    hide OpenAmount;
    OpenAmountAt(entries, result[at].outpoint, at);
  }

  lemma ClaimMissed(entries: seq<Entry>, result: seq<Entry>, done: seq<Outpoint>, op: Outpoint)
    requires AllClaimed(entries, result, done) && !Tracks(result, op)
    ensures AllClaimed(entries, result, done + [op]) && OpenAmount(entries, op) == 0
  {
    hide OpenAmount;
    assert forall i :: 0 <= i < |entries| ==> result[i].outpoint == entries[i].outpoint != op;
    OpenAmountNone(entries, op);
  }

  lemma OpenAmountsNext(entries: seq<Entry>, ops: seq<Outpoint>, k: nat)
    requires k < |ops|
    ensures OpenAmounts(entries, ops[..k + 1]) == OpenAmounts(entries, ops[..k]) + OpenAmount(entries, ops[k])
  {
    hide OpenAmount;
    assert ops[..k + 1][..k] == ops[..k];
  }

  /** mark_entries_claimed: the claim's outputs become claimed and their open amounts are reported, once each. */
  method MarkClaimed(entries: seq<Entry>, ops: seq<Outpoint>) returns (result: seq<Entry>, total: nat)
    requires DistinctOutpoints(entries) && DistinctOps(ops)
    ensures AllClaimed(entries, result, ops)
    ensures total == OpenAmounts(entries, ops)
  {
    NothingClaimed(entries);
    hide DistinctOutpoints, OpenAmounts, OpenAmount, AllClaimed, Tracks;
    result, total := entries, 0;
    assert ops[..0] == [];
    for k := 0 to |ops|
      invariant AllClaimed(entries, result, ops[..k]) && total == OpenAmounts(entries, ops[..k])
    {
      var at := FindEntry(result, ops[k]);
      assert ops[..k + 1] == ops[..k] + [ops[k]];
      assert ops[k] !in ops[..k];
      OpenAmountsNext(entries, ops, k);
      if at.Some? {
        ClaimFound(entries, result, ops[..k], at.value);
        if !result[at.value].claimed { total := total + result[at.value].amount; }
        result := result[at.value := result[at.value].(claimed := true)];
      } else {
        ClaimMissed(entries, result, ops[..k], ops[k]);
      }
    }
    assert ops[..|ops|] == ops;
  }

  lemma NothingClaimed(entries: seq<Entry>)
    ensures AllClaimed(entries, entries, []) && OpenAmounts(entries, []) == 0
  {}

  /** The healing loop of find_claim. */
  method HealAll(entries: seq<Entry>, daa: nat) returns (result: seq<Entry>)
    ensures |result| == |entries| && forall i :: 0 <= i < |entries| ==> result[i] == Healed(entries[i], daa)
  {
    result := [];
    for k := 0 to |entries|
      invariant |result| == k && forall i :: 0 <= i < k ==> result[i] == Healed(entries[i], daa)
    {
      result := result + [Healed(entries[k], daa)];
    }
  }

  predicate Slashable(e: Entry, hash: string, spareInference: bool) {
    Live(e) && e.blockHash == hash && !(spareInference && e.isInference)
  }

  /** Slashing through the block index changes exactly the entries a scan for that block would. */
  method SlashIndexed(entries: seq<Entry>, hash: string, indices: seq<nat>, spareInference: bool)
    returns (result: seq<Entry>)
    requires indices == IndicesOf(entries, hash)
    ensures SlashedBlock(entries, result, hash, spareInference)
  {
    IndicesOfExact(entries, hash);
    result := entries;
    for k := 0 to |indices|
      invariant |result| == |entries|
      invariant forall i :: 0 <= i < |entries| ==>
                  result[i] == if i in indices[..k] && Slashable(entries[i], hash, spareInference)
                               then entries[i].(slashed := true) else entries[i]
    {
      var i := indices[k];
      assert indices[..k + 1] == indices[..k] + [i];
      assert i !in indices[..k];
      if Live(result[i]) && !(spareInference && result[i].isInference) {
        result := result[i := result[i].(slashed := true)];
      }
    }
    assert indices[..|indices|] == indices;
  }

  // ----- histories under the passes -----

  function SoloAfter(solo: map<Outpoint, nat>, ops: seq<Outpoint>, v: Verdict): map<Outpoint, nat> {
    map o | o in solo :: if o in ops && SoloOrphan(|ops|, v) then solo[o] + 1 else solo[o]
  }

  function CutsAfter(cuts: map<Outpoint, nat>, ops: seq<Outpoint>, v: Verdict): map<Outpoint, nat> {
    map o | o in cuts :: if o in ops && Cuts(|ops|, v) then cuts[o] + 1 else cuts[o]
  }

  predicate WithinCaps(entries: seq<Entry>, ops: seq<Outpoint>) {
    forall i :: 0 <= i < |entries| && entries[i].outpoint in ops ==> |ops| <= EffCap(entries[i])
  }

  lemma RejectKeepsHistories(entries: seq<Entry>, result: seq<Entry>, ops: seq<Outpoint>, v: Verdict, lastDaa: nat,
                             before: set<Outpoint>, solo: map<Outpoint, nat>, cuts: map<Outpoint, nat>)
    requires Histories(entries, before, solo, cuts) && v != Accepted && |ops| >= 1
    requires OpSet(ops) <= before && WithinCaps(entries, ops)
    requires AllRejected(entries, result, ops, v, lastDaa)
    ensures SameKeys(entries, result)
    ensures Histories(result, before - OpSet(ops), SoloAfter(solo, ops, v), CutsAfter(cuts, ops, v))
  {
    forall i | 0 <= i < |entries|
      ensures var o := result[i].outpoint;
              o in solo && o in cuts
              && EntryHistory(result[i], SoloAfter(solo, ops, v)[o], CutsAfter(cuts, ops, v)[o], o in before - OpSet(ops))
    {
      var e := entries[i];
      if e.outpoint in ops {
        RejectionKeepsHistory(e, |ops|, v, lastDaa, solo[e.outpoint], cuts[e.outpoint]);
      }
    }
  }

  /** A cap that expires starts a new bisection. */
  ghost function CutsHealed(entries: seq<Entry>, daa: nat, cuts: map<Outpoint, nat>): map<Outpoint, nat> {
    map o | o in cuts ::
      if exists i :: 0 <= i < |entries| && entries[i].outpoint == o && CapExpired(entries[i], daa) then 0 else cuts[o]
  }

  lemma HealKeepsHistories(entries: seq<Entry>, result: seq<Entry>, daa: nat, flying: set<Outpoint>,
                           solo: map<Outpoint, nat>, cuts: map<Outpoint, nat>)
    requires Histories(entries, flying, solo, cuts) && DistinctOutpoints(entries)
    requires |result| == |entries| && forall i :: 0 <= i < |entries| ==> result[i] == Healed(entries[i], daa)
    ensures Histories(result, flying, solo, CutsHealed(entries, daa, cuts))
  {
    forall i | 0 <= i < |entries|
      ensures var o := result[i].outpoint;
              o in cuts && EntryHistory(result[i], solo[o], CutsHealed(entries, daa, cuts)[o], o in flying)
    {
      var e := entries[i];
      HealingKeepsHistory(e, daa, solo[e.outpoint], cuts[e.outpoint], e.outpoint in flying);
      if !CapExpired(e, daa) {
        assert forall j :: 0 <= j < |entries| && entries[j].outpoint == e.outpoint ==> j == i;
      }
    }
  }

  /** A batch that selection chose is never refused for being empty or for mixing windows. */
  lemma ChosenNeverMixes(payout: Payout, entries: seq<Entry>, daa: nat, inFlight: set<Outpoint>, current: nat, pass: nat,
                         batch: seq<nat>, picked: seq<Entry>)
    requires Chosen(entries, daa, inFlight, current, pass, batch)
    requires Picks(entries, batch, picked) && IndicesFit(entries)
    ensures Buildable(picked)
    ensures var r := BuildClaimTx(payout, picked);
            if r.Built? then Pays(payout, picked, r.tx) else Unpayable(picked) && (r.error == TooSmall || r.error == BadTxid)
  {
    ChosenOneWindow(entries, daa, inFlight, current, pass, batch, picked);
    hide Chosen, Pays, Unpayable;
    BuildPays(payout, picked);
  }

  lemma ChosenOneWindow(entries: seq<Entry>, daa: nat, inFlight: set<Outpoint>, current: nat, pass: nat, batch: seq<nat>,
                        picked: seq<Entry>)
    requires Chosen(entries, daa, inFlight, current, pass, batch) && Picks(entries, batch, picked) && IndicesFit(entries)
    ensures OneWindow(picked) && Buildable(picked) && picked != []
  {}

  lemma FewerFlyingKeeps(entries: seq<Entry>, before: set<Outpoint>, after: set<Outpoint>,
                         solo: map<Outpoint, nat>, cuts: map<Outpoint, nat>)
    requires Histories(entries, before, solo, cuts) && after <= before
    ensures Histories(entries, after, solo, cuts)
  {}

  /** Changes that touch neither keys, caps nor orphan counters, and never take a slash back. */
  predicate OnlyRetires(a: seq<Entry>, b: seq<Entry>) {
    SameKeys(a, b) && forall i :: 0 <= i < |a| ==>
      b[i].batchCap == a[i].batchCap && b[i].orphanRetries == a[i].orphanRetries && (a[i].slashed ==> b[i].slashed)
  }

  lemma RetiringKeeps(a: seq<Entry>, b: seq<Entry>, claims: Claims, flying: set<Outpoint>,
                      solo: map<Outpoint, nat>, cuts: map<Outpoint, nat>)
    requires OnlyRetires(a, b) && CapsHold(a, claims) && Histories(a, flying, solo, cuts)
    ensures CapsHold(b, claims) && Histories(b, flying, solo, cuts)
  {
    forall i | 0 <= i < |a|
      ensures EffCap(a[i]) == EffCap(b[i])
    {}
  }

  /** Which CSV window an output pays into, if its script is one of ours. */
  function WindowOfScript(output: Output, legacy: string, bonded: string): Option<nat> {
    if output.script.None? || output.script.value.version != 0 then None
    else if ToLower(output.script.value.text) == legacy then Some(CHALLENGE_WINDOW_BLOCKS)
    else if ToLower(output.script.value.text) == bonded then Some(SERVICE_BOND_CSV_WINDOW_BLOCKS)
    else None
  }

  function ToLower(text: string): string {
    seq(|text|, i requires 0 <= i < |text| => if 'A' <= text[i] <= 'Z' then (text[i] as int + 32) as char else text[i])
  }

  /** The entries that tracking the first `n` outputs of a coinbase appends. */
  function TrackedFrom(outputs: seq<Output>, n: nat, txid: Txid, hash: string, daa: nat, legacy: string, bonded: string,
                       known: set<Outpoint>): seq<Entry>
    requires n <= |outputs|
  {
    if n == 0 then []
    else
      var op, window := Outpoint(txid, n - 1), WindowOfScript(outputs[n - 1], legacy, bonded);
      TrackedFrom(outputs, n - 1, txid, hash, daa, legacy, bonded, known)
      + (if window.Some? && op !in known then [FreshEntry(op, hash, daa, outputs[n - 1].amount, false, window.value)] else [])
  }

  lemma TrackKeeps(entries: seq<Entry>, e: Entry, claims: Claims, flying: set<Outpoint>,
                   solo: map<Outpoint, nat>, cuts: map<Outpoint, nat>)
    requires CapsHold(entries, claims) && Histories(entries, flying, solo, cuts) && Flights(claims, flying)
    requires !Tracks(entries, e.outpoint) && e.batchCap == 0 && e.orphanRetries == 0
    ensures CapsHold(entries + [e], claims)
    ensures Histories(entries + [e], flying, solo[e.outpoint := 0], cuts[e.outpoint := 0])
  {
    assert forall i :: 0 <= i < |entries| ==> entries[i].outpoint != e.outpoint;
  }

  lemma SubsetKeeps(a: seq<Entry>, b: seq<Entry>, claims: Claims, flying: set<Outpoint>,
                    solo: map<Outpoint, nat>, cuts: map<Outpoint, nat>)
    requires CapsHold(a, claims) && Histories(a, flying, solo, cuts)
    requires forall e :: e in b ==> e in a
    ensures CapsHold(b, claims) && Histories(b, flying, solo, cuts)
  {
    forall i | 0 <= i < |b|
      ensures exists j :: 0 <= j < |a| && a[j] == b[i]
    {
      assert b[i] in a;
    }
  }

  /** The retry counters a state file starts from. */
  function LoadedRetries(loaded: seq<Entry>): map<Outpoint, nat> {
    if loaded == [] then map[]
    else
      var last := loaded[|loaded| - 1];
      LoadedRetries(loaded[..|loaded| - 1])[last.outpoint := last.orphanRetries]
  }

  lemma LoadedRetriesAt(loaded: seq<Entry>, i: nat)
    requires DistinctOutpoints(loaded) && i < |loaded|
    ensures loaded[i].outpoint in LoadedRetries(loaded)
    ensures LoadedRetries(loaded)[loaded[i].outpoint] == loaded[i].orphanRetries
  {
    if i < |loaded| - 1 { LoadedRetriesAt(loaded[..|loaded| - 1], i); }
  }

  lemma LoadedHistories(loaded: seq<Entry>, solo: map<Outpoint, nat>, cuts: map<Outpoint, nat>)
    requires Loadable(loaded) && solo == LoadedRetries(loaded) && cuts == map o | o in solo :: 0
    ensures Histories(loaded, {}, solo, cuts)
  {
    forall i | 0 <= i < |loaded|
      ensures var o := loaded[i].outpoint; o in solo && o in cuts && EntryHistory(loaded[i], solo[o], cuts[o], false)
    {
      LoadedRetriesAt(loaded, i);
    }
  }

  // ----- values the watcher works with -----

  /** The first transaction without inputs. */
  function Coinbase(txs: seq<Tx>): Option<Tx> {
    if txs == [] then None else if txs[0].inputs == 0 then Some(txs[0]) else Coinbase(txs[1..])
  }

  lemma CoinbaseIsListed(txs: seq<Tx>)
    ensures Coinbase(txs).Some? ==> Coinbase(txs).value in txs
  {}

  predicate Picks(entries: seq<Entry>, batch: seq<nat>, picked: seq<Entry>) {
    |picked| == |batch| && forall a :: 0 <= a < |batch| ==> batch[a] < |entries| && picked[a] == entries[batch[a]]
  }

  predicate Buildable(picked: seq<Entry>) {
    |picked| < U64_LIMIT && forall i :: 0 <= i < |picked| ==> picked[i].outpoint.index < U32_LIMIT
  }

  /** The claim spends, in order, the batch that selection chose, and pays all of it but the fee. */
  ghost predicate ShipsChosen(entries: seq<Entry>, daa: nat, inFlight: set<Outpoint>, current: nat, payout: Payout, tx: ClaimTx) {
    exists pass, batch, picked ::
      && Chosen(entries, daa, inFlight, current, pass, batch) && Picks(entries, batch, picked) && Buildable(picked)
      && Pays(payout, picked, tx)
  }

  /** A batch was chosen that is not worth the fee or has a malformed txid. */
  ghost predicate RefusesChosen(entries: seq<Entry>, daa: nat, inFlight: set<Outpoint>, current: nat, payout: Payout) {
    exists pass, batch, picked ::
      && Chosen(entries, daa, inFlight, current, pass, batch) && Picks(entries, batch, picked) && Buildable(picked)
      && Unpayable(picked)
  }

  /** The outputs of the claims in flight. */
  ghost function FlyingOf(claims: Claims): set<Outpoint> {
    set t, o | t in claims && o in claims[t].outpoints :: o
  }

  lemma FlyingIs(payout: Payout, b: Book)
    requires Consistent(payout, b)
    ensures b.flying == FlyingOf(b.claims)
  {}

  lemma PickedAreFree(entries: seq<Entry>, daa: nat, inFlight: set<Outpoint>, current: nat, pass: nat, batch: seq<nat>,
                      picked: seq<Entry>)
    requires Chosen(entries, daa, inFlight, current, pass, batch) && Picks(entries, batch, picked) && DistinctOutpoints(entries)
    ensures 1 <= |picked| <= MAX_CLAIM_BATCH
    ensures DistinctOps(OutpointsOf(picked))
    ensures forall a :: 0 <= a < |picked| ==> picked[a].outpoint !in inFlight && !picked[a].slashed
  {
    var pool := Pool(entries, daa, inFlight, pass, current, None);
    forall a | 0 <= a < |picked|
      ensures picked[a].outpoint !in inFlight && !picked[a].slashed
    {
      assert batch[a] in pool;
    }
  }

  lemma PickedOps(entries: seq<Entry>, daa: nat, inFlight: set<Outpoint>, current: nat, pass: nat, batch: seq<nat>,
                  picked: seq<Entry>)
    requires Chosen(entries, daa, inFlight, current, pass, batch) && Picks(entries, batch, picked) && DistinctOutpoints(entries)
    ensures 1 <= |OutpointsOf(picked)| <= MAX_CLAIM_BATCH && DistinctOps(OutpointsOf(picked))
    ensures OpSet(OutpointsOf(picked)) !! inFlight
  {
    PickedAreFree(entries, daa, inFlight, current, pass, batch, picked);
  }

  lemma SubmitKeepsCaps(entries: seq<Entry>, daa: nat, inFlight: set<Outpoint>, current: nat, pass: nat, batch: seq<nat>,
                        picked: seq<Entry>, claims: Claims, t: string, c: InFlightClaim)
    requires CapsHold(entries, claims) && DistinctOutpoints(entries) && Picks(entries, batch, picked)
    requires Chosen(entries, daa, inFlight, current, pass, batch)
    requires c.outpoints == OutpointsOf(picked)
    ensures CapsHold(entries, claims[t := c])
  {
    forall i | 0 <= i < |entries| && entries[i].outpoint in c.outpoints
      ensures |c.outpoints| <= EffCap(entries[i])
    {
      var a :| 0 <= a < |picked| && picked[a].outpoint == entries[i].outpoint;
      assert batch[a] == i;
    }
  }

  lemma SubmitKeepsHistories(entries: seq<Entry>, daa: nat, inFlight: set<Outpoint>, current: nat, pass: nat, batch: seq<nat>,
                             picked: seq<Entry>, solo: map<Outpoint, nat>, cuts: map<Outpoint, nat>)
    requires Histories(entries, inFlight, solo, cuts) && DistinctOutpoints(entries)
    requires Chosen(entries, daa, inFlight, current, pass, batch) && Picks(entries, batch, picked)
    ensures Histories(entries, inFlight + OpSet(OutpointsOf(picked)), solo, cuts)
  {
    PickedAreFree(entries, daa, inFlight, current, pass, batch, picked);
    forall i | 0 <= i < |entries| && entries[i].outpoint in OutpointsOf(picked)
      ensures !entries[i].slashed
    {
      var a :| 0 <= a < |picked| && picked[a].outpoint == entries[i].outpoint;
      assert batch[a] == i;
    }
  }

  lemma RejectKeepsCaps(entries: seq<Entry>, result: seq<Entry>, claims: Claims, inFlight: set<Outpoint>, t: string,
                        v: Verdict, lastDaa: nat)
    requires CapsHold(entries, claims) && Flights(claims, inFlight) && t in claims
    requires AllRejected(entries, result, claims[t].outpoints, v, lastDaa)
    ensures CapsHold(result, claims - {t})
  {}

  lemma LoadConsistent(payout: Payout, b: Book)
    requires Injective(payout.hash) && Loadable(b.entries) && b.claims == map[] && b.flying == {}
    requires Indexed(b.entries, b.outpoints, b.blocks)
    requires b.solo == LoadedRetries(b.entries) && b.cuts == map o | o in b.solo :: 0
    ensures Consistent(payout, b)
  {
    LoadedHistories(b.entries, b.solo, b.cuts);
  }

  predicate SlashedBlock(a: seq<Entry>, b: seq<Entry>, hash: string, spareInference: bool) {
    |b| == |a| && forall i :: 0 <= i < |a| ==>
      b[i] == if Slashable(a[i], hash, spareInference) then a[i].(slashed := true) else a[i]
  }

  predicate SlashedReds(a: seq<Entry>, b: seq<Entry>, reds: seq<string>) {
    |b| == |a| && forall i :: 0 <= i < |a| ==>
      b[i] == if Live(a[i]) && !a[i].isInference && a[i].blockHash != "" && a[i].blockHash in reds
              then a[i].(slashed := true) else a[i]
  }

  lemma SlashingRetires(a: seq<Entry>, b: seq<Entry>, hash: string, spareInference: bool)
    requires SlashedBlock(a, b, hash, spareInference)
    ensures OnlyRetires(a, b)
  {}

  lemma NothingToSlash(a: seq<Entry>, hash: string, spareInference: bool)
    requires !HasBlock(a, hash)
    ensures SlashedBlock(a, a, hash, spareInference)
  {}

  lemma RedsAddUp(a: seq<Entry>, b: seq<Entry>, c: seq<Entry>, reds: seq<string>, red: string)
    requires SlashedReds(a, b, reds) && (if red == "" then c == b else SlashedBlock(b, c, red, true))
    ensures SlashedReds(a, c, reds + [red])
  {}

  function NewEscrows(txs: seq<Tx>, daa: nat, hash: string, legacy: string, bonded: string, known: set<Outpoint>): seq<Entry> {
    match Coinbase(txs)
    case None => []
    case Some(tx) =>
      if tx.txid.None? || tx.txid.value == [] then []
      else TrackedFrom(tx.outputs, |tx.outputs|, tx.txid.value, hash, daa, legacy, bonded, known)
  }

  function KeysOf(entries: seq<Entry>): set<Outpoint> { set i | 0 <= i < |entries| :: entries[i].outpoint }

  /** The claims whose response may still arrive. */
  function Unexpired(claims: Claims, daa: nat): Claims {
    map t | t in claims && daa < claims[t].submitDaa + CLAIM_RESPONSE_TIMEOUT_DAA :: claims[t]
  }

  predicate CompactionDue(blocksSinceCompact: nat) { blocksSinceCompact + 1 >= COMPACT_EVERY_BLOCKS }

  /** What a block does to the entries before claiming: compaction when it is due, red slashing, then tracking. */
  ghost predicate Ingested(a: seq<Entry>, b: seq<Entry>, block: Block, daa: nat, compacts: bool, legacy: string, bonded: string) {
    var kept := if compacts then Retained(a) else a;
    if block.verbose.None? then b == kept
    else exists slashed ::
      && SlashedReds(kept, slashed, block.verbose.value.reds)
      && b == slashed + if block.verbose.value.isChain
                        then NewEscrows(block.txs, daa, block.verbose.value.hash, legacy, bonded, KeysOf(slashed)) else []
  }

  predicate AllHealed(a: seq<Entry>, b: seq<Entry>, daa: nat) {
    |b| == |a| && forall i :: 0 <= i < |a| ==> b[i] == Healed(a[i], daa)
  }

  predicate AllRejected(a: seq<Entry>, b: seq<Entry>, ops: seq<Outpoint>, v: Verdict, lastDaa: nat) {
    && |b| == |a|
    && (forall i :: 0 <= i < |a| && a[i].outpoint in ops ==> a[i].orphanRetries < 255)
    && (forall i :: 0 <= i < |a| ==> b[i] == if a[i].outpoint in ops then Rejected(a[i], |ops|, v, lastDaa) else a[i])
  }

  /** What the answer to claim `t` changes: its claim is gone, and only its entries follow the verdict. */
  ghost predicate Answered(a: Book, b: Book, t: string, v: Verdict, lastDaa: nat, outcome: Outcome)
    requires t in a.claims
  {
    var ops := a.claims[t].outpoints;
    if v == Accepted then
      outcome == AcceptedClaim(|ops|, OpenAmounts(a.entries, ops)) && AllClaimed(a.entries, b.entries, ops)
      && b == Released(a, t).(entries := b.entries)
    else
      outcome == Handled && AllRejected(a.entries, b.entries, ops, v, lastDaa) && b == RejectedBook(a, t, v, b.entries)
  }

  lemma ChosenPicks(entries: seq<Entry>, daa: nat, inFlight: set<Outpoint>, current: nat, pass: nat, batch: seq<nat>)
    requires Chosen(entries, daa, inFlight, current, pass, batch)
    ensures |batch| <= MAX_CLAIM_BATCH && forall a :: 0 <= a < |batch| ==> batch[a] < |entries|
  {}

  function Pick(entries: seq<Entry>, batch: seq<nat>): (picked: seq<Entry>)
    requires forall a :: 0 <= a < |batch| ==> batch[a] < |entries|
    ensures Picks(entries, batch, picked)
  {
    seq(|batch|, a requires 0 <= a < |batch| => entries[batch[a]])
  }

  // ----- the whole book -----

  /** The watcher's data together with its history. */
  datatype Book = Book(
    entries: seq<Entry>,
    claims: Claims,
    flying: set<Outpoint>,
    outpoints: set<Outpoint>,
    blocks: map<string, seq<nat>>,
    solo: map<Outpoint, nat>,
    cuts: map<Outpoint, nat>)

  predicate IndicesFit(entries: seq<Entry>) {
    forall i :: 0 <= i < |entries| ==> entries[i].outpoint.index < U32_LIMIT
  }

  lemma SameKeysFit(a: seq<Entry>, b: seq<Entry>)
    requires IndicesFit(a) && SameKeys(a, b)
    ensures IndicesFit(b)
  {}

  ghost predicate Consistent(payout: Payout, b: Book) {
    && Injective(payout.hash)
    && IndicesFit(b.entries)
    && Indexed(b.entries, b.outpoints, b.blocks)
    && Flights(b.claims, b.flying)
    && Keyed(b.claims, payout)
    && CapsHold(b.entries, b.claims)
    && Histories(b.entries, b.flying, b.solo, b.cuts)
  }

  /**
   What every state says of every tracked output: its retry counter is the number of its single-output orphan
   rejections, only the tenth may slash it, and six bisections leave it to be claimed alone.
   */
  lemma EntryPromises(payout: Payout, b: Book, i: nat)
    requires Consistent(payout, b) && i < |b.entries|
    ensures var e, o := b.entries[i], b.entries[i].outpoint;
            && o in b.solo && o in b.cuts && e.orphanRetries == b.solo[o] <= MAX_ORPHAN_RETRIES
            && (!e.slashed ==> b.solo[o] < MAX_ORPHAN_RETRIES)
            && b.cuts[o] <= 6 && (b.cuts[o] == 6 ==> EffCap(e) == 1)
  {
    hide Indexed, Flights, Keyed, CapsHold, IndicesFit, Injective;
    SixCutsIsolate(b.entries[i], b.cuts[b.entries[i].outpoint]);
  }

  /** Whatever a run does, the state it saves can be loaded again. */
  lemma SavedStateIsLoadable(payout: Payout, b: Book)
    requires Consistent(payout, b)
    ensures Loadable(b.entries)
  {}

  function Released(b: Book, t: string): Book
    requires t in b.claims
  {
    b.(claims := b.claims - {t}, flying := b.flying - OpSet(b.claims[t].outpoints))
  }

  lemma ReleaseConsistent(payout: Payout, b: Book, t: string)
    requires Consistent(payout, b) && t in b.claims
    ensures Consistent(payout, Released(b, t))
  {
    ReleaseKeepsFlights(b.claims, b.flying, t);
    FewerFlyingKeeps(b.entries, b.flying, b.flying - OpSet(b.claims[t].outpoints), b.solo, b.cuts);
  }

  lemma RetireConsistent(payout: Payout, b: Book, result: seq<Entry>)
    requires Consistent(payout, b) && OnlyRetires(b.entries, result)
    ensures Consistent(payout, b.(entries := result))
  {
    UpdateKeepsIndexed(b.entries, result, b.outpoints, b.blocks);
    RetiringKeeps(b.entries, result, b.claims, b.flying, b.solo, b.cuts);
  }

  function Tracked(b: Book, e: Entry): Book {
    b.(entries := b.entries + [e], outpoints := b.outpoints + {e.outpoint},
       blocks := AddToBlock(b.blocks, e.blockHash, |b.entries|),
       solo := b.solo[e.outpoint := 0], cuts := b.cuts[e.outpoint := 0])
  }

  lemma TrackConsistent(payout: Payout, b: Book, e: Entry)
    requires Consistent(payout, b) && e.outpoint !in b.outpoints && e.outpoint.index < U32_LIMIT
    requires e.batchCap == 0 && e.orphanRetries == 0
    ensures Consistent(payout, Tracked(b, e))
  {
    AppendKeepsIndexed(b.entries, e, b.outpoints, b.blocks);
    TrackKeeps(b.entries, e, b.claims, b.flying, b.solo, b.cuts);
  }

  lemma CompactConsistent(payout: Payout, b: Book, kept: seq<Entry>, outpoints: set<Outpoint>, blocks: map<string, seq<nat>>)
    requires Consistent(payout, b) && kept == Retained(b.entries) && Indexed(kept, outpoints, blocks)
    ensures Consistent(payout, b.(entries := kept, outpoints := outpoints, blocks := blocks))
  {
    RetainedExact(b.entries);
    SubsetKeeps(b.entries, kept, b.claims, b.flying, b.solo, b.cuts);
    forall i | 0 <= i < |kept|
      ensures kept[i].outpoint.index < U32_LIMIT
    {
      assert kept[i] in b.entries;
    }
  }

  ghost function HealedBook(b: Book, daa: nat, result: seq<Entry>): Book {
    b.(entries := result, cuts := CutsHealed(b.entries, daa, b.cuts))
  }

  lemma HealKeepsCaps(b: Book, daa: nat, result: seq<Entry>)
    requires CapsHold(b.entries, b.claims) && Histories(b.entries, b.flying, b.solo, b.cuts)
    requires |result| == |b.entries| && forall i :: 0 <= i < |b.entries| ==> result[i] == Healed(b.entries[i], daa)
    ensures CapsHold(result, b.claims)
  {
    forall i | 0 <= i < |b.entries|
      ensures EffCap(result[i]) >= EffCap(b.entries[i]) && result[i].outpoint == b.entries[i].outpoint
    {
      var o := b.entries[i].outpoint;
      HealingKeepsHistory(b.entries[i], daa, b.solo[o], b.cuts[o], o in b.flying);
    }
    hide EffCap, Healed, Histories;
  }

  lemma HealedKeys(entries: seq<Entry>, daa: nat, result: seq<Entry>)
    requires |result| == |entries| && forall i :: 0 <= i < |entries| ==> result[i] == Healed(entries[i], daa)
    ensures SameKeys(entries, result)
  {}

  lemma HealConsistent(payout: Payout, b: Book, daa: nat, result: seq<Entry>)
    requires Consistent(payout, b)
    requires |result| == |b.entries| && forall i :: 0 <= i < |b.entries| ==> result[i] == Healed(b.entries[i], daa)
    ensures Consistent(payout, HealedBook(b, daa, result))
  {
    DistinctKeys(payout, b);
    hide Injective, IndicesFit, Indexed, Flights, Keyed, CapsHold, Histories, Healed, CutsHealed, SameKeys, DistinctOutpoints;
    HealedKeys(b.entries, daa, result);
    SameKeysFit(b.entries, result);
    UpdateKeepsIndexed(b.entries, result, b.outpoints, b.blocks);
    HealKeepsHistories(b.entries, result, daa, b.flying, b.solo, b.cuts);
    HealKeepsCaps(b, daa, result);
  }

  lemma DistinctKeys(payout: Payout, b: Book)
    requires Consistent(payout, b)
    ensures DistinctOutpoints(b.entries)
  {}

  function Submitted(b: Book, tx: ClaimTx, daa: nat): Book {
    b.(claims := b.claims[tx.txid := InFlightClaim(tx.inputs, daa, tx.amountOut + CLAIM_FEE_SOMPI)],
       flying := b.flying + OpSet(tx.inputs))
  }

  lemma SubmitConsistent(payout: Payout, b: Book, daa: nat, current: nat, pass: nat, batch: seq<nat>, picked: seq<Entry>, tx: ClaimTx)
    requires Consistent(payout, b) && |b.claims| < MAX_IN_FLIGHT_CLAIMS
    requires Chosen(b.entries, daa, b.flying, current, pass, batch)
    requires Picks(b.entries, batch, picked) && Buildable(picked) && BuildClaimTx(payout, picked) == Built(tx)
    ensures tx.txid !in b.claims && OpSet(tx.inputs) !! b.flying
    ensures Consistent(payout, Submitted(b, tx, daa))
  {
    hide *;
    var c := InFlightClaim(tx.inputs, daa, tx.amountOut + CLAIM_FEE_SOMPI);
    Parts(payout, b);
    TrackedKeys(payout, b);
    PickedOps(b.entries, daa, b.flying, current, pass, batch, picked);
    BuiltIsKeyed(payout, picked, tx);
    SubmitKeepsClaims(payout, b.claims, b.flying, tx.txid, c);
    SubmitKeepsEntries(b, daa, current, pass, batch, picked, tx.txid, c);
    SubmittedParts(payout, b, tx, daa);
  }

  lemma SubmittedParts(payout: Payout, b: Book, tx: ClaimTx, daa: nat)
    requires Consistent(payout, b)
    requires var c := InFlightClaim(tx.inputs, daa, tx.amountOut + CLAIM_FEE_SOMPI);
             && Flights(b.claims[tx.txid := c], b.flying + OpSet(tx.inputs))
             && Keyed(b.claims[tx.txid := c], payout)
             && CapsHold(b.entries, b.claims[tx.txid := c])
             && Histories(b.entries, b.flying + OpSet(tx.inputs), b.solo, b.cuts)
    ensures Consistent(payout, Submitted(b, tx, daa))
  {
    hide Indexed, Flights, Keyed, CapsHold, Histories, OpSet, IndicesFit, Injective;
  }

  lemma Parts(payout: Payout, b: Book)
    requires Consistent(payout, b)
    ensures Injective(payout.hash) && Flights(b.claims, b.flying) && Keyed(b.claims, payout)
    ensures CapsHold(b.entries, b.claims) && Histories(b.entries, b.flying, b.solo, b.cuts)
  {}

  lemma SubmitKeepsEntries(b: Book, daa: nat, current: nat, pass: nat, batch: seq<nat>, picked: seq<Entry>, t: string, c: InFlightClaim)
    requires CapsHold(b.entries, b.claims) && Histories(b.entries, b.flying, b.solo, b.cuts) && DistinctOutpoints(b.entries)
    requires Chosen(b.entries, daa, b.flying, current, pass, batch) && Picks(b.entries, batch, picked)
    requires c.outpoints == OutpointsOf(picked)
    ensures CapsHold(b.entries, b.claims[t := c])
    ensures Histories(b.entries, b.flying + OpSet(c.outpoints), b.solo, b.cuts)
  {
    hide CapsHold, Histories, DistinctOutpoints, Chosen, Picks, OutpointsOf, OpSet;
    SubmitKeepsCaps(b.entries, daa, b.flying, current, pass, batch, picked, b.claims, t, c);
    SubmitKeepsHistories(b.entries, daa, b.flying, current, pass, batch, picked, b.solo, b.cuts);
  }

  lemma SubmitKeepsClaims(payout: Payout, claims: Claims, flying: set<Outpoint>, t: string, c: InFlightClaim)
    requires Injective(payout.hash) && Flights(claims, flying) && Keyed(claims, payout) && |claims| < MAX_IN_FLIGHT_CLAIMS
    requires KeyedBy(t, c.outpoints, payout) && 1 <= |c.outpoints| <= MAX_CLAIM_BATCH
    requires DistinctOps(c.outpoints) && OpSet(c.outpoints) !! flying
    ensures t !in claims
    ensures Flights(claims[t := c], flying + OpSet(c.outpoints)) && Keyed(claims[t := c], payout)
  {
    hide Injective, Flights, Keyed, KeyedBy, DistinctOps, OpSet;
    NewClaimNewTxid(claims, flying, payout, t, c.outpoints);
    NewClaimKeyed(claims, t, c, payout);
    SubmitKeepsFlights(claims, flying, t, c);
  }

  lemma NewClaimKeyed(claims: Claims, t: string, c: InFlightClaim, payout: Payout)
    requires Keyed(claims, payout) && KeyedBy(t, c.outpoints, payout)
    ensures Keyed(claims[t := c], payout)
  {}

  lemma BuiltIsKeyed(payout: Payout, picked: seq<Entry>, tx: ClaimTx)
    requires Buildable(picked) && BuildClaimTx(payout, picked) == Built(tx)
    ensures tx.inputs == OutpointsOf(picked) && KeyedBy(tx.txid, tx.inputs, payout)
  {
    assert tx.txid == ClaimTxid(payout, tx.inputs, tx.amountOut, tx.sequence);
  }

  function RejectedBook(b: Book, t: string, v: Verdict, result: seq<Entry>): Book
    requires t in b.claims
  {
    var ops := b.claims[t].outpoints;
    Released(b, t).(entries := result, solo := SoloAfter(b.solo, ops, v), cuts := CutsAfter(b.cuts, ops, v))
  }

  /** Every entry of a claim in flight still has room in its retry counter. */
  lemma FlyingRetries(payout: Payout, b: Book, t: string)
    requires Consistent(payout, b) && t in b.claims
    ensures DistinctOutpoints(b.entries)
    ensures DistinctOps(b.claims[t].outpoints) && 1 <= |b.claims[t].outpoints|
    ensures OpSet(b.claims[t].outpoints) <= b.flying && WithinCaps(b.entries, b.claims[t].outpoints)
    ensures forall i :: 0 <= i < |b.entries| && b.entries[i].outpoint in b.claims[t].outpoints ==>
              b.entries[i].orphanRetries < MAX_ORPHAN_RETRIES
  {
    assert forall o :: o in b.claims[t].outpoints ==> o in b.flying;
  }

  /** No output is in two outstanding claims. */
  lemma ClaimsAreDisjoint(payout: Payout, b: Book, t: string)
    requires Consistent(payout, b) && t in b.claims
    ensures forall u :: u in b.claims && u != t ==> OpSet(b.claims[t].outpoints) !! OpSet(b.claims[u].outpoints)
  {}

  /** The block index finds exactly the entries of a block. */
  lemma BlockLookup(payout: Payout, b: Book, hash: string)
    requires Consistent(payout, b) && hash != ""
    ensures if hash in b.blocks then b.blocks[hash] == IndicesOf(b.entries, hash) else !HasBlock(b.entries, hash)
  {}

  lemma KeysAre(payout: Payout, b: Book)
    requires Consistent(payout, b)
    ensures b.outpoints == KeysOf(b.entries)
  {
    forall o
      ensures Tracks(b.entries, o) <==> o in KeysOf(b.entries)
    {
    }
  }

  lemma TrackedKeys(payout: Payout, b: Book)
    requires Consistent(payout, b)
    ensures DistinctOutpoints(b.entries) && IndicesFit(b.entries)
  {}

  lemma RejectConsistent(payout: Payout, b: Book, t: string, v: Verdict, lastDaa: nat, result: seq<Entry>)
    requires Consistent(payout, b) && t in b.claims && v != Accepted
    requires AllRejected(b.entries, result, b.claims[t].outpoints, v, lastDaa)
    ensures Consistent(payout, RejectedBook(b, t, v, result))
  {
    var ops := b.claims[t].outpoints;
    FlyingRetries(payout, b, t);
    hide Indexed, Flights, Keyed, Histories, AllRejected, SameKeys, IndicesFit, CapsHold, OpSet, WithinCaps;
    RejectKeepsHistories(b.entries, result, ops, v, lastDaa, b.flying, b.solo, b.cuts);
    UpdateKeepsIndexed(b.entries, result, b.outpoints, b.blocks);
    SameKeysFit(b.entries, result);
    RejectKeepsCaps(b.entries, result, b.claims, b.flying, t, v, lastDaa);
    ReleaseKeepsFlights(b.claims, b.flying, t);
    FewerKeyed(b.claims, t, payout);
  }

  lemma FewerKeyed(claims: Claims, t: string, payout: Payout)
    requires Keyed(claims, payout)
    ensures Keyed(claims - {t}, payout)
  {}
}
