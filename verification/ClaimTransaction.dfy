/** build_claim_tx and the bytes its transaction id commits to. */
module ClaimTransaction {
  import opened ByteOrder
  import opened EscrowModel

  /** One input as the transaction id sees it: outpoint, empty signature script, sequence. */
  function InputBytes(op: Outpoint, sequence: nat): (bytes: seq<u8>)
    requires |op.txid| == 32
    ensures |bytes| == 52
  {
    op.txid + LittleEndian(op.index, 4) + LittleEndian(0, 8) + LittleEndian(sequence, 8)
  }

  predicate WellFormed(inputs: seq<Outpoint>) {
    |inputs| < U64_LIMIT && forall i :: 0 <= i < |inputs| ==> |inputs[i].txid| == 32 && inputs[i].index < U32_LIMIT
  }

  function InputsBytes(inputs: seq<Outpoint>, sequence: nat): (bytes: seq<u8>)
    requires forall i :: 0 <= i < |inputs| ==> |inputs[i].txid| == 32
    ensures |bytes| == 52 * |inputs|
  {
    if inputs == [] then [] else InputBytes(inputs[0], sequence) + InputsBytes(inputs[1..], sequence)
  }

  /** Everything compute_claim_txid feeds the hash, in order. */
  function TxidPreimage(inputs: seq<Outpoint>, amountOut: nat, spkVersion: nat, spkScript: seq<u8>, sequence: nat): seq<u8>
    requires WellFormed(inputs)
  {
    LittleEndian(0, 2) + LittleEndian(|inputs|, 8) + InputsBytes(inputs, sequence) + TxidTail(amountOut, spkVersion, spkScript)
  }

  /** One output, lock time, native subnetwork, gas, empty payload. */
  function TxidTail(amountOut: nat, spkVersion: nat, spkScript: seq<u8>): seq<u8> {
    LittleEndian(1, 8) + LittleEndian(amountOut, 8) + LittleEndian(spkVersion, 2)
    + LittleEndian(|spkScript|, 8) + spkScript
    + LittleEndian(0, 8) + seq(20, _ => 0) + LittleEndian(0, 8) + LittleEndian(0, 8)
  }

  lemma InputBytesInjective(a: Outpoint, b: Outpoint, sa: nat, sb: nat)
    requires |a.txid| == 32 && |b.txid| == 32 && a.index < U32_LIMIT && b.index < U32_LIMIT
    requires InputBytes(a, sa) == InputBytes(b, sb)
    ensures a == b
  {
    assert a.txid == InputBytes(a, sa)[..32] && b.txid == InputBytes(b, sb)[..32];
    assert LittleEndian(a.index, 4) == InputBytes(a, sa)[32..36] && LittleEndian(b.index, 4) == InputBytes(b, sb)[32..36];
    Limits();
    LittleEndianInjective(a.index, b.index, 4);
  }

  lemma {:induction false} InputsBytesInjective(a: seq<Outpoint>, b: seq<Outpoint>, sa: nat, sb: nat)
    requires WellFormed(a) && WellFormed(b) && |a| == |b|
    requires InputsBytes(a, sa) == InputsBytes(b, sb)
    ensures a == b
  {
    if a != [] {
      var x, y := InputsBytes(a, sa), InputsBytes(b, sb);
      assert x[..52] == InputBytes(a[0], sa) && y[..52] == InputBytes(b[0], sb);
      assert x[52..] == InputsBytes(a[1..], sa) && y[52..] == InputsBytes(b[1..], sb);
      InputBytesInjective(a[0], b[0], sa, sb);
      InputsBytesInjective(a[1..], b[1..], sa, sb);
      assert a == [a[0]] + a[1..] && b == [b[0]] + b[1..];
    }
  }

  lemma PreimageParts(a: seq<Outpoint>, amount: nat, version: nat, script: seq<u8>, sequence: nat)
    requires WellFormed(a)
    ensures var x := TxidPreimage(a, amount, version, script, sequence);
            && |x| >= 10 + 52 * |a|
            && x[2..10] == LittleEndian(|a|, 8)
            && x[10..10 + 52 * |a|] == InputsBytes(a, sequence)
  {
    hide TxidTail, InputsBytes, LittleEndian;
  }

  /** The claim txid preimage determines the input list, whatever the amounts, payout and windows. */
  lemma PreimageDeterminesInputs(a: seq<Outpoint>, b: seq<Outpoint>, amountA: nat, amountB: nat,
                                 version: nat, script: seq<u8>, sa: nat, sb: nat)
    requires WellFormed(a) && WellFormed(b)
    requires TxidPreimage(a, amountA, version, script, sa) == TxidPreimage(b, amountB, version, script, sb)
    ensures a == b
  {
    hide TxidPreimage, InputsBytes, LittleEndian;
    PreimageParts(a, amountA, version, script, sa);
    PreimageParts(b, amountB, version, script, sb);
    Limits();
    LittleEndianInjective(|a|, |b|, 8);
    InputsBytesInjective(a, b, sa, sb);
  }

  // ----- the preimage, field by field -----

  /** A little-endian number of `width` bytes stands at `at`. */
  ghost predicate Reads(x: seq<u8>, at: nat, width: nat, v: nat) { at + width <= |x| && LeValue(x[at..at + width]) == v }

  /** One input: id, index, no signature script, sequence. */
  ghost predicate ReadsInput(x: seq<u8>, at: nat, op: Outpoint, sequence: nat) {
    && at + 52 <= |x| && x[at..at + 32] == op.txid && Reads(x, at + 32, 4, op.index)
    && Reads(x, at + 36, 8, 0) && Reads(x, at + 44, 8, sequence)
  }

  /** One output of this amount to this script, then lock time, subnetwork, gas and payload, all zero, and nothing more. */
  ghost predicate ReadsTail(x: seq<u8>, at: nat, amount: nat, version: nat, script: seq<u8>) {
    && |x| == at + 70 + |script| && Reads(x, at, 8, 1) && Reads(x, at + 8, 8, amount) && Reads(x, at + 16, 2, version)
    && Reads(x, at + 18, 8, |script|) && x[at + 26..at + 26 + |script|] == script
    && forall k :: at + 26 + |script| <= k < |x| ==> x[k] == 0
  }

  lemma ReadsIn(before: seq<u8>, v: nat, width: nat, after: seq<u8>)
    requires v < Power256(width)
    ensures Reads(before + LittleEndian(v, width) + after, |before|, width, v)
  {
    hide LittleEndian, LeValue;
    LeRoundTrip(v, width);
    assert (before + LittleEndian(v, width) + after)[|before|..|before| + width] == LittleEndian(v, width);
  }

  lemma {:induction false} ZeroBytes(width: nat, k: nat)
    requires k < width
    ensures LittleEndian(0, width)[k] == 0
    decreases width
  {
    if k > 0 { ZeroBytes(width - 1, k - 1); }
  }

  lemma TailReads(before: seq<u8>, amount: nat, version: nat, script: seq<u8>)
    requires amount < U64_LIMIT && version < 0x1_0000 && |script| < U64_LIMIT
    ensures ReadsTail(before + TxidTail(amount, version, script), |before|, amount, version, script)
  {
    hide LittleEndian, Reads;
    Limits();
    assert Power256(2) == 0x1_0000;
    var x := before + TxidTail(amount, version, script);
    var zeros: seq<u8> := LittleEndian(0, 8) + seq(20, _ => 0) + LittleEndian(0, 8) + LittleEndian(0, 8);
    var s1, s2, s3, s4 := LittleEndian(1, 8), LittleEndian(amount, 8), LittleEndian(version, 2), LittleEndian(|script|, 8);
    ReadsIn(before, 1, 8, s2 + s3 + s4 + script + zeros);
    assert x == before + s1 + (s2 + s3 + s4 + script + zeros);
    ReadsIn(before + s1, amount, 8, s3 + s4 + script + zeros);
    assert x == before + s1 + s2 + (s3 + s4 + script + zeros);
    ReadsIn(before + s1 + s2, version, 2, s4 + script + zeros);
    assert x == before + s1 + s2 + s3 + (s4 + script + zeros);
    ReadsIn(before + s1 + s2 + s3, |script|, 8, script + zeros);
    assert x == before + s1 + s2 + s3 + s4 + (script + zeros);
    ZeroTail(before + s1 + s2 + s3 + s4, script, zeros);
  }

  lemma ZeroTail(before: seq<u8>, script: seq<u8>, zeros: seq<u8>)
    requires zeros == LittleEndian(0, 8) + seq(20, _ => 0) + LittleEndian(0, 8) + LittleEndian(0, 8)
    ensures var x := before + (script + zeros);
            && |zeros| == 44 && x[|before|..|before| + |script|] == script
            && forall k :: |before| + |script| <= k < |x| ==> x[k] == 0
  {
    hide LittleEndian;
    forall k: nat | k < 8 ensures LittleEndian(0, 8)[k] == 0 { ZeroBytes(8, k); }
    assert forall k :: 0 <= k < 44 ==> zeros[k] == 0;
  }

  lemma InputReads(before: seq<u8>, op: Outpoint, sequence: nat, after: seq<u8>)
    requires |op.txid| == 32 && op.index < U32_LIMIT && sequence < U64_LIMIT
    ensures ReadsInput(before + InputBytes(op, sequence) + after, |before|, op, sequence)
  {
    hide LittleEndian, Reads;
    Limits();
    var x := before + InputBytes(op, sequence) + after;
    var s1, s2, s3 := LittleEndian(op.index, 4), LittleEndian(0, 8), LittleEndian(sequence, 8);
    ReadsIn(before + op.txid, op.index, 4, s2 + s3 + after);
    assert x == before + op.txid + s1 + (s2 + s3 + after);
    ReadsIn(before + op.txid + s1, 0, 8, s3 + after);
    assert x == before + op.txid + s1 + s2 + (s3 + after);
    ReadsIn(before + op.txid + s1 + s2, sequence, 8, after);
    assert x == before + op.txid + s1 + s2 + s3 + after;
    assert x[|before|..|before| + 32] == op.txid;
  }

  lemma {:induction false} InputsRead(before: seq<u8>, inputs: seq<Outpoint>, sequence: nat, after: seq<u8>, i: nat)
    requires WellFormed(inputs) && sequence < U64_LIMIT && i < |inputs|
    ensures ReadsInput(before + InputsBytes(inputs, sequence) + after, |before| + 52 * i, inputs[i], sequence)
    decreases |inputs|
  {
    hide InputBytes, ReadsInput;
    var first, rest := InputBytes(inputs[0], sequence), InputsBytes(inputs[1..], sequence);
    var x := before + InputsBytes(inputs, sequence) + after;
    if i == 0 {
      InputReads(before, inputs[0], sequence, rest + after);
      assert x == before + first + (rest + after);
    } else {
      InputsRead(before + first, inputs[1..], sequence, after, i - 1);
      assert x == before + first + rest + after;
      assert |before + first| + 52 * (i - 1) == |before| + 52 * i;
    }
  }

  /**
   The id commits to version 0, the inputs in order with their indices and the one sequence, and one output of this
   amount to this script, each readable at its place; everything else is zero.
   */
  lemma PreimageReads(inputs: seq<Outpoint>, amount: nat, version: nat, script: seq<u8>, sequence: nat)
    requires WellFormed(inputs) && amount < U64_LIMIT && version < 0x1_0000 && |script| < U64_LIMIT && sequence < U64_LIMIT
    ensures var x := TxidPreimage(inputs, amount, version, script, sequence);
            && Reads(x, 0, 2, 0) && Reads(x, 2, 8, |inputs|)
            && (forall i :: 0 <= i < |inputs| ==> ReadsInput(x, 10 + 52 * i, inputs[i], sequence))
            && ReadsTail(x, 10 + 52 * |inputs|, amount, version, script)
  {
    hide LittleEndian, Reads, ReadsInput, ReadsTail, InputsBytes, TxidTail;
    Limits();
    var head, body, tail := LittleEndian(0, 2) + LittleEndian(|inputs|, 8), InputsBytes(inputs, sequence), TxidTail(amount, version, script);
    var x := TxidPreimage(inputs, amount, version, script, sequence);
    assert Power256(2) > 0;
    ReadsIn([], 0, 2, LittleEndian(|inputs|, 8) + body + tail);
    assert x == [] + LittleEndian(0, 2) + (LittleEndian(|inputs|, 8) + body + tail);
    ReadsIn(LittleEndian(0, 2), |inputs|, 8, body + tail);
    assert x == LittleEndian(0, 2) + LittleEndian(|inputs|, 8) + (body + tail);
    forall i: nat | i < |inputs| ensures ReadsInput(x, 10 + 52 * i, inputs[i], sequence) {
      InputsRead(head, inputs, sequence, tail, i);
    }
    TailReads(head + body, amount, version, script);
  }

  // ----- build_claim_tx -----

  datatype ClaimTx = ClaimTx(txid: string, inputs: seq<Outpoint>, sequence: nat, amountOut: nat)

  datatype BuildError = EmptyBatch | MixedWindows | TooSmall | BadTxid

  datatype BuildResult = Built(tx: ClaimTx) | Failed(error: BuildError)

  /** Hash and hexadecimal rendering of the transaction id, and the payout script of this miner. */
  datatype Payout = Payout(hash: seq<u8> -> string, spkVersion: nat, spkScript: seq<u8>)

  /** compute_claim_txid. */
  function ClaimTxid(payout: Payout, inputs: seq<Outpoint>, amountOut: nat, sequence: nat): string
    requires WellFormed(inputs)
  {
    payout.hash(TxidPreimage(inputs, amountOut, payout.spkVersion, payout.spkScript, sequence))
  }

  ghost predicate Injective(hash: seq<u8> -> string) {
    forall x, y :: hash(x) == hash(y) ==> x == y
  }

  /** Two claim transactions with the same id spend the same outputs in the same order. */
  lemma SameTxidSameInputs(payout: Payout, a: seq<Outpoint>, b: seq<Outpoint>, amountA: nat, amountB: nat, sa: nat, sb: nat)
    requires Injective(payout.hash) && WellFormed(a) && WellFormed(b)
    requires ClaimTxid(payout, a, amountA, sa) == ClaimTxid(payout, b, amountB, sb)
    ensures a == b
  {
    hide TxidPreimage;
    var version, script := payout.spkVersion, payout.spkScript;
    var x, y := TxidPreimage(a, amountA, version, script, sa), TxidPreimage(b, amountB, version, script, sb);
    assert payout.hash(x) == payout.hash(y);
    PreimageDeterminesInputs(a, b, amountA, amountB, version, script, sa, sb);
  }

  function TotalAmount(entries: seq<Entry>): nat {
    if entries == [] then 0 else entries[0].amount + TotalAmount(entries[1..])
  }

  function OutpointsOf(entries: seq<Entry>): (ops: seq<Outpoint>)
    ensures |ops| == |entries| && forall i :: 0 <= i < |ops| ==> ops[i] == entries[i].outpoint
  {
    seq(|entries|, i requires 0 <= i < |entries| => entries[i].outpoint)
  }

  function BuildClaimTx(payout: Payout, entries: seq<Entry>): BuildResult
    requires |entries| < U64_LIMIT && forall i :: 0 <= i < |entries| ==> entries[i].outpoint.index < U32_LIMIT
  {
    if entries == [] then Failed(EmptyBatch)
    else
      var window := entries[0].csvWindow;
      if exists i :: 0 <= i < |entries| && entries[i].csvWindow != window then Failed(MixedWindows)
      else if TotalAmount(entries) <= CLAIM_FEE_SOMPI then Failed(TooSmall)
      else if exists i :: 0 <= i < |entries| && |entries[i].outpoint.txid| != 32 then Failed(BadTxid)
      else
        var ops := OutpointsOf(entries);
        var amountOut := TotalAmount(entries) - CLAIM_FEE_SOMPI;
        Built(ClaimTx(ClaimTxid(payout, ops, amountOut, window), ops, window, amountOut))
  }

  /** The transaction spends these entries, in order and through their one window, and pays all they hold but the flat fee. */
  ghost predicate Pays(payout: Payout, entries: seq<Entry>, tx: ClaimTx) {
    && tx.inputs == OutpointsOf(entries) && WellFormed(tx.inputs)
    && tx.amountOut > 0 && tx.amountOut + CLAIM_FEE_SOMPI == TotalAmount(entries)
    && (forall i :: 0 <= i < |entries| ==> entries[i].csvWindow == tx.sequence)
    && tx.txid == ClaimTxid(payout, tx.inputs, tx.amountOut, tx.sequence)
  }

  /** What a claim on these entries would be refused for. */
  ghost predicate Unpayable(entries: seq<Entry>) {
    TotalAmount(entries) <= CLAIM_FEE_SOMPI || exists i :: 0 <= i < |entries| && |entries[i].outpoint.txid| != 32
  }

  ghost predicate OneWindow(entries: seq<Entry>) {
    forall i, j :: 0 <= i < |entries| && 0 <= j < |entries| ==> entries[i].csvWindow == entries[j].csvWindow
  }

  /** Entries of one window are either paid out in full, less the fee, or refused for their amount or a malformed id. */
  lemma BuildPays(payout: Payout, entries: seq<Entry>)
    requires |entries| < U64_LIMIT && forall i :: 0 <= i < |entries| ==> entries[i].outpoint.index < U32_LIMIT
    ensures var r := BuildClaimTx(payout, entries);
            && (r.Built? ==> Pays(payout, entries, r.tx))
            && (OneWindow(entries) ==> (r.Failed? <==> Unpayable(entries)))
  {
    hide ClaimTxid;
    if entries != [] { assert entries[0].csvWindow == entries[0].csvWindow; }
  }
}
