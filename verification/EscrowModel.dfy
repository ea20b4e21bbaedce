/** The escrow data of src/escrow.rs: tracked outputs, claims in flight and the rules on single entries. */
module EscrowModel {
  import opened Wrappers
  import opened ByteOrder

  /** Source transaction id, decoded from its hexadecimal text. */
  type Txid = seq<u8>

  /** The "{txid}:{index}" keys of the source. */
  datatype Outpoint = Outpoint(txid: Txid, index: nat)

  datatype Entry = Entry(
    outpoint: Outpoint,
    blockHash: string,
    confirmDaa: nat,
    amount: nat,
    claimed: bool,
    slashed: bool,
    orphanSlashed: bool,
    orphanRetries: u8,
    retryAfter: Option<nat>,
    submitRetries: u8,
    batchCap: u8,
    capSetDaa: nat,
    isInference: bool,
    csvWindow: nat)

  const CHALLENGE_WINDOW_BLOCKS: nat := 36_000
  const SERVICE_BOND_CSV_WINDOW_BLOCKS: nat := 792_000
  const CLAIM_FEE_SOMPI: nat := 30_000_000
  const COMPACT_EVERY_BLOCKS: nat := 2_000
  const MAX_CLAIM_BATCH: nat := 87
  const MIN_CLAIM_BATCH: nat := MAX_CLAIM_BATCH
  const CAP_EXPIRY_DAA: nat := 36_000
  const MAX_IN_FLIGHT_CLAIMS: nat := 4
  const CLAIM_RESPONSE_TIMEOUT_DAA: nat := 600
  const UNKNOWN_RETRY_BASE_COOLDOWN_DAA: nat := 100
  const UNKNOWN_RETRY_MAX_COOLDOWN_DAA: nat := 50_000
  const ORPHAN_RETRY_COOLDOWN_BLOCKS: nat := 100
  const SEQ_LOCK_RETRY_COOLDOWN_BLOCKS: nat := 20
  const MAX_ORPHAN_RETRIES: nat := 10

  function Min(a: int, b: int): int { if a <= b then a else b }

  function Pow2(n: nat): (p: nat)
    ensures p >= 1
  {
    if n == 0 then 1 else 2 * Pow2(n - 1)
  }

  /** The CSV lock of a coinbase escrow output created at `daa`; `gate` is the service-bond activation score. */
  function CsvWindowForDaa(gate: nat, daa: nat): nat {
    if daa >= gate then SERVICE_BOND_CSV_WINDOW_BLOCKS else CHALLENGE_WINDOW_BLOCKS
  }

  /** The largest batch an entry may join; an entry without a bisection cap is only bound by the batch limit. */
  function EffCap(e: Entry): (cap: nat)
    ensures 1 <= cap <= MAX_CLAIM_BATCH
  {
    if e.batchCap == 0 then MAX_CLAIM_BATCH else Min(e.batchCap, MAX_CLAIM_BATCH)
  }

  predicate Live(e: Entry) { !e.claimed && !e.slashed }

  predicate DistinctOutpoints(entries: seq<Entry>) {
    forall i, j :: 0 <= i < j < |entries| ==> entries[i].outpoint != entries[j].outpoint
  }

  function FreshEntry(op: Outpoint, blockHash: string, daa: nat, amount: nat, inference: bool, window: nat): Entry {
    Entry(op, blockHash, daa, amount, false, false, false, 0, None, 0, 0, 0, inference, window)
  }
}
