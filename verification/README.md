# Keryx miner: models and proofs

This project models the parts of the Keryx miner whose correctness is hardest to see from the code, and
proves what the code and its comments promise of them:

- **llama-server lifecycle** (`ServerLifecycle*`): starters, stoppers, committers and per-child monitor threads
  share atomics, an identity mutex and a lifecycle mutex that monitors never take. It is a step relation with
  one atomic access per step, an inductive invariant, and theorems about every reachable state.
- **Escrow claims** (`EscrowModel`, `ClaimSelection`, `ClaimTransaction`, `EscrowInvariants`, `EscrowBook`,
  `EscrowPromises`, `EscrowWatcher`): tracking, batch selection, claims in flight, bisection of rejected batches, healing,
  compaction and two lookup indexes. The watcher is a class; every method keeps one invariant that ties its
  data to the history of its claims.
- **Addresses** (`Positional`, `AddressChecksum`, `AddressCode`, `Address`): the base-32 codec with its wrapping shift
  registers, and its 40-bit checksum as the polynomial remainder over GF(32) of the CashAddr specification, section
  "Checksum".
- **Possession tree** (`Merkle`, `Checkpoints`): the Merkle tree with duplicated last nodes, the sparse file that
  stores every fifth level, and the memoised path lookup.
- **Possession proofs, version 4** (`PomChunks`, `PomDot`, `PomWalk`, `PomMixing`, `PomProof`, `PomKeryx`): the
  256-step walk with double buffering, its SIMD dot products and mixing functions, the chunk reader, the proof
  builder and the self-check.
- **Inference pause gate** (`PauseGate`): nested guards, manager replacement and the replayed pool job.
- **Vulkan walk** (`VkLifetime`, `VkDispatch`): the lifetime of the shared model and the sub-dispatch loops.
- **GGUF headers and IPFS identifiers** (`Gguf`, `GgufFormat`, `GgufSeek`, `GgufParsed`, `GgufMeaning`,
  `Base58`).

`Wrappers` and `ByteOrder` hold what several of these share. `dafny verify dfyconfig.toml` checks everything.

## Reading the results

Code that updates state is a class or a method with loops, proved against a specification function; what the
code promises is then proved of that function. Protocols between threads are state machines with sequentially
consistent steps, and their theorems speak of every reachable state. Alphabets, limits, schedules and mixing constants
are pinned by small lemmas on literal values beside their definitions (`CharsetIs`, `AlphabetIs`, `Schedule`, `SharedSizeIs`,
`KnownMixes`, `KnownCells`, `KnownState`). Timeouts, health probes, spawn failures and
driver answers are free choices of the environment.

Six promises turned out not to hold everywhere. The lemmas named here show each failing and give the exact
condition under which it holds:

- A route proof can outlive its child: a stop lowers AVAILABLE before it takes the identity, and a monitor that
  takes the identity in between withdraws nothing (`ProofCanOutliveStop`, `LostRaceIff`, `ProofSurvivesIff`).
- R_T differs from the dense root for 1 to 16 chunks, because the leaves are always folded five levels
  (`OtherHeight`, `SparseRootIff`). Blobs with a whole tile are not affected (`SparseRootServes`).
- The shared Vulkan loop never ends when both the sub-dispatch size and the batch are 2^32 or more, because the
  dispatched count is cut to 32 bits (`EmptyDispatches`, `SharedWalkEndsIff`).
- The one-seek skip of a metadata array reaches the array's end exactly when that end is below 2^63
  (`ArraySkipIff`). Beyond it the byte count wraps: the seek can go backwards (`RewindingFile`), land short of the
  end (`ShortFile`), or lead a nested array back to itself, so that the parser recurses without end
  (`LoopingFile`). Files that are only read forwards do not (`StackSuffices`).
- An address whose prefix holds a colon does not decode (`RoundTrip`).
- Base58 texts of ones only, the empty text included, decode to one zero byte too many (`StandardIff`).

## Assumptions

- Hashes: the theorems that need it take an injective hash, and for Merkle binding one under which no two 32-byte
  chunks or pairs of digests share a value. Acceptance of honest proofs needs no such assumption.
- 64-bit DAA scores, amounts and their sums do not overflow; 64-bit generation counters do not wrap.
- Loaded escrow entries have distinct outpoints, output indices below 2^32, and at most ten retries with fewer
  than ten while unslashed. Transactions have at most 2^32 outputs. What the watcher saves satisfies this again.
- Transaction ids are their decoded bytes, and "txid:index" keys are pairs.
- Texts of addresses and identifiers are their UTF-8 bytes. A GGUF file is shorter than 2^63 bytes, and its
  parser's stack holds some number of nested arrays.
- A model file is long enough to hold all its tensors.
- Signals sent to a process id reach the child the miner spawned.

## Model

| member | source | states |
|---|---|---|
| `ServerLifecycleSafety.StepKeeps` | src/llama_vulkan.rs:428-717 | every atomic access of a starter, stopper, reuser, committer or monitor keeps the inductive invariant of the llama-server protocol |
| `ServerLifecycleSafety.RunKeeps` | src/llama_vulkan.rs:28-75 | the invariant holds after every run of such accesses from the initial state |
| `ServerLifecycleTheorems.AtMostOneChild` | src/llama_vulkan.rs:571-659 | in every interleaving at most one llama-server child is alive, and it belongs to the newest generation |
| `ServerLifecycleTheorems.PidZeroMeansUnowned` | src/llama_vulkan.rs:120-126 | whenever the lifecycle lock is free and SERVER_PID is 0, no child is alive, every monitor has finished and nothing is advertised |
| `ServerLifecycleTheorems.ReuseFalseMeansUnowned` | src/llama_vulkan.rs:266-273 | a false return from reuse_exact_or_stop, or the end of a stop, leaves the GPU without an owner and without a monitor that could still write |
| `ServerLifecycleTheorems.AvailableIff` | src/llama_vulkan.rs:277-295 | in every interleaving the last read of available_for answers true exactly when the published server was launched for this model file on this card by the generation and child just read, which is then the newest; anything else is retired |
| `ServerLifecycleTheorems.AvailableAlone` | src/llama_vulkan.rs:256-295 | undisturbed, its seven reads are one test of the shared state |
| `ServerLifecycleTheorems.TrueOnly` | src/llama_vulkan.rs:266-319 | true is answered only by the last read of available_for, by a start's ownership check and by a recorded commit |
| `ServerLifecycleTheorems.CommitIff` | src/llama_vulkan.rs:299-319 | in every interleaving a success is committed exactly for the route the server was launched for, while the child just read owns it and is not marked as exiting |
| `ServerLifecycleTheorems.CommitRecords` | src/llama_vulkan.rs:299-319 | the proof is recorded under the model and card of the server that earned it, as the newest generation's |
| `ServerLifecycleTheorems.CommitAlone` | src/llama_vulkan.rs:299-319 | undisturbed, the reads of a commit are one test of the shared state |
| `ServerLifecycleTheorems.ReplaceAlone` | src/llama_vulkan.rs:156-225 | undisturbed, a replacement does nothing without a child, waits for a child marked as exiting, probes the child that owns the advertised server and stops any other |
| `ServerLifecycleTheorems.AnsweredIsPreserved` | src/llama_vulkan.rs:197-225 | a planned replacement keeps the proofs exactly when the server answers its probe |
| `ServerLifecycleTheorems.InvalidationScope` | src/llama_vulkan.rs:245-253 | what a stop removes from the cache: nothing when planned, else the one route, or every route of the card when the model is unknown |
| `ServerLifecycleTheorems.LateMonitorIsSilent` | src/llama_vulkan.rs:601-625 | a monitor of an older generation has no step left, so it never touches a newer server |
| `ServerLifecycleTheorems.CleanupWins` | src/llama_vulkan.rs:676-717 | once the monitor has cleaned up and no publication is under way, AVAILABLE is false, PORT 0, the device -1 and there is no identity, whatever the interleaving |
| `ServerLifecycleTheorems.PublishedIffBeforeMark` | src/llama_vulkan.rs:107-116 | the starter's last ownership read lets it return true exactly when it comes before the monitor's exit mark |
| `ServerLifecycleTheorems.ProofSurvivesIff` | src/llama_vulkan.rs:132-147 | after a child's finished cleanup a route proof it earned is still cached exactly when a planned replacement preserved it or the monitor lost the withdrawal to a half-done stop |
| `ServerLifecycleTheorems.OldProofsWereLeft` | src/llama_vulkan.rs:299-319 | a cached proof of an older generation was left by one of those two outcomes and no other |
| `ServerLifecycleTheorems.PreservedOnlyIfAnswered` | src/llama_vulkan.rs:179-225 | a planned replacement preserves proofs only of a child that answered its authenticated probe |
| `ServerLifecycleTheorems.LostRaceIff` | src/llama_vulkan.rs:611-624 | the monitor takes the identity without withdrawing its proof exactly when it found AVAILABLE already lowered, which happens only inside a stop's window before the stop takes the identity |
| `ServerLifecycleTheorems.ProofCanOutliveStop` | src/llama_vulkan.rs:830-844 | a run in which stop lowers AVAILABLE, the monitor then takes the identity first, and the proof outlives the stop although the child is gone |
| `ClaimSelection.WalkOrder` | src/escrow.rs:148-153 | the order a pass visits entries in covers each once: inference first and oldest first in the nominal pass, oldest first otherwise |
| `ClaimSelection.BuildCandidate` | src/escrow.rs:144-190 | a candidate batch is distinct members of the pass's pool, of one window and within every member's cap; it is empty only when the pool is; the nominal batch is the first 87 in queue order and other batches open with the oldest |
| `ClaimSelection.SelectClaimBatch` | src/escrow.rs:134-202 | the chosen batch is sound for the first pass and window that can release one, and empty exactly when no repair, drain or dead entry is eligible and every window has fewer than 87 eligible uncapped entries |
| `ClaimSelection.FullIffPoolLarge` | src/escrow.rs:189-196 | a nominal batch reaches 87 exactly when its window holds at least 87 candidates |
| `ClaimSelection.SortedWindows` | src/escrow.rs:135-138 | the windows tried are exactly those of the entries, the current one first and then in increasing order, each once |
| `ClaimTransaction.PreimageDeterminesInputs` | src/escrow.rs:1443-1469 | the bytes hashed into a claim's transaction id determine its input list, whatever the amounts and windows |
| `ClaimTransaction.SameTxidSameInputs` | src/escrow.rs:1443-1469 | with an injective hash, equal claim ids mean equal inputs in equal order |
| `ClaimTransaction.PreimageReads` | src/escrow.rs:1443-1469 | every field that the id commits to can be read back at its place: version, inputs in order with index and sequence, one output with amount and script, and zeros |
| `EscrowInvariants.UpdateKeepsIndexed` | src/escrow.rs:387-399 | changing entries in place keeps both lookup indexes equal to a full scan |
| `EscrowInvariants.AppendKeepsIndexed` | src/escrow.rs:585-612 | tracking an output keeps both indexes equal to a full scan |
| `EscrowInvariants.ReleaseKeepsFlights` | src/escrow.rs:670-693 | releasing a claim keeps in_flight_outpoints the disjoint union of at most four claims of 1 to 87 outputs |
| `EscrowInvariants.SubmitKeepsFlights` | src/escrow.rs:868-880 | a claim over free outputs keeps that partition |
| `EscrowInvariants.NewClaimNewTxid` | src/escrow.rs:1443-1469 | a claim that shares no output with those in flight gets an id of its own, so nothing in flight is overwritten |
| `EscrowInvariants.RejectionHalves` | src/escrow.rs:952-1002 | a rejected multi-output claim, orphan or unrecognised, at least halves the largest batch each member may join |
| `EscrowInvariants.SixCutsIsolate` | src/escrow.rs:180-190 | after six such rejections an output is claimed only alone, and there is no seventh |
| `EscrowInvariants.RejectionKeepsHistory` | src/escrow.rs:944-1009 | after any rejection the retry counter is still the number of single-output orphan rejections and the cap still bounds the bisections |
| `EscrowInvariants.SlashOnlyAtTenth` | src/escrow.rs:944-1009 | the response path slashes a live entry exactly at its tenth single-output orphan rejection; batch, sequence-lock and unrecognised rejections never do |
| `EscrowInvariants.HealingKeepsHistory` | src/escrow.rs:827-849 | healing keeps the retry counter and the slashed flag and never lowers a cap |
| `EscrowInvariants.RetainedExact` | src/escrow.rs:400-408 | compaction keeps exactly the live entries |
| `EscrowInvariants.RetainedDistinct` | src/escrow.rs:400-408 | compaction keeps outpoints distinct |
| `EscrowBook.RejectAll` | src/escrow.rs:944-1009 | the rejection pass changes every tracked output of the claim by the verdict and nothing else |
| `EscrowBook.MarkClaimed` | src/escrow.rs:1042-1062 | exactly the claim's tracked outputs become claimed, and the sum is that of the ones not claimed before |
| `EscrowBook.HealAll` | src/escrow.rs:827-849 | every entry is healed by the rule for single entries and nothing else changes |
| `EscrowBook.SlashIndexed` | src/escrow.rs:516-534 | slashing through the block index changes exactly the entries a full scan would |
| `EscrowBook.ChosenNeverMixes` | src/escrow.rs:1064-1078 | a batch that selection chose is never refused as empty or for mixed windows: its claim spends its outputs in order and pays all they hold but the fee, or the batch is not worth the fee or has a malformed id |
| `EscrowBook.SubmitConsistent` | src/escrow.rs:804-888 | putting the chosen batch's claim in flight keeps the whole book consistent, under a new id and over outputs that were free |
| `EscrowBook.RejectConsistent` | src/escrow.rs:897-1009 | a rejected claim keeps the whole book consistent |
| `EscrowBook.HealConsistent` | src/escrow.rs:827-849 | healing keeps the whole book consistent |
| `EscrowBook.TrackConsistent` | src/escrow.rs:585-612 | tracking keeps the whole book consistent |
| `EscrowBook.RetireConsistent` | src/escrow.rs:723-746 | passes that only retire entries keep the whole book consistent |
| `EscrowBook.CompactConsistent` | src/escrow.rs:400-408 | compaction keeps the whole book consistent |
| `EscrowBook.ClaimsAreDisjoint` | src/escrow.rs:868-880 | no output is in two outstanding claims |
| `EscrowBook.EntryPromises` | src/escrow.rs:944-1009 | in every consistent book each entry's retry counter is its number of single-output orphan rejections, at most ten, below ten while unslashed, and its bisections are at most six |
| `EscrowBook.SavedStateIsLoadable` | src/escrow.rs:1288-1308 | whatever a run does, its entries satisfy what loading assumes |
| `EscrowPromises.AnsweredSettles` | src/escrow.rs:915-1009 | what each answer text does to every entry of its claim, with the cooldowns, caps and counters in numbers |
| `EscrowPromises.AnswerVerdicts` | src/escrow.rs:915-1009 | a live output is slashed exactly by an orphan text on its tenth solo claim, claimed exactly by no error or a duplicate text, and a sequence-lock text only makes it wait 20 scores |
| `EscrowPromises.NewEscrowsExactly` | src/escrow.rs:557-612 | a block's new entries are exactly the untracked outputs of its first input-less transaction that pay one of the two scripts, with window 36000 or 792000, in order and once each |
| `EscrowPromises.NothingDueIff` | src/escrow.rs:105-202 | nothing ships exactly when every due output is a fresh one of the current era and there are fewer than 87 |
| `EscrowPromises.ShippedIsDue` | src/escrow.rs:134-202 | what ships is due outputs of one kind and window within their caps, a full 87 if fresh, and the claim pays all they hold but 30000000 sompi |
| `EscrowPromises.InferenceFirst` | src/escrow.rs:148-153 | a nominal batch leaves no inference output behind for another kind and no older output for a newer one |
| `EscrowPromises.PassOrder` | src/escrow.rs:105-133 | what ships under which pass: other windows, repairs, drains and orphans only when everything before them is short |
| `EscrowPromises.HealsExactly` | src/escrow.rs:827-849 | a cap lasts 36000 scores, an orphan verdict its cooldown plus 36000 doubled for every strike, and nothing else heals |
| `EscrowWatching.EscrowWatcher.constructor` | src/escrow.rs:331-385 | a watcher over loadable entries starts consistent with nothing in flight |
| `EscrowWatching.EscrowWatcher.RebuildIndexes` | src/escrow.rs:387-399 | the rebuilt indexes equal a full scan |
| `EscrowWatching.EscrowWatcher.Compact` | src/escrow.rs:400-408 | the entries become the retained ones and the indexes follow |
| `EscrowWatching.EscrowWatcher.ExpireInFlight` | src/escrow.rs:670-693 | exactly the claims past their response timeout are released |
| `EscrowWatching.EscrowWatcher.SlashReds` | src/escrow.rs:516-538 | exactly the live, non-inference entries of the blocks turned red are slashed |
| `EscrowWatching.EscrowWatcher.TrackBlockEscrows` | src/escrow.rs:557-612 | the entries grow by the coinbase outputs that pay one of our scripts and are not tracked yet |
| `EscrowWatching.EscrowWatcher.TrackInferenceEscrow` | src/escrow.rs:1156-1189 | an inference escrow is tracked once, and not at all for a zero amount |
| `EscrowWatching.EscrowWatcher.StartStateValidation` | src/escrow.rs:700-721 | the hashes asked about are exactly the non-empty ones of live entries |
| `EscrowWatching.EscrowWatcher.OnBlockValidated` | src/escrow.rs:723-746 | a disowned block purges exactly its live entries and any answer settles its hash |
| `EscrowWatching.EscrowWatcher.OnBlockValidationError` | src/escrow.rs:772-792 | an error settles one pending hash its text mentions and touches no entry |
| `EscrowWatching.EscrowWatcher.ConsumeValidationOk` | src/escrow.rs:794-802 | a block answer is consumed exactly when its hash is pending, and purges when the block is off the chain |
| `EscrowWatching.EscrowWatcher.FindClaim` | src/escrow.rs:804-888 | nothing happens while claims are held, four are in flight or validation is pending; otherwise entries heal, and the chosen batch of due outputs is shipped over free outputs under a new id, paying all they hold but the fee, or nothing is releasable, or the chosen batch is not worth the fee or has a malformed id |
| `EscrowWatching.EscrowWatcher.OnAccepted` | src/escrow.rs:911-943 | an accepted claim is released and exactly its outputs become claimed, with their open amounts reported |
| `EscrowWatching.EscrowWatcher.OnRejected` | src/escrow.rs:944-1009 | a rejected claim is released and exactly its outputs follow the verdict |
| `EscrowWatching.EscrowWatcher.OnSubmitResponse` | src/escrow.rs:897-1040 | a response belongs to the claim of its id, else to one its error mentions, else to none; only that claim is released, and its entries alone change, as the error's text says |
| `EscrowWatching.EscrowWatcher.Ingest` | src/escrow.rs:474-549 | before claiming a block expires claims, compacts every so many blocks, slashes reds and tracks new outputs, and does nothing else to the entries |
| `EscrowWatching.EscrowWatcher.HandleBlock` | src/escrow.rs:474-555 | the new state of a whole block: ingested and healed entries, the unexpired claims and, unless blocked, the claim of the batch selected from those entries outside those claims, disjoint from them, or the reason why there is none |
| `Positional.ShiftInLow` | src/escrow.rs:1498-1505 | shifting a digit into a wrapping 32-bit register acts on its low bits as multiplication, whatever falls off the top |
| `Positional.ShiftOutLow` | src/escrow.rs:1591-1598 | taking a digit out of the register leaves the bits below it |
| `Address.ToGroups` | src/escrow.rs:1588-1601 | the encoder's loop is base conversion: the five-bit digits of the byte string's number, padded with zero bits |
| `Address.ToBytes` | src/escrow.rs:1495-1505 | the decoder's loop is base conversion back: the whole bytes of the group string's number |
| `Address.PayloadRoundTrip` | src/escrow.rs:1474-1516 | regrouping a version byte and a 32-byte key to five bits and back is the identity |
| `Address.PayloadsAre` | src/escrow.rs:1587-1601 | payloads of keys are exactly the 53-group strings of version 0 with a zero padding bit |
| `Address.ReverseTable` | src/escrow.rs:1482-1486 | the reverse table holds each charset character's rank and 0xff elsewhere |
| `Address.EncodeAddress` | src/escrow.rs:1587-1614 | the encoder returns prefix, colon, payload and checksum as specified |
| `Address.DecodeAddress` | src/escrow.rs:1474-1516 | the decoder returns the specified version and key, or the specified error |
| `Address.RoundTrip` | src/escrow.rs:1584-1587 | decoding an encoded key gives version 0 and the key when the prefix has no colon, and a refusal when it has one |
| `Address.EncodeInjective` | src/escrow.rs:1587-1614 | two keys never share an address under one prefix |
| `Address.DecodesIff` | src/escrow.rs:1474-1516 | what follows the first colon decodes exactly when at least 53 charset characters come before its last eight bytes and those start on a character |
| `Address.NoColonNoAddress` | src/escrow.rs:1475-1475 | a text without a colon is refused as such |
| `Address.ChecksumNotRead` | src/escrow.rs:1477-1480 | decoding does not depend on the last eight characters |
| `Address.DecodeEncodes` | src/escrow.rs:1584-1614 | re-encoding a decoded address reproduces it exactly when it has version 0, 53 groups, a zero padding bit and a checksum that verifies |
| `AddressChecksum.AddressPolymod` | src/escrow.rs:1570-1582 | the loop over values and generators is the fold of the linear step, which FoldDivides characterises |
| `AddressCode.StepDigits` | src/escrow.rs:1572-1580 | one step multiplies the eight-digit polynomial by x, adds the next digit and takes the top digit's multiple of the CashAddr divisor away, in GF(32) with a^5 + a^3 + 1 = 0 |
| `AddressCode.FoldDivides` | src/escrow.rs:1570-1582 | the state after any digits is the rest of their polynomial on division by x^8 + 19x^7 + 3x^6 + 25x^5 + 11x^4 + 25x^3 + 3x^2 + 19x + 1 |
| `AddressCode.RestUnique` | src/escrow.rs:1570-1582 | there is only one quotient and rest |
| `AddressCode.ChecksumIff` | src/escrow.rs:1603-1613 | the printed groups are exactly the ones that make prefix, zero, payload and checksum leave the rest 1 |
| `AddressChecksum.StepSplits` | src/escrow.rs:1573-1580 | low parts under 35 bits pass a step unreduced and xor in |
| `AddressChecksum.ChecksumVerifies` | src/escrow.rs:1603-1613 | the eight printed groups make the polymod of prefix, zero, payload and checksum zero |
| `AddressChecksum.ChecksumUnique` | src/escrow.rs:1570-1582 | no other eight groups do |
| `Merkle.VerifyMerkle` | src/pom.rs:748-756 | the check accepts exactly when climbing the path from the leaf gives the root |
| `Merkle.PathClimbs` | src/pom.rs:727-756 | the path of a node leads to the root, for any hash |
| `Merkle.PathBinds` | src/pom.rs:748-756 | under an ideal hash the only leaf and path that climb to the root at an index are the tree's own, although the path's length is not checked |
| `Merkle.RootInjective` | src/pom.rs:708-726 | equal roots over equally many nodes come from the same nodes |
| `Merkle.FoldBatchesIsUp` | src/pom.rs:1538-1564 | folding batches of 2^k nodes exactly k levels builds the level of the dense tree, partial last batch included |
| `Merkle.UpAt` | src/pom.rs:1374-1402 | a node depends only on the batch below it |
| `Merkle.NodeIs` | src/pom.rs:1374-1402 | every node pairs the two below it, left one first, and the last of an odd level with itself |
| `Merkle.ReduceInPlace` | src/pom.rs:1549-1561 | one in-place round, which overwrites nodes it has read, yields the next level |
| `Merkle.FoldLevels` | src/pom.rs:1544-1564 | the fold lands exactly the given number of levels up |
| `Merkle.MerkleRoot` | src/pom.rs:708-726 | the in-place reduction computes the recursive root |
| `Merkle.MerkleRoot32` | src/pom_v4.rs:294-305 | the in-place reduction of 32 nodes computes the recursive root |
| `Checkpoints.ComputeCheckpoints` | src/pom.rs:1515-1536 | every fifth level and the root are listed in order, one after the other in the file, with the dense tree's node counts |
| `Checkpoints.FoldSection` | src/pom.rs:1585-1612 | reading a stored level batchwise and folding builds the next stored level |
| `Checkpoints.FoldLeaves` | src/pom.rs:1123-1193 | streaming the leaves through a buffer of 32 writes the level five up |
| `Checkpoints.FinalizeUpper` | src/pom.rs:1568-1622 | the file holds every stored level of the dense tree, and the value read back is the root when the tree is at least five levels high |
| `Checkpoints.SparseRootIff` | src/pom.rs:1568-1622 | under an ideal hash R_T is the dense root exactly when there are more than sixteen chunks |
| `Checkpoints.WeightIndex.SubtreeHash` | src/pom.rs:1378-1402 | a recomputed node is the dense tree's node |
| `Checkpoints.WeightIndex.MemoLookup` | src/pom.rs:1470-1508 | a sibling is the dense tree's whether it comes from the memo, the file or recomputation, and the memo stays true |
| `Checkpoints.WeightIndex.PathFromLevel` | src/pom.rs:1454-1512 | the path from a level is the dense tree's, with or without the dense tree in memory |
| `Checkpoints.DenseLevels` | src/pom.rs:1411-1443 | all levels, leaves first |
| `Checkpoints.DensePath` | src/pom.rs:1457-1466 | the lookup in those levels is the node's path |
| `PomDot.DotScalar` | src/pom_v4.rs:61-80 | the unrolled wrapping loop is the signed dot product |
| `PomDot.DotBound` | src/pom_v4.rs:61-80 | a dot product of 32 bytes stays within +-524288, so nothing wraps |
| `PomDot.Avx2IsScalar` | src/pom_v4.rs:82-102 | the AVX2 lane reduction equals the reference on every input |
| `PomDot.DotSse41` | src/pom_v4.rs:104-120 | the SSE4.1 loop and reduction give the dot product of row and column |
| `PomDot.NeonIsScalar` | src/pom_v4.rs:123-143 | the NEON lane reduction equals the reference on every input |
| `PomDot.DotWith` | src/pom_v4.rs:216-292 | the scalar, AVX2, SSE4.1 and NEON kernels give one and the same dot product |
| `PomWalk.TransitionInto` | src/pom_v4.rs:216-292 | on every kernel each byte of the destination scrambles the sum of signed products of its own row of the source and its own row of the tile |
| `PomWalk.TileNode` | src/pom_v4.rs:316-323 | the subtree root of a whole tile is its node five levels up the tree |
| `PomWalk.HonestStep` | src/pom_v4.rs:344-346 | a tile and its path climb to the tree's root, for any hash |
| `PomWalk.BoundStep` | src/pom_v4.rs:374-376 | under an ideal hash no other tile or path does at that offset |
| `PomMixing.MixInverse` | src/pom.rs:282-289 | mix64 is a bijection, with its inverse |
| `PomMixing.FoldBinds` | src/pom_v4.rs:146-154 | two snippets that agree in all words but one have the same fold only if they are equal |
| `PomMixing.NextDrawBinds` | src/pom_v4.rs:190-193 | and only then does the walk draw the same number after reading them |
| `PomMixing.FirstDrawBinds` | src/pom_v4.rs:185-188 | different seeds draw different first numbers |
| `PomMixing.InitialState` | src/pom_v4.rs:195-205 | word k of row r of the first state is the low word of that row's start mixed k + 1 times, for all 32 rows and 8 words |
| `PomMixing.ChainsMeet` | src/pom_v4.rs:195-205 | the mixing chains of two rows of one seed, or of one row under two seeds, differ at every link |
| `PomChunks.BuildTable` | src/pom.rs:1139-1174 | every entry of the table covers consecutive chunks of the weights that lie together in the file, and the entries cover all of them; tensors without a whole chunk have no entry |
| `PomChunks.ReadChunksInto` | src/pom.rs:1328-1358 | the bulk reader fills its buffer with exactly the chunks asked for, across tensor borders |
| `PomKeryx.NextOffset` | src/pom_v4.rs:190-193 | the next tile of that walk after any tiles read, in range |
| `PomKeryx.WalkReacts` | src/pom_v4.rs:190-193 | rows that differ in one word draw different numbers in that walk |
| `PomKeryx.ProveAndCheck` | src/pom_v4.rs:326-386 | with the real mixing, and any file, hash and pair of kernels, the self-check accepts every built proof with the builder's final state; a proof is built exactly when there are 32 chunks |
| `PomProof.BuildProof` | src/pom_v4.rs:326-356 | over the sparse or dense index and the tensor table, on any kernel, the ping-pong walk returns exactly the walk's tiles, their paths and the folded root of the last state; it fails exactly when there is no whole tile |
| `PomProof.VerifyProof` | src/pom_v4.rs:359-386 | the verdict is that of the step-by-step judgement, errors and step numbers included |
| `PomProof.BuiltIsAccepted` | src/pom_v4.rs:359-386 | every proof the builder makes is accepted with the builder's final state, for any hash |
| `PomProof.JudgeExact` | src/pom_v4.rs:359-386 | under an ideal hash a proof is accepted exactly when all its tiles and paths are the builder's, with its final state, and otherwise the first differing step is the one reported |
| `PomProof.WalkSpelled` | src/pom_v4.rs:326-356 | what a built proof holds, from the bytes up: 256 tiles at the offsets drawn from the seed and from each tile's first 32 bytes, and the folded root of the last of the states they lead through |
| `PomProof.JudgeErrors` | src/pom_v4.rs:359-366 | when a proof has the wrong shape and when the weights are too small |
| `PomProof.SparseRootServes` | src/pom.rs:1568-1622 | whenever there is a whole tile, the index's R_T is the dense root |
| `PomProof.BuildAndCheck` | src/pom.rs:2168-2182 | indexing a file's tensors, building a proof on one kernel and checking it on another against the index's R_T succeeds and agrees on the final state, whatever the mixing |
| `PauseGate.RunKeepsInv` | src/miner.rs:20-92 | the gate's invariant holds after every run of guards, blocks, suspensions, replacements and worker exits |
| `PauseGate.PausedShowsNoJob` | src/miner.rs:128-140 | while a guard lives the current manager's open channel holds no job and its flag is up |
| `PauseGate.LastGuardReplays` | src/miner.rs:76-92 | when the last guard drops, the current manager's open channel holds its own newest pool job, or nothing when it was superseded or is no pool job |
| `PauseGate.NoStaleJob` | src/miner.rs:476-533 | a job on an open channel is the newest block that very manager was given, unless a suspension is on its way |
| `PauseGate.EarlyReturnIsSound` | src/miner.rs:511-521 | the early return of process_block(None) changes nothing workers see: an unsynced manager's channel is already empty and nothing is retained |
| `PauseGate.SuspensionIdles` | src/miner.rs:511-533 | a suspension whose send comes after the mutex is released still ends with idle workers, whatever came between |
| `PauseGate.SuspensionSendsIff` | src/miner.rs:494-528 | a suspension right after a block sends to the workers unless the block was a solo template that came during a pause |
| `PauseGate.ShownExactly` | src/miner.rs:76-140 | every manager's open channel holds its newest block exactly when that block is not withheld: it came outside every pause, and none has begun while the manager was current since, or it was replayed; so these are the replaced managers that show a job during a pause |
| `PauseGate.NoJobStartsInAPause` | src/miner.rs:476-510 | no step under a live guard puts a job on any channel, and the current manager's open channel shows none |
| `PauseGate.ReplacedManagerKeepsItsJob` | src/miner.rs:398-404 | a run in which a manager that was replaced but not dropped goes on showing its job during a pause |
| `PauseGate.GateState.RegisterManager` | src/miner.rs:385-404 | registration is the specified step and keeps the invariant |
| `PauseGate.GateState.BeginPause` | src/miner.rs:128-140 | beginning a pause is the specified step and keeps the invariant |
| `PauseGate.GateState.DropGuard` | src/miner.rs:76-92 | dropping a guard is the specified step and keeps the invariant |
| `PauseGate.GateState.ProcessBlock` | src/miner.rs:476-510 | a block is the specified step and fails exactly when it makes no mining state, which changes nothing, or no worker listens; the invariant is kept |
| `PauseGate.GateState.ProcessNone` | src/miner.rs:511-528 | the locked half of a suspension is the specified step and keeps the invariant |
| `PauseGate.GateState.FinishNone` | src/miner.rs:530-533 | the send of a suspension is the specified step and keeps the invariant |
| `PauseGate.GateState.DropManager` | src/miner.rs:326-341 | unregistering is the specified step and keeps the invariant |
| `ProofPermits.RunKeepsPool` | src/miner.rs:94-124 | over every interleaving of compare-exchange attempts the counter is the number of live permits and at most the limit |
| `VkLifetime.RunKeeps` | src/llama_engine_vk.rs:712-752 | the lifetime invariant holds after every run of walks, unloads, drains and loads |
| `VkLifetime.FreedAtMostOnce` | src/llama_engine_vk.rs:712-752 | no model is freed twice, nor while it is in the slot |
| `VkLifetime.NeverFreedInUse` | src/llama_engine_vk.rs:1053-1087 | from its poll to the end of its last dispatch a walk never holds a freed model |
| `VkLifetime.DrainedIsQuiet` | src/llama_engine_vk.rs:1124-1132 | after a drain returned Ok no walk runs or gets past its poll until that pause is lowered |
| `VkLifetime.TakenIsGone` | src/llama_engine_vk.rs:717-745 | a model an unload has taken is out of the slot and neither freed nor leaked yet |
| `VkLifetime.OnePlaceEach` | src/llama_engine_vk.rs:712-752 | in every reachable state each model ever loaded is in exactly one place: the slot, one unload's hands, freed once, or leaked |
| `VkLifetime.FatesIff` | src/llama_engine_vk.rs:712-752 | a model is leaked exactly by an unload that waited in vain or found the device suspect, and freed exactly by one that saw no walk left |
| `VkDispatch.RunV4` | src/llama_engine_vk.rs:914-955 | the loop covers a prefix of the batch in contiguous pieces modulo 2^64, each as large as it may be, ends at the first poll that says so, and with an honest driver returns the batch's first winner or the exact fruitless prefix |
| `VkDispatch.MiningWalk.MineV4` | src/llama_engine_vk.rs:901-955 | the same of a resident walk, which a stray status makes unhealthy for good: it is then never dispatched again |
| `VkDispatch.MiningWalk.MineV5` | src/llama_engine_vk.rs:893-899 | the same of v5, where only a failed dispatch makes it unhealthy |
| `VkDispatch.MiningWalk.Drop` | src/llama_engine_vk.rs:799-809 | the handle is freed once if no call on the walk ever failed, and never otherwise |
| `VkDispatch.Lifetime` | src/llama_engine_vk.rs:799-955 | over a walk's whole life, whatever is called on it: from the first failure on every call fails, nothing is dispatched and the drop frees nothing; without a failure it frees once |
| `VkDispatch.RunV5` | src/llama_engine_vk_pom_v5.rs:16-33 | the v5 loop has the same coverage, piece sizes and first-winner property, and tells an unavailable pad from a failed dispatch |
| `VkDispatch.MineShared` | src/llama_engine_vk.rs:1088-1119 | after any number of rounds: contiguous coverage, the fruitless prefix, and the first winner under an honest driver; a stray status is returned as an offset, so the nonce lies in the last dispatch exactly when the last status is an offset into it; a size or batch below 2^32 finishes within as many rounds as nonces |
| `VkDispatch.SharedWalkEndsIff` | src/llama_engine_vk.rs:1092-1118 | a fruitless, undisturbed shared walk ends exactly when the sub-dispatch size or the batch is below 2^32 |
| `VkDispatch.EmptyDispatches` | src/llama_engine_vk.rs:1106-1106 | with both at 2^32 every dispatch is empty and nothing is ever done |
| `VkDispatch.SharedSizeFits` | src/llama_engine_vk.rs:1092-1100 | the size is below 2^32 exactly when the override is or the engine reports such a capacity |
| `Gguf.Reader.SkipValue` | src/gguf.rs:94-126 | skipping a value gives the specified result and position, by one seek, which may go backwards, or a walk as deep as the stack allows |
| `Gguf.Reader.ReadHeader` | src/gguf.rs:141-204 | parsing gives the specified result and position, backward seeks included |
| `Gguf.Reader.ReadString` | src/gguf.rs:82-90 | strings of at most 64 MiB that are UTF-8, and no others |
| `Gguf.Reader.ReadDims` | src/gguf.rs:177-187 | first dimension and product, refusing 64-bit overflow |
| `GgufFormat.SkipsValue` | src/gguf.rs:94-126 | skipping an encoded value consumes exactly its bytes, nested arrays included, and captures unsigned integers |
| `GgufSeek.OneSeekIsWalk` | src/gguf.rs:104-120 | the one-seek skip of an array ends where walking its elements does whenever that walk succeeds |
| `GgufSeek.ArraySkipIff` | src/gguf.rs:104-120 | an array of fixed-size elements is skipped exactly when it ends before 2^63; otherwise the seek goes backwards, lands short or is refused, each exactly under its condition on the byte count modulo 2^64 |
| `GgufSeek.RewindingFile` | src/gguf.rs:116-117 | a 12-byte file whose array's skip ends where it began |
| `GgufSeek.ShortFile` | src/gguf.rs:116-117 | a 20-byte file whose array is skipped to a position inside it, while walking its elements fails |
| `GgufSeek.LoopingFile` | src/gguf.rs:116-121 | a 24-byte file on which every level of nesting meets the same array at the same position, so that no stack is deep enough |
| `GgufSeek.StackSuffices` | src/gguf.rs:94-126 | a file that is only read forwards needs one level of stack for every twelve bytes |
| `GgufSeek.DeeperAgrees` | src/gguf.rs:94-126 | a skip that fits one stack has the same result on every deeper one |
| `GgufFormat.ParsesHeader` | src/gguf.rs:141-204 | a file that starts with a header of the format parses to that header's tensors, with the parser at its exact end and the aligned data offset |
| `GgufParsed.ParsesIff` | src/gguf.rs:141-204 | a parse that succeeds without a metadata value running past the end of the file happens exactly on files that start with a header of the format |
| `GgufParsed.ValueBehind` | src/gguf.rs:94-126 | a value that was skipped inside the file is the encoding of a value, with that value's end and captured integer |
| `GgufFormat.FindsTensor` | src/gguf.rs:171-198 | under each name the map holds the last tensor of that name |
| `GgufMeaning.TensorListed` | src/gguf.rs:171-198 | in what the parser returns, that tensor has its own offset and the bytes of its blocks, modulo 2^64 |
| `GgufMeaning.ExactLength` | src/gguf.rs:195-195 | a byte length below 2^64 is exact: times the block's weights it is the product of the dimensions times the block's bytes |
| `GgufMeaning.LayoutIs` | src/gguf.rs:23-53 | the type table lists exactly the known GGML types, each block as its weights' bits plus its scales, minima and sums |
| `GgufMeaning.TensorsAre` | src/gguf.rs:171-198 | which tensors a header may hold, in numbers |
| `GgufMeaning.HeadersAre` | src/gguf.rs:141-156 | which headers there are, in numbers, and that they start with GGUF and their version |
| `GgufMeaning.ScalarsAre` | src/gguf.rs:94-126 | the widths of the scalar types by their names in the specification, and the types of texts and arrays |
| `GgufMeaning.DataStarts` | src/gguf.rs:158-203 | the data section starts at the first multiple, at or after the header's end, of the last positive general.alignment given as an unsigned 32- or 64-bit integer, or of 32 |
| `GgufMeaning.EndIs` | src/gguf.rs:214-220 | a tensor's end is counted exactly, up to 2^64 - 1 |
| `GgufFormat.LeastMultiple` | src/gguf.rs:200-203 | the data section starts at the least multiple of the alignment at or after the header's end |
| `GgufFormat.RequiredFileLen` | src/gguf.rs:214-220 | the furthest tensor end, or the data offset when there are no tensors |
| `Base58.Table` | src/ipfs.rs:56-60 | the table holds each alphabet character's digit and 0xff elsewhere |
| `Base58.MultiplyAdd` | src/ipfs.rs:66-75 | the in-place pass multiplies by 58 and adds a digit, with a carry of at most 57, and keeps the shortest form |
| `Base58.Base58btcDecode` | src/ipfs.rs:55-81 | the result is a zero per leading '1' and then the number in its shortest form |
| `Base58.DecodeKeepsValue` | src/ipfs.rs:55-81 | decoding preserves the numeric value |
| `Base58.StandardIff` | src/ipfs.rs:61-81 | the decoder agrees with the usual definition exactly on texts that are not all '1'; those get one zero byte too many |
| `Base58.CidV0ToMultihash` | src/ipfs.rs:44-53 | accepts exactly decodings of 34 bytes that start 12 20 |
| `Base58.MultihashInjective` | src/ipfs.rs:44-53 | no two different texts are accepted as the same multihash |
| `Base58.EveryMultihashHasText` | src/ipfs.rs:44-53 | every sha2-256 multihash is the decoding of some text |

## Left out

- Address.DecodeAddress: the panic of slicing inside a multi-byte character is a result of its own.
- Schnorr signatures (given a 32-byte digest, they cannot fail), Blake2b, BLAKE3 and SHA-256: foreign libraries, used only through injectivity.
- Weak memory: atomics are sequentially consistent in the models.
- Mutex poisoning: every lock is taken as if never poisoned.
- State files, debounced saving, logging, statistics and telemetry: no property of their own.
- HTTP, gRPC, Stratum, subprocess arguments and GPU drivers: represented by the choices they can make.
- Claim hold switch, pending totals and key or certificate files of the escrow module: only easy members.
- Version 5 pads, older proof versions and nonce cursors: not part of this model.
- CUDA, Metal and OpenCL miners: the Metal drain repeats the Vulkan lifetime pattern.
