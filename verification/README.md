# DOM wallet: verified model of the canonical scan, the slate transport and their neighbours

A Dafny 4.11 model of the parts of the DOM wallet where a small mistake loses money or history, with proofs about
every input, every run or every reachable state. `dafny verify dfyconfig.toml` checks the whole project.

**Canonical scan and recovery.** The wallet pages through a Core chain that may change between steps. Each page must be
contiguous and hash-linked; after a reorg the adapter looks for a safe anchor among at most 2,048 retained block anchors,
rewinds the wallet to it and replaces what came after. Behind the adapter sits the recovery state: owned outputs with
secrets and metadata, spent and maturity states, whole-history counters, allocation floors and the pruned window.

- `Blocks` and `BranchFacts` hold chains and what a branch says about a commitment; `StraightScan` is the reference: one
  straight scan of a branch.
- `RecoverySpec` gives the recovery operations on values, branch by branch; `RecoveryWallet` has the same operations as a
  class that changes its fields in place, proved equal to them.
- `PageApplication`, `PageExactness`, `RewindExactness` and `PagePartition` prove pages and rewinds exact; `ScanAdapter`
  models the adapter; `CursorWindow` proves what holds against any Core at all; `HonestCore`, `Transparency`,
  `Recoverability` and `HonestProgress` prove what holds against Cores that serve real chains; `Reconcile` holds the
  loops; `CatchUp` carries any run on to the tip and exhibits concrete runs.
- `SinkMemory` follows the sink through failing writes and reloads, `Merging` says what one merge does to any state, and
  `DurableFacts` what holds of every durable state whatever Core serves.
- `OptimisticCommit` is the bounded retry against a second writer.

The main result is `Transparency.ReorgTransparency`: after any run of failed, normal and reorg commits from an empty
restore, the durable state is that of one straight scan of Core's branch behind the last commit. Core is a value that
may be different at every step, and even between the anchor search and the replacement page inside one step:
`reconcile_reorg` links the page to a fresh lookup instead of the anchor it found, and the proof shows that the window
check in `WalletState::validate` is what then keeps a page of another branch out. Core may fail any call or serve pages
that are refused; only a page that ends up committed has to be true of the chain it is said to come from.

One expectation is false of the code, and the model keeps the code. The retained window is *not* always that of a
straight scan of the current branch: pruning looks at the highest block that was ever committed, so after a reorg that
shortens the branch fewer anchors are left (`CatchUp.ShrunkenRun` is a concrete run of the adapter that gets there).
`Recoverability.WindowMatchesStraightScan` says exactly when the two agree, and `Recoverability.LowestRetained` what is
retained in every case.

**Slate QR transport.** `QrText` and `QrFrame` are the text frame codec, `QrReassembly` the multipart reassembler, and
`QrStrays` its behaviour among scans that do not belong to the message.

**Bech32m.** `Bech32m` is the checksum on 32-bit words, `FiveBit` the regrouping of bytes with an accumulator that drops
high bits, `Segwit` the address encoder against the decoder of BIP-350, section "Bech32m", and `AddressVectors` the
published vectors that tie constants, symbols and regrouping to the standard.

**Smaller algorithms.** `Hashrate` (a pruned sample window), `NodeStart` (the node start loop) and `Amounts` (DOM amounts
as text). A comment in the start loop names two error codes that walk the ports; the code walks them for `DOM_NODE_RUN`
alone, and so does the model.

## What is assumed of chains

Theorems about owned outputs assume what consensus guarantees of a chain: on a branch commitments are unique, an input
spends an output created at or before its block, nothing is spent twice (`Consistent`); totals and maturity heights fit
`u64` and per-block output counts `u32` (`Representable`); over all blocks ever seen, equal hashes mean equal blocks
(`CollisionFree`). A committed page comes from a Core whose answers, where it answers, agree with one such chain
(`Truthful`). Statements that something succeeds need a Core that does answer (`Honest`; every chain has one).
`HonestProgress` adds that capsule domains agree with the coinbase flag and that the outputs fit the
state's limit (`Recordable`). Theorems in `CursorWindow` assume nothing about Core. The window may be rewound exactly
because its anchors are contiguous and the safe anchor is itself one of them; the depth constants play no part in that.

## Model

| member | source | states |
|---|---|---|
| `Transparency.ReorgTransparency` | crates/dom-wallet-core-restore/src/lib.rs:513-688 | over every run of steps from an empty state: owned outputs (value, height, state, secret, metadata) and counters are those of one straight scan of Core's branch behind the last commit, from genesis or the block above it to the cursor anchor, at the tip last observed; the window is that branch from the index fixed by its greatest length; only pages that are committed must be true, failed steps and anchor searches may be answered in any way |
| `Transparency.ReplayIsRun` | crates/dom-wallet-core-sync/src/lib.rs:521-549 | the history kept for the statement does not influence the states of the run |
| `Transparency.FirstCommit` | crates/dom-wallet-core-sync/src/lib.rs:552-602 | a first page or a genesis bootstrap leaves a state faithful to the chain its page was truthfully taken from, whatever other calls Core fails |
| `Transparency.NormalCommit` | crates/dom-wallet-core-sync/src/lib.rs:644-654 | a normal page above a cursor still on the chain always applies and extends the faithful branch |
| `Transparency.ReorgCommit` | crates/dom-wallet-core-sync/src/lib.rs:656-705 | a validated replacement leaves a state faithful to the page's chain, even if Core changed since the anchor was found |
| `Transparency.Joined` | crates/dom-wallet-domain/src/lib.rs:1589-1710 | the window check of `validate` forces a replacement page to join the block that was kept |
| `Transparency.LaterCommit` | crates/dom-wallet-core-sync/src/lib.rs:521-549 | every committing step from a faithful state ends in a faithful state at a block of the page's chain, whatever other calls Core fails |
| `Transparency.ObserveSettles` | crates/dom-wallet-core-sync/src/lib.rs:521-549 | one step, committing or not, keeps a run settled: the induction step of reorg transparency |
| `Transparency.RetainedHashes` | crates/dom-wallet-core-restore/src/lib.rs:484-493 | the sink knows the hash of exactly the retained heights, and it is the branch's |
| `PageExactness.ApplyBatchExact` | crates/dom-wallet-core-restore/src/lib.rs:557-688 | a page that extends the tracked branch always applies; afterwards the state is one straight scan of the longer branch |
| `PageApplication.MergeAllEffect` | crates/dom-wallet-core-restore/src/lib.rs:779-880 | merging new outputs adds exactly them, with the state their spends and maturity imply |
| `PageApplication.RecordBlocksEffect` | crates/dom-wallet-core-restore/src/lib.rs:603-680 | recording linked blocks appends their anchors, adds their totals and marks exactly the outputs they spend |
| `PageApplication.PruneAnchors` | crates/dom-wallet-core-restore/src/lib.rs:761-777 | sorting and pruning a contiguous window leaves its last 2,048 anchors |
| `PagePartition.PagesExact` | crates/dom-wallet-core-restore/src/lib.rs:557-688 | any sequence of pages is exact for the blocks it holds |
| `PagePartition.PartitionIndependence` | crates/dom-wallet-core-restore/src/lib.rs:557-688 | any two ways of cutting a segment into pages, with the same last tip height, give the same outputs, counters and window |
| `RewindExactness.RewindExact` | crates/dom-wallet-core-restore/src/lib.rs:942-994 | rewinding to a retained block leaves exactly the outputs, counters and window of the shorter branch |
| `RewindExactness.RewindOwned` | crates/dom-wallet-core-restore/src/lib.rs:942-994 | a rewind alone leaves one straight scan of the shorter branch at the new tip under maturity zero |
| `RewindExactness.RewindCounters` | crates/dom-wallet-core-restore/src/lib.rs:962-983 | the removed anchors are exactly the blocks above the safe height and no `saturating_sub` clips |
| `BranchFacts.TotalsCount` | crates/dom-wallet-core-restore/src/lib.rs:603-648 | the counters' totals are the numbers of outputs and of proof-only outputs on the branch, by position |
| `BranchFacts.OwnedAtIff` | crates/dom-wallet-core-restore/src/lib.rs:566-602 | a branch gives the wallet an output if and only if some block position holds it, as a capsule the wallet opens or as that block's own coinbase from before capsules; with its value, blinding, account, index, domain, height, block and position |
| `RewindExactness.MigrateRewindCommute` | crates/dom-wallet-core-restore/src/lib.rs:745-757 | migrating a state without counters before or after a rewind gives the same state |
| `Recoverability.LowestRetained` | crates/dom-wallet-core-restore/src/lib.rs:761-777 | the lowest retained height is exactly the greater of the first scanned height and 2,047 below the highest height ever committed |
| `Recoverability.RunRetains` | crates/dom-wallet-core-restore/src/lib.rs:603-777 | after every run the counters are whole-branch totals despite pruning, and the lowest retained height follows from the longest branch ever committed |
| `Recoverability.WindowMatchesStraightScan` | crates/dom-wallet-core-restore/src/lib.rs:761-777 | the window equals that of a straight scan if and only if the branch is at its greatest length or was never longer than the window |
| `CatchUp.ShrunkenRun` | crates/dom-wallet-core-restore/src/lib.rs:761-777 | a run of honest, written steps with 1,024-block pages to the tip of 2,050 blocks and then against the chain without its last block: 2,047 anchors are left where a straight scan of the same branch keeps 2,048 |
| `CatchUp.ReachTip` | crates/dom-wallet-core-sync/src/lib.rs:604-642 | any true run, whatever it has been through, is carried to the tip of any recordable chain in reach by honest steps |
| `CatchUp.NextStep` | crates/dom-wallet-core-sync/src/lib.rs:552-602 | one honest step below the tip commits, lands on the chain and comes closer to its tip |
| `Recoverability.SafeAnchorIsHighest` | crates/dom-wallet-core-sync/src/lib.rs:707-730 | over any search range: the anchor found is the highest retained common block, and the search fails only if there is none |
| `Recoverability.SafeAnchorIsForkPoint` | crates/dom-wallet-core-sync/src/lib.rs:707-730 | everything scanned at or below the anchor is on Core's chain and nothing above it is; failure is `ReorgBeyondBound` with no retained common block in reach |
| `Recoverability.RetainedForkIsFound` | crates/dom-wallet-core-sync/src/lib.rs:707-730 | a fork at or above the lowest retained height and within the search depth is always found |
| `Recoverability.AnchorFoundIff` | crates/dom-wallet-core-sync/src/lib.rs:707-730 | an anchor is found if and only if some block common with Core's chain is at or above the lowest retained height and within the search depth of the cursor |
| `Recoverability.LowestDecides` | crates/dom-wallet-core-restore/src/lib.rs:761-777 | some retained block is on Core's chain if and only if the lowest retained one is |
| `Recoverability.FirstBlockReplaced` | crates/dom-wallet-core-sync/src/lib.rs:707-730 | a reorg that replaces the first scanned block ends in `ReorgBeyondBound` at every depth; bootstrapped above genesis that is block 1, although genesis is common |
| `CursorWindow.StepAgrees` | crates/dom-wallet-core-sync/src/lib.rs:552-705 | every step, whatever Core answers, keeps the window contiguous, hash-linked and ending at the cursor anchor, and lowers no floor |
| `CursorWindow.RunAgrees` | crates/dom-wallet-core-restore/src/lib.rs:513-553 | cursor and window agree in every durable state of every run against an arbitrary Core |
| `CursorWindow.FloorsNeverForget` | crates/dom-wallet-core-restore/src/lib.rs:1021-1033 | at the end of a run every domain floor and the non-reuse floor are at least what they were after any step and at least every index that step committed, rewound or not |
| `DurableFacts.FloorsExact` | crates/dom-wallet-core-restore/src/lib.rs:1021-1033 | at the end of every run, against an arbitrary Core, each domain floor is exactly the greatest of what it was and the indices of that domain ever committed, and the non-reuse floor that of all |
| `DurableFacts.HighestIsMaximum` | crates/dom-wallet-core-restore/src/lib.rs:1021-1033 | the value meant is a maximum: at least every index, and attained |
| `DurableFacts.RunValidates` | crates/dom-wallet-domain/src/lib.rs:1589-1710 | in every durable state of every run: no commitment twice, secrets and metadata belong to records, coinbase metadata to the coinbase domain, no missing block hash, a linked window covered by the counters, within the limits |
| `DurableFacts.AnchorOnce` | crates/dom-wallet-core-restore/src/lib.rs:606-648 | a new height adds its anchor and totals within 64 bits, the same block again changes nothing, another block at that height is a conflict |
| `DurableFacts.DoubleSpendRefused` | crates/dom-wallet-core-restore/src/lib.rs:649-672 | a page that spends a commitment twice is refused, whoever owns it |
| `DurableFacts.SpentStays` | crates/dom-wallet-core-restore/src/lib.rs:649-672 | an input marks exactly the record it spends, and is refused exactly if that was spent at another height |
| `CursorWindow.ApplyBatchKeeps` | crates/dom-wallet-core-restore/src/lib.rs:779-792 | a successful page raises floors over every index it saw and keeps the cursor and generation |
| `CursorWindow.RewindWindow` | crates/dom-wallet-core-restore/src/lib.rs:936-994 | a rewind to a retained anchor leaves a linked window ending there and touches no floor |
| `CursorWindow.PageShape` | crates/dom-wallet-core-sync/src/lib.rs:773-909 | an accepted page is linked at the requested height and its cursor is its last block; an empty one has a cursor only at genesis |
| `CursorWindow.PlanShape` | crates/dom-wallet-core-sync/src/lib.rs:521-602 | whatever is decided above an agreeing cursor and window continues the window or replaces what follows a retained anchor, in at most 1,024 blocks, with the last block as cursor |
| `CursorWindow.PlanConfirmed` | crates/dom-wallet-core-sync/src/lib.rs:521-705 | whatever Core answers, nothing is planned under a tip or cursor Core has not confirmed; each page joins the cursor or what Core has below it; on the main network a first page rests on the pinned genesis |
| `CursorWindow.OtherErrorsPass` | crates/dom-wallet-core-sync/src/lib.rs:521-549 | a cursor check that fails for another reason than a reorg ends the step with that error |
| `ScanAdapter.CheckBlocksIff` | crates/dom-wallet-core-sync/src/lib.rs:797-836 | the block loop accepts exactly the contiguous, hash-linked, canonical continuations that do not overflow |
| `ScanAdapter.CheckBlocksLoop` | crates/dom-wallet-core-sync/src/lib.rs:797-836 | the loop over running height and hash gives the specified verdict, first fault first |
| `ScanAdapter.PageAcceptedIff` | crates/dom-wallet-core-sync/src/lib.rs:773-909 | for arbitrary Core answers a page is accepted if and only if it is within the limit, Core has its tip, its blocks are linked to the anchor's or Core's hash below, its continuation is its last block's exactly below the tip, and Core accepts its cursor; what is accepted is the page itself |
| `ScanAdapter.CursorValidIff` | crates/dom-wallet-core-sync/src/lib.rs:500-512 | a cursor is valid if and only if its hash is not zero and Core accepts it; a refusal by Core is a detected reorg |
| `ScanAdapter.FindSafeAnchor` | crates/dom-wallet-core-sync/src/lib.rs:707-730 | the downward loop returns the anchor of the recursive search |
| `ScanAdapter.SafeAnchorExact` | crates/dom-wallet-core-sync/src/lib.rs:707-730 | for arbitrary Core answers the search returns the highest matching retained height in its range, the first error met on the way down, or that there is none |
| `HonestCore.BranchIsSlice` | crates/dom-wallet-core-sync/src/lib.rs:707-730 | a scanned branch whose last block is on a chain is a slice of that chain |
| `HonestCore.TruthfulScanFrom` | crates/dom-wallet-core-sync/src/lib.rs:452-472 | an accepted page from a Core whose answers are true, if it answers, is the slice of its chain at the requested height, with the chain's tip |
| `HonestCore.TruthfulScanNext` | crates/dom-wallet-core-sync/src/lib.rs:474-497 | an accepted page after a cursor is the slice above it, and the cursor is on the chain |
| `HonestCore.HonestScanNext` | crates/dom-wallet-core-sync/src/lib.rs:474-497 | from a Core that also answers, the page after a cursor is empty exactly at the tip |
| `HonestCore.HonestIsTruthful` | crates/dom-wallet-core-sync/src/lib.rs:446-519 | a Core that answers every call is in particular truthful |
| `HonestCore.ServedAccepted` | crates/dom-wallet-core-sync/src/lib.rs:773-909 | validation never refuses a page an honest Core serves |
| `HonestCore.EveryChainHasACore` | crates/dom-wallet-core-sync/src/lib.rs:446-519 | every hash-linked chain from genesis is served by some honest Core, so the honesty assumption never excludes a chain |
| `HonestProgress.FaithfulValidates` | crates/dom-wallet-domain/src/lib.rs:1589-1710 | a faithful state passes `validate` |
| `HonestProgress.FirstStepCommits` | crates/dom-wallet-core-sync/src/lib.rs:552-602 | the first step against an honest Core commits |
| `HonestProgress.NormalStepCommits` | crates/dom-wallet-core-sync/src/lib.rs:521-549 | a step below the tip commits |
| `HonestProgress.ReorgStepCommits` | crates/dom-wallet-core-sync/src/lib.rs:656-705 | a step off the chain with its fork point in reach commits |
| `RecoveryWallet.WalletRecord.MergeRestoredOutput` | crates/dom-wallet-core-restore/src/lib.rs:779-880 | the in-place merge is the specified one: floors first, then a known record or a new one |
| `RecoveryWallet.WalletRecord.MergeKnown` | crates/dom-wallet-core-restore/src/lib.rs:793-854 | a record with the commitment is confirmed unchanged, adopted with the new height and state if pending and identical, or refused |
| `RecoveryWallet.WalletRecord.AddOutput` | crates/dom-wallet-core-restore/src/lib.rs:855-880 | a new record, secret and metadata under a fresh id |
| `Merging.MergeRecords` | crates/dom-wallet-core-restore/src/lib.rs:779-880 | in any state a successful merge leaves a record of exactly this recovery (commitment, value, height, blinding, account, index, domain, block, position), touches no other record and raises the floors to its index; repeating it at any tip changes nothing |
| `Merging.RefusedIff` | crates/dom-wallet-core-restore/src/lib.rs:793-838 | a merge is a conflict if and only if the commitment is held by a record that is neither the same recovery nor an identical unreserved pending one; the only other error is an overflowing maturity |
| `Merging.Adopted` | crates/dom-wallet-core-restore/src/lib.rs:822-854 | an adopted record gets the height and state of the recovery and keeps everything else |
| `Merging.Added` | crates/dom-wallet-core-restore/src/lib.rs:855-880 | an unknown commitment becomes a new record under an unused id |
| `Merging.MergedThenRewound` | crates/dom-wallet-core-restore/src/lib.rs:942-994 | a rewind below its height removes a merged output altogether, also an adopted one |
| `RecoveryWallet.WalletRecord.MergeList` | crates/dom-wallet-core-restore/src/lib.rs:557-602 | the merge loop is the specified fold and stops at the first conflict |
| `RecoveryWallet.WalletRecord.MigrateCounters` | crates/dom-wallet-core-restore/src/lib.rs:745-757 | the summing loop sets the counters to the window's totals unless they were set already |
| `RecoveryWallet.WalletRecord.RecordPage` | crates/dom-wallet-core-restore/src/lib.rs:603-680 | the block loop with its input marking is the specified recording |
| `RecoveryWallet.WalletRecord.PruneWindow` | crates/dom-wallet-core-restore/src/lib.rs:761-777 | the window becomes its pruned form |
| `RecoveryWallet.WalletRecord.RefreshMaturity` | crates/dom-wallet-core-restore/src/lib.rs:903-934 | the loop over outputs gives every output its specified maturity state |
| `RecoveryWallet.WalletRecord.ApplyPage` | crates/dom-wallet-core-restore/src/lib.rs:557-688 | the whole page application in place equals the specification, on success and on failure |
| `RecoveryWallet.WalletRecord.RewindTo` | crates/dom-wallet-core-restore/src/lib.rs:942-994 | the rewind in place equals the specification |
| `RecoveryWallet.RestoreSink.Commit` | crates/dom-wallet-core-restore/src/lib.rs:513-553 | success writes the prepared state under the next generation; failure leaves the directory untouched and memory reloaded from it, or lost exactly when the reload fails; success exactly when preparation and storage succeed, and the error says which failed |
| `SinkMemory.LostIff` | crates/dom-wallet-core-restore/src/lib.rs:513-553 | over every run of commits the memory is lost if and only if some commit fails while its reload fails as well |
| `SinkMemory.LostStays` | crates/dom-wallet-core-restore/src/lib.rs:513-553 | a lost memory stays lost: nothing is committed and every request is refused |
| `SinkMemory.MemoryKept` | crates/dom-wallet-core-restore/src/lib.rs:513-553 | while reloads succeed the sink remembers the directory through every run, which has taken exactly the requests that could go through |
| `SinkMemory.RefusedThenWritten` | crates/dom-wallet-core-restore/src/lib.rs:533-552 | a refused write followed by the same request with a good one commits as if it had never been refused |
| `Reconcile.ValidateAndMap` | crates/dom-wallet-core-sync/src/lib.rs:773-909 | page validation in the source's order of checks; accepted exactly when acceptable, with Core's tip, linked at the requested height and with the last block as cursor, or empty with a cursor only at genesis |
| `Reconcile.PlanReorg` | crates/dom-wallet-core-sync/src/lib.rs:656-705 | anchor search, replacement page and the empty-replacement case; what is planned replaces what follows a retained anchor |
| `Reconcile.PlanStep` | crates/dom-wallet-core-sync/src/lib.rs:521-602 | what a step decides, for both reconcile entries; above an agreeing cursor and window it continues the window or replaces what follows a retained anchor |
| `Reconcile.ReconcileOnce` | crates/dom-wallet-core-sync/src/lib.rs:521-602 | one step moves the durable state exactly as specified and commits exactly when specified; it reports a reorg exactly for an invalid cursor, with the anchor found, and otherwise a page; an error is the plan's, the preparation's or the storage's; memory survives if reloads do |
| `Reconcile.CommitAdvances` | crates/dom-wallet-core-sync/src/lib.rs:604-642 | a commit lands on the chain, and strictly higher if the cursor was on it |
| `Reconcile.ReconcileToTip` | crates/dom-wallet-core-sync/src/lib.rs:604-642 | against a fixed honest Core the loop terminates; success means cursor = tip and a straight scan of Core's chain up to it, at the present tip or, if nothing was committed, at the tip seen with the last commit; at most one reorg commits; it succeeds whenever writes do and a common block is retained within the search depth |
| `Reconcile.ReconcileTurn` | crates/dom-wallet-core-sync/src/lib.rs:609-641 | one turn ends at the tip or commits; a commit leaves the cursor on the chain and higher if it was on it, without a second reorg |
| `OptimisticCommit.CommitWithRetry` | crates/dom-wallet-core-sync/src/lib.rs:732-763 | with another writer at every point: success applies the batch once on the state durable just before, failure not at all, nobody's write is lost, at most five attempts; it fails only if no attempt in the bound could go through, with the stage that failed |
| `OptimisticCommit.Sink.Commit` | crates/dom-wallet-core-sync/src/lib.rs:256-299 | one attempt goes through exactly when the loaded generation is the durable one and nothing fails |
| `OptimisticCommit.Sink.RecoverConflict` | crates/dom-wallet-core/src/lib.rs:4123-4138 | only a generation conflict is recovered, by reloading |
| `OptimisticCommit.NeverLater` | crates/dom-wallet-core-sync/src/lib.rs:732-763 | once an attempt is neither quiet nor retried no later attempt could have gone through |
| `QrFrame.FrameRoundTrip` | src-tauri/src/lib.rs:4665-4754 | every valid frame encodes and parses back to itself, the input limit included |
| `QrFrame.ParserAcceptsExactlyTheImage` | src-tauri/src/lib.rs:4689-4754 | the texts the parser accepts are exactly the encoder's outputs, with the frame they came from |
| `QrFrame.FrameTextFits` | src-tauri/src/lib.rs:4665-4696 | no frame text is longer than 1,156 characters, below the limit of 1,792 |
| `QrFrame.FieldsDenote` | src-tauri/src/lib.rs:4676-4686 | what each of the nine dotted fields of an encoded frame denotes |
| `QrFrame.ParsedBounds` | src-tauri/src/lib.rs:4665-4697 | version 1, a part below at most 2,731, a length up to 2,097,280, a payload up to 768 bytes and a text up to 1,792 characters in every accepted frame |
| `QrText.DecimalRoundTrip` | src-tauri/src/lib.rs:4676-4686 | decimal fields survive printing and parsing |
| `QrText.HexRoundTrip` | src-tauri/src/lib.rs:4726-4730 | hexadecimal digests survive |
| `QrText.Base64RoundTrip` | src-tauri/src/lib.rs:4731-4734 | unpadded base64url payloads survive; sections 5 and 8 of RFC 4648 |
| `QrText.Base64Canonical` | src-tauri/src/lib.rs:4731-4734 | a text the strict decoder accepts is the encoding of what it decodes to |
| `QrText.Base64Vectors` | src-tauri/src/lib.rs:4676-4686 | published base64 vectors and the two symbols of the URL alphabet; sections 5 and 10 of RFC 4648 |
| `QrText.HexVectors` | src-tauri/src/lib.rs:4676-4686 | hexadecimal in lower case, high digit first |
| `QrText.DecimalVectors` | src-tauri/src/lib.rs:4676-4686 | decimal numbers, highest digit first, without leading zeros |
| `QrText.SplitJoin` | src-tauri/src/lib.rs:4697-4737 | dotted fields split back into themselves |
| `QrReassembly.EncodedFrames` | src-tauri/src/lib.rs:3745-3792 | every nonempty text within the limit is encoded into frames that parse to its parts |
| `QrReassembly.EncodedIff` | src-tauri/src/lib.rs:3745-3770 | a text is encoded exactly when it is not empty and within the limit |
| `QrReassembly.AnyOrder` | src-tauri/src/lib.rs:3800-3868 | frames in any order with any repetitions: all accepted, incomplete until the last distinct one, then exactly the text |
| `QrReassembly.NextFrame` | src-tauri/src/lib.rs:3800-3868 | one more frame, new or duplicate, completes the text exactly when no part is missing |
| `QrStrays.AnyOrderAmongStrays` | src-tauri/src/lib.rs:3800-3868 | own frames in any order with repetitions, among unreadable scans, frames of other messages, replays and conflicting duplicates: own frames accepted, strays refused, and exactly the text at the end |
| `QrStrays.StrayRefused` | src-tauri/src/lib.rs:3800-3838 | a harmless stray is refused and leaves the state as it was |
| `QrStrays.ForeignIsHarmless` | src-tauri/src/lib.rs:3808-3828 | once a part has arrived, any text that does not parse to a frame with the text's digest is harmless |
| `QrStrays.OtherRefused` | src-tauri/src/lib.rs:3808-3828 | a frame of another message is refused and changes nothing |
| `QrStrays.DuplicateRefused` | src-tauri/src/lib.rs:3829-3838 | a duplicate with another payload is refused and changes nothing |
| `QrStrays.NothingLost` | src-tauri/src/lib.rs:3800-3868 | whatever a frame is and however it is answered, the active message keeps its identity and every part; at most the frame's own part is added; digests are only recorded on success |
| `QrStrays.FailureRepeats` | src-tauri/src/lib.rs:3839-3862 | a full message that fails its checks stays and fails again until it is cleared |
| `QrStrays.ForeignFirst` | src-tauri/src/lib.rs:3810-3828 | a frame of another message that comes first holds the place: every frame of the text is then refused |
| `QrReassembly.CompletedAtMostOnce` | src-tauri/src/lib.rs:3800-3868 | over every run of arbitrary scans and clears a returned text has the declared length and digest and the slate form, and no digest is returned twice |
| `QrReassembly.AcceptKeeps` | src-tauri/src/lib.rs:3800-3868 | a completed text has the declared length and digest and was not completed before |
| `QrReassembly.PrefixSpelt` | src-tauri/src/lib.rs:3856-3860 | the prefix a completed text must have spells `DOMSLATE4.` |
| `QrReassembly.AssembleParts` | src-tauri/src/lib.rs:3840-3847 | the loop over part numbers joins them in order or reports a missing one |
| `QrReassembly.SlateQrReassembler.DecodeFrame` | src-tauri/src/lib.rs:3800-3868 | the stateful decoder, failures included, moves its state and answers as specified |
| `QrReassembly.SlateQrReassembler.Clear` | src-tauri/src/lib.rs:4656-4662 | only the active message is dropped; completed digests stay |
| `Bech32m.PolymodLoop` | crates/dom-wallet-multichain/src/bech32m.rs:12-31 | the register updated generator word by generator word is the specified fold |
| `Bech32m.StepLinear` | crates/dom-wallet-multichain/src/bech32m.rs:21-29 | one step is linear over GF(2) in register and value |
| `Bech32m.StepInjective` | crates/dom-wallet-multichain/src/bech32m.rs:21-29 | one step is injective on 30-bit registers |
| `Bech32m.BurstDetected` | crates/dom-wallet-multichain/src/bech32m.rs:12-31 | any change confined to six consecutive values, at any position of a sequence of any length, changes the result |
| `Bech32m.SingleErrorDetected` | crates/dom-wallet-multichain/src/bech32m.rs:12-31 | changing any single value at any position of any length changes the result |
| `Bech32m.ChecksumVerifies` | crates/dom-wallet-multichain/src/bech32m.rs:70-83 | values followed by the six emitted groups always give the constant |
| `Bech32m.ChecksumUnique` | crates/dom-wallet-multichain/src/bech32m.rs:70-83 | no other six groups do |
| `FiveBit.ToFiveBit` | crates/dom-wallet-multichain/src/bech32m.rs:46-62 | for every input length the loop, dropping bits above the word, emits the base-32 digits of the padded number the bytes denote |
| `FiveBit.TakeByte` | crates/dom-wallet-multichain/src/bech32m.rs:50-52 | shifting a byte into the unmasked word keeps every pending bit |
| `FiveBit.Lossless` | crates/dom-wallet-multichain/src/bech32m.rs:46-62 | ceil(8n/5) groups below 32 with zero padding that regroup to the original bytes |
| `FiveBit.Canonical` | crates/dom-wallet-multichain/src/bech32m.rs:46-62 | groups with zero padding are exactly the regrouping of the bytes they hold |
| `Segwit.HrpExpand` | crates/dom-wallet-multichain/src/bech32m.rs:33-43 | the two loops emit high parts, a zero and low parts |
| `Segwit.ExpandedInjective` | crates/dom-wallet-multichain/src/bech32m.rs:33-43 | the expansion keeps every bit of the human-readable part |
| `Segwit.EncodeSegwitV1` | crates/dom-wallet-multichain/src/bech32m.rs:65-86 | the emitted text is the address of the program, which the published vectors pin |
| `AddressVectors.TaprootVector` | crates/dom-wallet-multichain/src/bech32m.rs:65-86 | the published taproot address of the secp256k1 generator under `bc` |
| `AddressVectors.DescendingVector` | crates/dom-wallet-multichain/src/bech32m.rs:100-119 | the published text of all 32 groups under `abcdef`, which fixes every symbol, the generator words and the constant |
| `AddressVectors.ShortestVector` | crates/dom-wallet-multichain/src/bech32m.rs:12-31 | the published shortest text `a1lqfn3a` |
| `Segwit.AddressExact` | crates/dom-wallet-multichain/src/bech32m.rs:65-86 | the standard's decoder (90 characters, one case, visible nonempty human-readable part, last separator, checksum, version 1, zero padding) reads a text as a part and a program if and only if the part is allowed and the text is the emitted address or its capitals |
| `Segwit.EmittedIsStandard` | crates/dom-wallet-multichain/src/bech32m.rs:65-86 | the emitted text is an address of the standard exactly when the human-readable part is visible, without capitals and 1 to 30 characters long, which the encoder does not check |
| `Segwit.ParseAddressExact` | crates/dom-wallet-multichain/src/bech32m.rs:65-86 | without the limits on length, case and human-readable part, reading inverts the encoder and accepts nothing else |
| `Segwit.SingleCharacterRefused` | crates/dom-wallet-multichain/src/bech32m.rs:65-86 | replacing any one character after the separator, even by the separator, makes a reader refuse the text, whatever the human-readable part |
| `Segwit.BurstRefused` | crates/dom-wallet-multichain/src/bech32m.rs:65-86 | replacing up to six consecutive characters after the separator, by text that differs in more than case, makes the standard's decoder refuse the address |
| `Segwit.GroupOfSymbol` | crates/dom-wallet-multichain/src/bech32m.rs:7 | the character set is injective and does not hold the separator |
| `Hashrate.WindowRefinesHistory` | src-tauri/src/lib.rs:702-729 | under a clock that never goes backwards every reported rate is the one from the latest sample of the whole history at least 30 s old, or the oldest; at most 31 samples are kept; the subtraction never clips |
| `Hashrate.HashrateWindow.Record` | src-tauri/src/lib.rs:702-729 | the queue and the reported rate after every call, for any clock, and the refinement for a monotone one |
| `Hashrate.DropOld` | src-tauri/src/lib.rs:718-720 | the pruning loop is the specified one |
| `Hashrate.NextRetained` | src-tauri/src/lib.rs:702-729 | one call keeps the queue a suffix of the history whose front covers whatever was dropped |
| `Hashrate.HistoryExact` | src-tauri/src/lib.rs:702-716 | the history holds exactly the calls of the sampling: each at least a second after the one before and not below it, every call in between earlier and not below, starting at the first call or one that fell below the sample before it |
| `Hashrate.SamplingUnique` | src-tauri/src/lib.rs:702-716 | there is only one such sampling |
| `Hashrate.SamplingExists` | src-tauri/src/lib.rs:702-716 | and there is one |
| `NodeStart.StartNode` | src-tauri/src/lib.rs:2524-2611 | the start loop ends for every run of answers, after the specified attempts with the specified ending |
| `NodeStart.RetryDecreases` | src-tauri/src/lib.rs:2565-2607 | every retry uses up one doubling, one fallback port or the leaf |
| `NodeStart.StartBounded` | src-tauri/src/lib.rs:2503-2611 | at most 24 attempts whatever happens |
| `NodeStart.MapSizes` | src-tauri/src/lib.rs:2565-2574 | the map never shrinks, never passes 64 GiB, and a stored size is accepted on the next start |
| `NodeStart.ListenersNotRevisited` | src-tauri/src/lib.rs:2591-2594 | a mesh listener once left is never used again |
| `NodeStart.LeafIsLastResort` | src-tauri/src/lib.rs:2595-2601 | loopback is reached only after every mesh port was tried |
| `NodeStart.FailsOnlyWhenExhausted` | src-tauri/src/lib.rs:2575-2607 | a start gives up only on a failure that neither growth nor another listener could answer |
| `NodeStart.EndingExact` | src-tauri/src/lib.rs:2525-2607 | attached, rejected and failed exactly after such a last answer, cancelled before an attempt |
| `NodeStart.MovesJustified` | src-tauri/src/lib.rs:2565-2601 | between two attempts exactly one thing changes: the map doubles up to 64 GiB after a full map, or, while the port is taken, the listener moves to the next port or at last to the leaf |
| `NodeStart.WalkedInOrder` | src-tauri/src/lib.rs:2591-2594 | a port is tried only after every port before it in the order of candidates |
| `NodeStart.CandidatesExact` | src-tauri/src/lib.rs:4961-4969 | the stored port first, then the standard ports without it, no port twice |
| `NodeStart.InitialFresh` | src-tauri/src/lib.rs:4999-5005 | the fallback ports are distinct and do not contain the failed port |
| `NodeStart.InitialExact` | src-tauri/src/lib.rs:4904-4917 | where a start begins: the stored size within 64 MiB to 64 GiB or the platform default, the eleven standard ports, and ports and leaf for a mesh listener alone |
| `Amounts.PrintParse` | frontend/status.js:393-409 | parsing a printed amount without its unit gives it back for 1 to 2^53-1; zero is refused as not positive |
| `Amounts.ParseExact` | frontend/status.js:402-409 | a text is accepted with result n if and only if, trimmed, it spells n noms as a decimal with at most eight places and 0 < n <= 2^53-1 |
| `Amounts.RefusedExact` | frontend/status.js:402-409 | a text is malformed, not positive or too large exactly when it spells no amount, zero, or more than 2^53-1 noms |
| `Amounts.TrimExact` | frontend/status.js:403 | trimming returns exactly the text between two maximal runs of white space |
| `Amounts.PrintedExactly` | frontend/status.js:393-400 | printing is refused exactly outside the safe integers; a printed amount has eight places and ends in its unit |
| `Amounts.PrintedVectors` | frontend/status.js:393-400 | the printed forms of one coin, one nom and nothing |
| `Amounts.SameNomsSameValue` | frontend/status.js:402-409 | two accepted texts parse equal exactly when they denote the same decimal value |
| `Amounts.ParsePrint` | frontend/status.js:393-409 | printing what was parsed denotes the value of the text |
| `Amounts.MatchExact` | frontend/status.js:403 | the greedy match accepts exactly the texts of the pattern, with their two parts |

## Left out

- Cryptography and foreign decoders: which outputs a block gives the wallet (capsules, legacy coinbase, blindings) is data
  of the block; SHA-256 is an arbitrary function; commitments and hashes are opaque values.
- Account creation and its cap: accounts go by their recovery number; record ids are a fresh counter instead of UUIDs.
- Transaction rollback and scriptless reservations: restore starts from an empty output set. An adopted pending output is
  not returned to pending by a rewind, neither in the source nor here.
- The `Invalid` and `ReorgInvalidated` cursor states, identity comparison and the byte encoding of cursors: the anchor
  stands for the cursor.
- Full-fidelity projection checks of blocks (crates/dom-wallet-core-sync/src/lib.rs:1133-1363): equality tests over
  foreign decoders.
- Restore staging, publication, busy retries, backoff sleeps, file formats, threads, locks and cancellation races: input
  and output or scheduling; the node start model takes every answer, cancellation included, from an arbitrary run.
- Kernel evidence and expiry in the production sink: `OptimisticCommit` reduces a batch to one write in a log.
- UUID spellings other than 32 hexadecimal digits: the canonical comparison refuses them anyway; a message that is not
  UTF-8 and one that is not ASCII share one error.
- Rounding of the hashrate to a double: the rate is a real number.
- Text beyond bytes: the human-readable part of an address is its bytes as characters.
- `Bech32m.BurstDetected`: detection of errors spread wider than six groups (the code's minimum distance) is not claimed.
- `choose_mesh_listen_address`, the HTTP chain client, fee policy mapping, sidecar, updater, readiness tables and the rest
  of the front end would only add easy members.
