# Verified model of the silent-payments oracle

The oracle indexes Bitcoin blocks for BIP-352 scanners. This project models its hard core in Dafny and proves
properties of it: the byte-keyed ordered store and its redundant indexes, the one-iterator reads, the batched
writer, the concurrent sync pipeline with its reorg backfill and gap repair, the parallel wallet scan, and the
streamed JSON responses. `dafny verify dfyconfig.toml` checks everything.

How the pieces fit:

- **Store.** `ByteOrder`, `Keys`, `Encoders` and `Pebble` give the byte order, the ten key families, the code that
  builds keys and scan bounds in a buffer, and Pebble as an ordered map with bounded iterators (a position moved by
  First, Next, SeekGE and Last) and batches. `Blocks` says which rows a block calls for, `Attach` writes them to a
  batch as the store does, and `Runs` studies the store after any sequence of blocks.
- **Reads.** `Reads` has the plain lookups, `SpentViews` those of the spent outputs and outpoints of a block. `FastReads` and `FastTweaks` have the sorted, early-stopping walks;
  `FetchEquivalence` and `FastTweaks` compare them with one lookup per transaction. `ChainViews`, `CutThrough`,
  `CutThroughViews`, `ComputeIndexes` and `ComputeViews` show when the redundant indexes agree.
- **Writer.** `Writer` is the batched writer as a state machine of one calling thread and any number of background
  commits; `Store` is the object itself, each of whose methods is proved to be a run of that machine. `Durability` puts
  a pipeline run and a writer run together: what a nil return of a sync leaves in the database.
- **Sync.** `Pipeline` interleaves launcher, pulls, workers, writer and caller; `Backfill`, `Gaps` and `Indexer` are
  the recursive reorg walk, the integrity check and the selection of outputs and inputs.
- **Serving.** `ReceiverScan`, `ComputeScan`, `WorkQueue` (on `PowersOfTwo`) and `ParallelScan` are the wallet scan,
  alone and on a shared queue; `ScanViews` says what it finds in terms of the applied blocks. `Json`, `Stream` and
  `Printers` are the streamed documents, `Readers` a client's reader of them that is independent of the printers, and
  `StreamViews` what that client reads.
- **Witnesses.** Concrete inputs for each place below where the code falls short of what one might expect.

Reads build their scan bounds with the methods of `Encoders`. Its single-key methods and
`WorkStealingQueue.GetNextRange` are end results: writes and point lookups name keys by `Keys.Encode`, which those
methods are proved to produce, and the `Fetch` step of `ParallelScan` is that one atomic increment.

Curve arithmetic, script templates, the node, the JSON encoder of the standard library and the network are
parameters: functions that may fail, nondeterministic choice, or a connection that stops at any byte.

Where the code is narrower than its comments or than what one might expect, the code is modelled and the exact
condition is proved:

- Scan bounds are exclusive above, so the key that is the bound is never met (`Keys.BoundsExact`). `fetchOutputs`
  has no such bound per transaction, so it agrees with `OutputsForTx` exactly when no listed transaction has an
  output at index 0xFFFFFFFF (`FetchEquivalence.FetchMatchesReferenceIff`, failing at `Witnesses.FetchDiffers`).
- `collectAndWrite` counts, rotates and only then attaches. A batch opened that way holds one block more than its
  counter says, and `FlushBatch` does nothing at counter zero: it leaves a block exactly then
  (`Writer.FlushExact`, `StoreObject.Store.FlushBatch`). Counted from a fresh store or from the last flush, that is
  after a positive multiple of 201 applies, or none with a block already left (`Writer.FlushLeavesIff`, failing at
  `Writer.FlushCanLeave`). A synchronous flush does commit what it takes (`Writer.SyncFlushCommits`), but a sync that
  returns through it does not wait for the background commits before it, so a height is indexed at the return exactly
  when its block is with none of those and not in the active batch (`Durability.IndexedIffCommitted`). A nil return
  of any sync of new heights means all of them are in the database, once the commits are done, exactly when their
  number is zero or no multiple of 201 (`Durability.SyncDurableIff`, failing at `Durability.SyncCanLose`).
- `Close` sets the closed flag before it flushes, and `commitBatch` returns early on that flag: the active batch is
  lost, and nothing is lost exactly when it is empty (`Writer.CloseKeepsRotated`, failing at `Writer.CloseCanLose`).
- A hash stays in the hash index for good, so "on best chain" is exact exactly on runs without two blocks at one
  height (`ChainViews.BestChainExactIff`, failing at `Witnesses.OrphanStays`), and "spent on best chain" exactly when
  every spend by an orphaned block is matched by one on the best chain (`ChainViews.SpentOnBestIff`, failing at
  `Witnesses.OrphanSpends`).
- `TweaksForBlockCutThroughDustLimit` ignores its limit; it gives the dust-limited answer exactly when no transaction
  of the block has only dust left (`CutThroughViews.DustLimitIgnoredIff`, failing at `Witnesses.DustReported`).
- `identifyGapRanges` never closes a trailing gap, so it finds every missing height exactly when the last height is
  indexed (`Gaps.FindsAllMissingIff`, failing at `Witnesses.TrailingGap`).
- Neighbouring work ranges share a height, so rows there are scanned twice (`WorkQueue.Coverage`). A parallel scan of
  a single height gets no range at all. A step that wraps is followed by ranges that start again from the bottom, so
  the scan then goes from the lowest of those to the end height (`ParallelScan.ParallelScansFromLowest`). Parallel and
  sequential scan agree exactly when a single height has nothing to report and the heights below the start that a
  wrapped queue goes through have nothing new (`ParallelScan.ParallelAgreesIff`, failing at
  `Witnesses.SingleHeightMisses` and at `Witnesses.WrapFindsMore` with the ranges of `Witnesses.WrapGoesBelow`).
- The queue's loop counts in 32 bits. It ends exactly when the end height is at most the last 32-bit number congruent
  to the start modulo the largest power of two in the range size (`WorkQueue.StopsIff`); with the default range size
  just below the top height it never does (`WorkQueue.WrapNeverStops`). It makes the consecutive ranges exactly when no
  step wraps (`WorkQueue.QueueIffNoWrap`, `WorkQueue.NoWrapIff`).

## Model

| member | source | states |
|---|---|---|
| `ByteOrder.BE32Order` | internal/database/dbpebble/encoders.go:102-107 | Big-endian bytes compare as the numbers they encode. |
| `ByteOrder.LEByte` | internal/database/dbpebble/encoders.go:205-225 | Byte i of a little-endian number is its i-th base-256 digit, lowest first. |
| `Keys.EncodeInjective` | internal/database/dbpebble/encoders.go:20-168 | Two keys have the same bytes if and only if they are the same key: each key function is injective and different prefixes never collide. |
| `Keys.EncodeOrder` | internal/database/dbpebble/encoders.go:20-168 | Byte order of encoded keys is prefix order, then field order, numbers as numbers and hashes as byte strings. |
| `Keys.BoundsExact` | internal/database/dbpebble/encoders.go:28-192 | Each bounded scan meets exactly the keys with the given leading fields or height interval, less the one key that is the upper bound. |
| `Keys.PrefixBoundsExact` | internal/database/dbpebble/read.go:434-437 | Bounds from a prefix byte to the next one meet every key of that index and no other. |
| `Encoders.KeyBlockTx` | internal/database/dbpebble/encoders.go:20-26 | The filled buffer is the encoding of the block-transaction key. |
| `Encoders.KeyTx` | internal/database/dbpebble/encoders.go:43-48 | The filled buffer is the encoding of the tweak key. |
| `Encoders.KeyTxOccur` | internal/database/dbpebble/encoders.go:50-56 | The filled buffer is the encoding of the occurrence key. |
| `Encoders.KeyOut` | internal/database/dbpebble/encoders.go:58-64 | The filled buffer is the encoding of the output key. |
| `Encoders.KeySpend` | internal/database/dbpebble/encoders.go:79-86 | The filled buffer is the encoding of the spend key. |
| `Encoders.KeyCIHeight` | internal/database/dbpebble/encoders.go:102-107 | The filled buffer is the encoding of the height-index key. |
| `Encoders.KeyCIBlock` | internal/database/dbpebble/encoders.go:120-125 | The filled buffer is the encoding of the hash-index key. |
| `Encoders.KeySpentOutputsShort` | internal/database/dbpebble/encoders.go:127-132 | The filled buffer is the encoding of the spent-outputs key. |
| `Encoders.KeyTxidOutpoints` | internal/database/dbpebble/encoders.go:136-142 | The filled buffer is the encoding of the outpoints key. |
| `Encoders.KeyComputeIndex` | internal/database/dbpebble/encoders.go:162-168 | The filled buffer is the encoding of the compute-index key. |
| `Encoders.MakeBoundsBlockTx` | internal/database/dbpebble/encoders.go:28-41 | The two buffers are the encodings of the first and last position key of a block. |
| `Encoders.MakeBoundsOut` | internal/database/dbpebble/encoders.go:66-77 | The two buffers are the encodings of the first and last output key of a transaction. |
| `Encoders.MakeBoundsCIHeight` | internal/database/dbpebble/encoders.go:109-118 | The two buffers are the encodings of the lowest and highest height key. |
| `Encoders.MakeBoundsTxidOutpoints` | internal/database/dbpebble/encoders.go:144-158 | The two buffers are the encodings of the lowest and highest outpoints key of a block. |
| `Encoders.MakeBoundsSpend` | internal/database/dbpebble/encoders.go:88-100 | The two buffers are the encodings of the lowest and highest spend key of an outpoint. |
| `Encoders.MakeBoundsComputeIndex` | internal/database/dbpebble/encoders.go:171-181 | The two buffers are the encodings of the lowest key of the start height and the highest of the end height. |
| `Pebble.CommitIsPut` | internal/database/dbpebble/store.go:126-158 | Committing a batch gives the database that replaying its writes one by one gives. |
| `Pebble.PutByRows` | internal/database/dbpebble/store.go:163-326 | Two write lists that leave the same rows give the same database, whatever their order and repetitions. |
| `Blocks.WritesAreCalled` | internal/database/dbpebble/store.go:163-326 | Every row a block writes is one its transactions call for: the declarative meaning of all ten indexes, soundness. |
| `Blocks.CalledAreWritten` | internal/database/dbpebble/store.go:163-326 | Every row a block's transactions call for is written: completeness. |
| `SpentViews.SpentShortsAre` | internal/database/dbpebble/store.go:205-326 | The spent-outputs value of an encodable block has eight bytes per input of its stored transactions, tweaked or not: the first of each spent pubkey, in block order. |
| `SpentViews.OutpointsAre` | internal/database/dbpebble/store.go:273-282 | The outpoints value has 36 bytes per input: the spent txid and big-endian index, in order. |
| `Attach.AttachBlockToBatch` | internal/database/dbpebble/store.go:163-326 | Succeeds if and only if every pubkey to be stored has 32 bytes; success appends writes that leave exactly the block's rows, failure a prefix of them. |
| `Runs.RunHas` | internal/database/dbpebble/store.go:163-326 | Every row of a store built by applying blocks is called for, value included, by one of those blocks. |
| `Runs.ReplayHas` | internal/database/dbpebble/store.go:163-326 | A key is present after applying blocks exactly when it was before or a block calls for it, and its value comes from there. |
| `Runs.OrderIndependent` | internal/database/dbpebble/store.go:109-326 | Blocks of one chain, applied in any order and any number of times, leave the same database. |
| `Reads.BlockTxids` | internal/database/dbpebble/read.go:153-183 | The iterator loop returns the txids of the block's position rows in position order, or an error at a value that is not 32 bytes. |
| `Reads.OutputsForTx` | internal/database/dbpebble/read.go:185-211 | The iterator loop returns the parsed outputs of one transaction in output order, or an error at a malformed value. |
| `SpentViews.SpentOutputsReadBack` | internal/database/dbpebble/read.go:702-717 | The eight-byte chunks served for an applied block are the first bytes of every spent pubkey, in block order. |
| `SpentViews.ParseTxidOutpointsValue` | internal/database/dbpebble/encoders.go:252-269 | Fails exactly on a length that is no multiple of 36; otherwise returns the 36-byte pieces in order. |
| `SpentViews.FetchTxidOutpoints` | internal/database/dbpebble/read.go:744-764 | The pieces of the stored row, none without a row. |
| `SpentViews.OutpointsReadBack` | internal/database/dbpebble/read.go:744-764 | The stored outpoints of an applied transaction are those of its inputs, in order. |
| `Reads.GetChainTip` | internal/database/dbpebble/read.go:45-69 | Returns exactly the highest indexed height and its hash; none if and only if no height is indexed; an error if and only if the hash of the highest one is malformed. |
| `FastReads.SortedTxidOrder` | internal/database/dbpebble/read.go:29-38 | Returns a permutation of the positions along which txids never descend. |
| `FastReads.FetchOutputs` | internal/database/dbpebble/read.go:408-512 | The one-iterator walk with early stop, buckets and flattening returns the outputs of every listed transaction end to end in block order, errors included. |
| `FetchEquivalence.FetchMatchesReference` | internal/database/dbpebble/read.go:408-512 | The walk equals one `OutputsForTx` per txid in block order, repeated txids and errors included, when no listed transaction has an output at the top index. |
| `FetchEquivalence.FetchMatchesReferenceIff` | internal/database/dbpebble/read.go:408-512 | With 40-byte values that condition is also necessary. |
| `FastTweaks.TweaksForBlockAll` | internal/database/dbpebble/read.go:514-588 | The seek-only walk, stopped at the first failed seek, returns one row per listed transaction that has a tweak, in block order. |
| `FastTweaks.TweaksMatchReference` | internal/database/dbpebble/read.go:514-588 | It returns the rows of one `LoadTweak` per txid if and only if every tweak it meets has 33 bytes. |
| `ChainViews.SpentAtHeightTip` | internal/database/dbpebble/read.go:339-359 | The early-returning scan of the spend index computes the first-hit function of the scanned keys. |
| `ChainViews.SpentExact` | internal/database/dbpebble/read.go:320-359 | After any run in which a hash fixes its height, forks included, an outpoint reads as spent at H exactly when an applied block of height at most H spends it. |
| `ChainViews.SpentOnBestIff` | internal/database/dbpebble/read.go:338-359 | The answer is "spent by a block the height index names, of height at most H" if and only if every counted spender off the best chain is matched by one on it. |
| `ChainViews.SpentOnChain` | internal/database/dbpebble/read.go:338-359 | Without two blocks at one height it always is. |
| `ChainViews.HeightThenHash` | internal/database/dbpebble/read.go:97-111 | On every run, forks included, a height that maps to a hash is the height that hash maps back to. |
| `ChainViews.HashIndexExact` | internal/database/dbpebble/read.go:320-336 | The hash index knows exactly the applied hashes, each at its block's height. |
| `ChainViews.BestChainExactIff` | internal/database/dbpebble/read.go:319-336 | Everything in the hash index is on the best chain if and only if no two applied blocks competed for a height. |
| `CutThrough.IsSpentAt` | internal/database/dbpebble/read.go:227-246 | Answers whether some scanned spending block is active at or below the tip. |
| `CutThrough.TweaksForBlock` | internal/database/dbpebble/read.go:250-301 | Keeps, in block order, the tweaks of transactions with an output that is not dust and not spent by an active block. |
| `CutThrough.TweaksForBlockCutThrough` | internal/database/dbpebble/read.go:593-643 | Keeps, in block order, the tweaks of transactions with an output unspent at the tip. |
| `CutThrough.TweaksForBlockCutThroughDustLimit` | internal/database/dbpebble/read.go:645-698 | Returns the same rows whatever the dust limit. |
| `CutThrough.FetchOutputsCutThroughDustLimit` | internal/database/dbpebble/read.go:367-406 | Keeps, in order, the outputs of the block that are not dust and not spent at the tip; a failed spend lookup fails the read. |
| `CutThroughViews.TweaksOwnOutputs` | internal/database/dbpebble/read.go:250-406 | On every run, tip and dust limit, a txid is in `TweaksForBlock` exactly when it owns an output in `FetchOutputsCutThroughDustLimit`. |
| `CutThroughViews.DustZeroIsCutThrough` | internal/database/dbpebble/read.go:250-301 | At dust limit zero `TweaksForBlock` and `TweaksForBlockCutThrough` return the same rows. |
| `CutThroughViews.RowsOnlyDrop` | internal/database/dbpebble/read.go:250-301 | A later tip or higher dust limit gives a subsequence of the rows. |
| `CutThroughViews.DustLimitIgnoredIff` | internal/database/dbpebble/read.go:645-698 | Ignoring the dust limit is harmless if and only if no transaction of the block has only dust left. |
| `ComputeIndexes.SerialiseData` | internal/database/dbpebble/compute_index.go:25-37 | The buffer filled at computed offsets is the tweak followed by the 8-byte outputs. |
| `ComputeIndexes.SplitChunks` | internal/server/range.go:270-274 | The splitting loop returns every whole 8-byte chunk in order and drops a shorter tail. |
| `ComputeIndexes.ChunksRoundTrip` | internal/server/range.go:234-240 | Splitting a stored entry gives back the outputs and the tweak that were serialised. |
| `ComputeIndexes.FetchComputeIndex` | internal/database/dbpebble/compute_index.go:56-83 | Returns one item per row of the height, in key order, with the txid reversed. |
| `ComputeIndexes.BuildComputeIndexForHeight` | internal/database/dbpebble/compute_index.go:145-176 | Recomputes, from the tweak and output indexes, one entry per tweaked transaction of the block at the height. |
| `ComputeIndexes.AttachComputeIndexToBatch` | internal/database/dbpebble/compute_index.go:182-192 | Appends one write per entry, in order. |
| `ComputeViews.OutputsReadBack` | internal/database/dbpebble/read.go:185-211 | On fork-free runs `OutputsForTx` returns exactly the outputs the block carried, in order. |
| `ComputeViews.TxidsReadBack` | internal/database/dbpebble/read.go:153-183 | On fork-free runs `BlockTxids` names exactly the stored transactions of the block. |
| `ComputeViews.RebuildLeavesStore` | internal/database/dbpebble/compute_index.go:145-192 | On fork-free runs rebuilding the compute index of a height leaves the whole store unchanged. |
| `ComputeViews.StoredIsRebuilt` | internal/database/dbpebble/compute_index.go:145-192 | Every stored compute-index row of a height is one the rebuild computes, value included. |
| `ComputeViews.FetchIsRebuilt` | internal/database/dbpebble/compute_index.go:56-192 | As txid-keyed maps, what is fetched for an indexed height and what is rebuilt are equal. |
| `Writer.RunSafe` | internal/database/dbpebble/store.go:49-161 | In every state of every run each attached block is in exactly one of active batch, in flight and committed, the database is the replay of the committed ones, and the counters are exact. |
| `Writer.BatchBounds` | internal/database/dbpebble/store.go:56-82 | Active occupancy is the counter, plus one exactly when a rotation inside `collectAndWrite` opened the batch; it never exceeds 201; pending commits equal the unfinished background batches and never exceed ten. |
| `Writer.FlushLeavesAtMostOne` | internal/database/dbpebble/store.go:90-104 | Whatever the background commits do meanwhile, when a flush returns at most one block is left in the active batch. |
| `Writer.FlushExact` | internal/database/dbpebble/store.go:90-104 | When a flush returns the active batch is empty if and only if the counter was not zero or the batch was not opened by a rotation inside `collectAndWrite`; at counter zero the flush changes nothing. |
| `Writer.SyncFlushCommits` | internal/database/dbpebble/store.go:90-161 | When a synchronous flush of a non-zero counter returns, every block of the batch it took is in the database. |
| `Writer.FlushLeavesIff` | internal/database/dbpebble/store.go:56-104 | Counted from any state between calls with counter zero, a fresh or a flushed store: a flush leaves a block if and only if the number of blocks applied since is a multiple of 201, and positive unless a block was left then already; afterwards the store is in such a state again. |
| `Writer.LeftoverRotates` | internal/database/dbpebble/store.go:56-104 | A block left by one flush is out of the active batch after the next flush that follows at least one apply. |
| `Writer.FlushCanLeave` | internal/database/dbpebble/store.go:56-161 | For any 201 blocks, a run in which the flush returns with the last one in the active batch and none in the database. |
| `Writer.CloseKeepsRotated` | internal/database/dbpebble/store.go:342-363 | After a close the database holds exactly the blocks rotated out before it; all applied blocks are there if and only if the active batch was empty. |
| `Writer.CloseCanLose` | internal/database/dbpebble/store.go:342-363 | A run in which an applied block is lost by the close. |
| `Writer.DrainedDatabase` | internal/database/dbpebble/store.go:109-161 | Once everything is committed, the database is the replay of the applied blocks in the order they were applied. |
| `Writer.SameDatabase` | internal/database/dbpebble/store.go:109-326 | Two runs that applied the same blocks of one chain end in the same database, for every arrival order, batch split and completion order. |
| `StoreObject.Store.CollectAndWrite` | internal/database/dbpebble/store.go:56-82 | Refines the state machine: on success the block is applied and in the active batch, which holds at most 201. |
| `StoreObject.Store.CommitBatch` | internal/database/dbpebble/store.go:109-161 | When closed changes nothing; otherwise the active batch is fresh and empty, and the old one is in the database if the call is synchronous, with a background commit if not. |
| `StoreObject.Store.FlushBatch` | internal/database/dbpebble/store.go:90-104 | Empties the active batch if and only if the counter was not zero or the batch was empty, into the database if synchronous and to a background commit if not; at counter zero nothing changes; at most one block is ever left. |
| `StoreObject.Store.WaitForPendingCommits` | internal/database/dbpebble/store.go:333-339 | Returns with every background commit finished and nothing else changed. |
| `StoreObject.Store.CloseStore` | internal/database/dbpebble/store.go:342-363 | Ends closed and quiet, with only the blocks rotated out before in the database. |
| `Pipeline.Safety` | internal/indexer/builder.go:182-368 | In every interleaving each launched height is in exactly one stage, at most the allowed pulls are in flight, and no channel is sent to after its close or closed twice. |
| `Pipeline.NilMeansAllApplied` | internal/indexer/builder.go:315-368 | A nil return means every height from start to end was applied exactly once and no other height was. |
| `Pipeline.SomeStep` | internal/indexer/builder.go:192-277 | Without errors some goroutine can always move until the caller has returned, full channels or not. |
| `Pipeline.SyncCanFinish` | internal/indexer/builder.go:182-368 | Every configuration has an error-free run that returns nil. |
| `Pipeline.SyncFinishes` | internal/indexer/builder.go:192-368 | An error-free run is no longer than a measure of its start, and one that cannot go on has returned nil with every height applied once. |
| `Pipeline.SomeStepOrError` | internal/indexer/builder.go:355-362 | With errors too, until the caller has returned something can move, and an error that is ready can be the one it returns. |
| `Pipeline.SyncReturns` | internal/indexer/builder.go:182-368 | With or without errors no run is longer than a measure of its start, and one that cannot go on has returned. |
| `Durability.SyncDurableIff` | internal/indexer/builder.go:355-368 | For the first or any later sync on a store: after a nil return over n new heights, its flush and the end of the background commits, the database has all n heights if and only if n is zero or no multiple of 201. |
| `Durability.IndexedIffCommitted` | internal/indexer/builder.go:355-368 | From the return of the sync on, each height is indexed if and only if its block is neither in the active batch nor with a background commit that has not written. |
| `Durability.LastIndexedAtReturn` | internal/indexer/builder.go:363-365 | At the return the blocks applied last, as many as the number of heights exceeds a multiple of 201, are indexed. |
| `Durability.SyncCanLose` | internal/indexer/builder.go:355-368 | For any 201 heights, worker and request counts, a sync into an empty store that returns nil with the database still empty, and after whose commits a height is missing. |
| `Backfill.Builder.SingleBlockPullAndHandle` | internal/indexer/pull.go:104-137 | With blocks of earlier calls still queued or not: terminates; succeeds if the node has the height and an ancestor is in the store; on success has queued exactly the blocks down to an ancestor that is indexed or was handed over before, with none between in the store when the call began. |
| `Backfill.SoleCallFills` | internal/indexer/pull.go:104-137 | With none of these heights queued before, that ancestor is the highest indexed one, whatever the writer drained meanwhile. |
| `Backfill.StaysAnchored` | internal/indexer/pull.go:104-137 | However calls overlap, everything handed over stands on blocks handed over, down to a height indexed before the first call. |
| `Backfill.AgreesAfterOverlap` | internal/indexer/pull.go:104-137 | So once the queue of any number of calls has drained, the height index agrees with the node up to every height they were for, if it agreed at its ancestors. |
| `Backfill.ParentKnown` | internal/indexer/pull.go:117-130 | The parent is found if and only if it was indexed to begin with or its own block has been drained since. |
| `Backfill.AgreesAfterBackfill` | internal/indexer/pull.go:104-137 | If the height index agreed with the node up to the ancestor, it agrees up to the new height once drained. |
| `Gaps.IdentifyGapRanges` | internal/indexer/cleanup.go:96-134 | Fails exactly when a lookup does; otherwise returns ordered, disjoint, non-adjacent maximal runs that cover exactly the missing heights below some later indexed one. |
| `Gaps.ScanEndsIff` | internal/indexer/cleanup.go:96-134 | Without errors the loop ends if and only if the end height is below 0xFFFFFFFF. |
| `Gaps.FindsAllMissingIff` | internal/indexer/cleanup.go:96-134 | Every missing height is covered if and only if the end height is indexed. |
| `Gaps.SyncsFill` | internal/indexer/cleanup.go:43-50 | Pipeline runs over the ranges that all return nil apply a block for every height of every range. |
| `Gaps.IntegrityRestored` | internal/indexer/cleanup.go:14-89 | Once every range is synced, no height between start and tip is missing from the applied blocks. |
| `Indexer.HandleTx` | internal/indexer/builder.go:463-519 | The two selection loops and the tweak computation give the selected transaction, or nothing. |
| `Indexer.PickOutsExact` | internal/indexer/builder.go:468-478 | The selected outputs are exactly the taproot outputs, each under its own index with its amount and key. |
| `Indexer.PickInsExact` | internal/indexer/builder.go:492-504 | The selected inputs are exactly those that spend a taproot output. |
| `Indexer.PickInsPlaces` | internal/indexer/builder.go:492-505 | They are in the transaction's order, none twice and none left out. |
| `Indexer.HandledTweak` | internal/indexer/builder.go:480-490 | The tweak kept is w if and only if there is a taproot output and the library computes w. |
| `Indexer.HandledAt` | internal/indexer/builder.go:422-519 | At each position of a handled block: the txid, tweak and outputs in terms of the node's transaction there. |
| `Indexer.SkippedIff` | internal/indexer/builder.go:507-518 | A transaction is skipped if and only if it neither creates nor spends a taproot output. |
| `Indexer.HandledIsGood` | internal/indexer/builder.go:463-519 | Selected transactions are storable and list their outputs in ascending order. |
| `Indexer.HandleBlock` | internal/indexer/builder.go:422-461 | Every transaction is handled at its own position, skipped ones leaving theirs empty. |
| `Indexer.NodeChainIsChainRun` | internal/indexer/builder.go:422-519 | Every chain of the node, handled by the indexer, meets the assumptions of the store theorems. |
| `Indexer.NodeChainDatabase` | internal/database/dbpebble/store.go:109-326 | Once all is committed the database is determined by which blocks of the node's chain were applied. |
| `ReceiverScan.ReceiverScanTransactionShortOutputs` | internal/database/dbpebble/compute.go:352-466 | The loop that shrinks the outputs terminates and its result depends on them only as a multiset. |
| `ReceiverScan.ScanExact` | internal/database/dbpebble/compute.go:367-465 | For every ordering of the outputs, a scan succeeds with a result if and only if that result matches k = 0..n-1 in turn, takes no more than was there, and n is the first key not left. |
| `ReceiverScan.ScanFails` | internal/database/dbpebble/compute.go:367-375 | A scan fails only where the next key cannot be derived after a proper sequence of matches. |
| `ReceiverScan.FailureStops` | internal/database/dbpebble/compute.go:367-375 | And whenever that happens it does fail. |
| `ComputeScan.DBComputeComputeIndex` | internal/database/dbpebble/compute.go:40-115 | The iterator loop returns the results of the receiver scan row by row, or an error at the first failing row. |
| `ComputeScan.SequentialFinds` | internal/database/dbpebble/compute.go:40-115 | A successful scan finds exactly what the stored transactions of its heights hold for the wallet, less one with the all-0xFF txid at the end height. |
| `ComputeScan.SequentialFails` | internal/database/dbpebble/compute.go:40-115 | A scan fails if and only if a visited row does. |
| `ScanViews.ChainScanFinds` | internal/database/dbpebble/compute.go:40-115 | Over a store of applied blocks, a successful scan holds an output if and only if a tweaked transaction of the interval pays it: it is among the outputs that the keys derived from that transaction's tweak match in turn. |
| `ScanViews.ChainScanFails` | internal/database/dbpebble/compute.go:40-115 | It fails if and only if, for a transaction of the interval, no shared secret or no next key can be derived. |
| `ComputeScan.RunComputeStore` | internal/database/dbpebble/store.go:163-326 | Every store built by applying blocks has compute-index rows the scan can read. |
| `WorkQueue.StopsIff` | internal/database/dbpebble/compute.go:176-186 | For every start, end and range size, zero included, some turn of the loop reaches end if and only if start does already, or end is at most 2^32 less the largest power of two in the size plus the start's remainder by it. |
| `WorkQueue.NewWorkStealingQueue` | internal/database/dbpebble/compute.go:173-192 | Under exactly that condition, wrapped or not, the ranges are those of its turns in 32-bit arithmetic up to the first turn that reaches end. |
| `WorkQueue.QueueIffNoWrap` | internal/database/dbpebble/compute.go:173-192 | They are the consecutive steps from start, cut at end, if and only if no step wraps. |
| `WorkQueue.NoWrapStops` | internal/database/dbpebble/compute.go:173-192 | Without a wrap the loop ends. |
| `WorkQueue.NoWrapIff` | internal/database/dbpebble/compute.go:176-186 | No step wraps if and only if every range up to the end height goes forward. |
| `WorkQueue.WrapNeverStops` | internal/database/dbpebble/compute.go:173-192 | An instance: a start, an end and the default range size with which the loop never ends. |
| `WorkQueue.SmallSizeNoWrap` | internal/database/dbpebble/compute.go:176-186 | End plus range size up to 2^32 is enough for that. |
| `WorkQueue.Coverage` | internal/database/dbpebble/compute.go:173-192 | Boundaries between ranges are in exactly two ranges, every other height from start to end in exactly one, all others in none. |
| `WorkQueue.WorkStealingQueue.GetNextRange` | internal/database/dbpebble/compute.go:195-201 | Hands out the next range and advances, or nothing once all are out. |
| `ParallelScan.HandOut` | internal/database/dbpebble/compute.go:238-290 | Under every interleaving each range is handed out once and a worker ready to send on either channel never blocks. |
| `ParallelScan.ScanFinishes` | internal/database/dbpebble/compute.go:238-294 | Until all workers have ended one can move, and runs are bounded by a measure of the start. |
| `ParallelScan.ParallelScansFromLowest` | internal/database/dbpebble/compute.go:204-315 | For every interleaving and every queue whose loop ends, wrapped or not, a finished parallel scan fails and finds exactly what a sequential scan from the lowest start of a range to end does. |
| `ParallelScan.ParallelMatchesSequential` | internal/database/dbpebble/compute.go:204-315 | When no step wraps, it fails if and only if the sequential scan of start to end does, and otherwise finds the same set of outputs. |
| `ParallelScan.ParallelAgreesIff` | internal/database/dbpebble/compute.go:204-315 | For every start, end and range size with which the loop ends, the two scans agree if and only if, for equal bounds, no stored row of that height, the all-0xFF txid aside, fails or holds anything and, for start below end, a row of the interval fails or no row below start from the lowest range on fails or holds an output the interval does not. |
| `ParallelScan.CanFinish` | internal/database/dbpebble/compute.go:238-294 | Every run of the workers goes on to one in which all have ended. |
| `Witnesses.SingleHeightMisses` | internal/database/dbpebble/compute.go:204-315 | A store and a wallet whose one payment the sequential scan of its height finds and the parallel scan does not. |
| `Stream.StreamBlocks` | internal/server/range.go:75-131 | Wherever the connection breaks, the bytes on the wire are that much of what an unbroken one would carry; at most one lookup per height, and exactly one when complete. |
| `Stream.CompleteStream` | internal/server/range.go:75-131 | A stream that did not fail is the document whose entries are those of precisely the indexed heights, ascending. |
| `Stream.ParsesIff` | internal/server/range.go:66-131 | With balanced payloads, the received text has balanced brackets if and only if no lookup, encoding or write failed. |
| `Printers.AppendArray` | internal/server/types.go:25-34 | The append loop produces the bracketed, comma-separated list of its elements. |
| `Printers.AppendUTXOs` | internal/server/types.go:151-163 | A nil list prints as null, any other as an array. |
| `Printers.HexTextReadsBack` | internal/server/types.go:16-20 | An independent reader of quoted hex gets back the bytes and the text after them. |
| `Printers.UTXOPrinted` | internal/server/types.go:200-211 | The printed item is balanced, and an independent reader finds txid, vout, amount and pubkey under their own names, whatever follows. |
| `Printers.ComputePrinted` | internal/server/types.go:98-109 | The printed item is balanced, and the reader finds txid, tweak and outputs under their own names. |
| `Printers.FullPrinted` | internal/server/types.go:142-165 | The printed item is balanced, and the reader finds every field under its own name, a nil UTXO list told from an empty one. |
| `Printers.ResponseReadsBack` | internal/server/types.go:51-69 | The reader finds a response's block hash, height and every item of its index. |
| `Printers.RangePayloads` | internal/server/range.go:134-283 | The payloads of all four range streams are balanced, which is what `Stream.ParsesIff` asks for. |
| `StreamViews.DocumentReadsBack` | internal/server/range.go:90-130 | Reading the document of a stream gives back its entries, in order and nothing else. |
| `StreamViews.StreamReadsBack` | internal/server/range.go:75-131 | A client that reads a complete stream gets the handler's response for every indexed height, ascending. |
| `Witnesses.WrapFindsMore` | internal/database/dbpebble/compute.go:173-315 | Whenever a range starts below start, a store and a wallet on which the two scans differ. |
| `Witnesses.WrapGoesBelow` | internal/database/dbpebble/compute.go:173-192 | A start, end and range size with which the loop ends and that happens. |
| `Witnesses.FetchDiffers` | internal/database/dbpebble/read.go:408-512 | A store whose top-index output the fast read returns and the reference does not. |
| `Witnesses.OrphanStays` | internal/database/dbpebble/read.go:319-336 | After two blocks at one height the first still reads as on the best chain. |
| `Witnesses.OrphanSpends` | internal/database/dbpebble/read.go:338-359 | An output spent only by the orphaned one reads as spent. |
| `Witnesses.DustReported` | internal/database/dbpebble/read.go:645-698 | A block whose one output is below the limit and whose tweak is reported all the same. |
| `Witnesses.TrailingGap` | internal/indexer/cleanup.go:96-134 | A missing end height that no returned range covers. |

## Left out

- Pebble itself: only an ordered map, bounded iterators and atomic batches; no I/O errors, caches, write-ahead log or sync options.
- Elliptic-curve and hash work, script templates and the tweak of a transaction: parameters that may fail.
- Labels in the receiver scan and `MatchLabels`: the only caller passes none.
- Cancellation, tickers, logging, progress reports and the `ContinuousSync` and `InitialSyncToTip` loops around a sync.
- The node's HTTP interface and wire formats: pulling a block is a step that returns a block or an error.
- `BuildComputeIndexByRange` and `FinishComputeIndex`: the goroutines and counter around the per-height rebuild.
- `FirstBlock`, `ChainIterator`, `FetchAllTxidOutpointsForBlock` and the remaining value codecs: one scan or one fixed-width codec each.
- Request parsing and span limits in `rangeParams`, routing, configuration, protobuf handlers and the command line.
- The standard library's JSON encoder: a payload is the text of its struct fields in order, without whitespace.
- Reads return new values, so sharing of the key buffer and slabs between rows is not modelled.
- Attach.AttachBlockToBatch: a failed attach leaves a prefix of the block's writes in the batch and the store is not followed beyond that; a nil spend pubkey, which the indexer never makes and which stops the source with a panic after one more write, is not told from an empty one.
- StoreObject.Store.CloseStore: calls made after the close are not modelled.
- ComputeViews.RebuildLeavesStore: an unindexed height is rebuilt from the all-zero hash, so no applied block may have that hash.
- ComputeViews.FetchIsRebuilt: the all-0xFF txid is outside the scan's bounds.
- ChainViews.SpentExact: a spending block whose hash is all 0xFF is outside the scan's bounds and does not count.
- WorkQueue.NewWorkStealingQueue: the starts, ends and range sizes with which the source's loop never ends, which `WorkQueue.StopsIff` identifies.
- Gaps.IdentifyGapRanges: an end height of 0xFFFFFFFF, with which the source's loop never ends (`Gaps.ScanEndsIff`).
- Backfill.Builder.SingleBlockPullAndHandle: the node's chain does not change during the calls.
