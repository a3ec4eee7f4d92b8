# Verified model of a Solana account read engine

This project models the parts of the engine whose correctness does not show in any one function,
and proves what they guarantee over every input, every run and every interleaving. Check it
with `dafny verify dfyconfig.toml`.

Five independent groups of modules:

- **Live updates.** `EntryCodec` (record layout), `RingProtocol` (one writer's single stores
  interleaved with any number of readers), `RingMapping`
  (where those stores land in the shared file), `RingBuffer` (the writer and reader objects over a byte
  array, run beside the protocol), `UpdateReducer`, `SegmentWriter`, `DeltaConsumer`, `Location`.
- **Queries.** `KeyedIndex` (the inverted index behind the program, data-size, discriminator and
  memcmp indexes), `IndexManager` (which drives them), `CostModel`, `QueryPlanner`, `Pagination`.
- **Fast structures against simple ones.** `LsmBitmap`, `LsmFlag` (what its compaction flag is worth),
  `QueryCache` (calls one at a time), `QueryCacheThreads` (one lock section at a time), `Invalidation`,
  `Coherence` (results kept current by it), `Freshness` (exactly which ones), `MemcmpAccelerator`, `SimdBitmap`.
- **Account files.** `AccountParser`, `AccountFile`.
- **Small algorithms.** `Merkle`, `RateLimiter`, `Watermark`.

`Bytes` and `Wrappers` hold shared vocabulary: fixed-width integers, little-endian encodings,
`Option` and `Result`.

Most modules have the same build. A state, the actions on it and a total step function say what the
code does, one action per lock section or per atomic access where threads share the state. Lemmas over
every sequence of actions say what that guarantees. A class has the fields and loops of the code, and
its methods are proved to make exactly those steps.

## What the code promises and does not keep

Where a promise turned out false, the model keeps the code's behaviour, a lemma exhibits the failure,
and another says exactly when the promise holds.

- `verify_proof` hashes every sibling in on the right, so it rejects genuine proofs of right children
  (`Merkle.SecondLeafRejected`); of distinct leaves it accepts the first and no other
  (`Merkle.VerifyOfDistinctLeaves`). The unit test at `crates/base-locator/src/checksum.rs:196-211`
  expects all eight leaves of a full tree to be accepted; the code accepts only the first.
- A root does not tell a leaf from an inner node, so lists of different lengths can share one
  (`Merkle.LengthIsNotBound`): a nonempty list has its root to itself exactly when it is a single leaf
  (`Merkle.BoundAloneExactly`), while lists of leaves alone are bound whole, the empty list passing for one zero
  leaf (`Merkle.RootBindsGenuineLeaves`).
- The ring buffer's guard compares with the capacity although the file of that size also holds the
  128-byte header, so a full buffer is written past its mapping (`RingMapping.FillingLeavesMapping`); every
  store stays inside exactly when header and published bytes fit (`RingMapping.StoresStayMappedExactly`).
- The limiter's documented requests per second can be doubled around a window restart
  (`RateLimiter.TwiceTheLimitHappens`), never more than doubled (`RateLimiter.AtMostTwiceTheLimit`); a
  restart keeps the limit whatever follows exactly when `get_count` is zero at that moment
  (`RateLimiter.RestartKeepsLimitExactly`).
- Reordering filters preserves meaning exactly when the program is indexed, or no account would pass the
  filters alone (`QueryPlanner.OrdersAgreeExactly`, `QueryPlanner.UnindexedProgramDiffers`).
- Indexes keep old keys, so an account that changed owner is answered under both
  (`QueryPlanner.OldOwnerStillListed`); it is always listed under its owner alone exactly when it is removed
  before every such change (`QueryPlanner.ListedUnderOwnerExactly`).
- Two inserting threads can make the LSM bitmap lose ids for good, whatever the thresholds
  (`LsmBitmap.TwoInsertersLoseIds`); a step keeps every continuation from losing any exactly when it does not
  raise the compaction flag over a raised one (`LsmFlag.FlagGuardsExactly`), and in runs of such steps a query
  misses ids only while a compaction stands between two of its own (`LsmBitmap.WindowLosesSight`,
  `LsmBitmap.QueryInWindow`).
- A result can be registered or stored after the invalidation that should have caught it, and then stays
  (`Coherence.LateRegistrationGoesStale`, `Coherence.LateStoreGoesStale`), and a new account that joins an answer
  leads to no query yet (`Freshness.OutsiderGoesStale`). Where every dependency can show in the answer, a cached
  result stays fresh whatever follows exactly when it is about to be removed, or current with every account it
  depends on leading to it (`Freshness.StaysFreshExactly`); results that missed no invalidation are
  (`Freshness.StoredOkIsCaughtOrCurrent`, `Coherence.CachedIsFresh`).
- A get can promote an entry over a newer insert (`QueryCacheThreads.PromotionRestoresOldEntry`); a step keeps
  every continuation up to date exactly when no thread carries another payload past an insert that begins and
  none but the latest is read for promotion (`QueryCacheThreads.HarmlessExactly`).
- The indexes' account total counts an account again each time it is added while it has a key
  (`KeyedIndex.TotalCounts`): it is right exactly when every such account was removed first.
- A filter that was never indexed is estimated at zero accounts though it filters nothing
  (`QueryPlanner.AbsentFilterEstimate`); the planned figures bound the real intermediate results exactly when no
  key is present or the smallest estimate is the size of a real list (`QueryPlanner.EstimatesBoundExactly`).
- Repeated accounts can send a walk over pages back (`Pagination.DuplicatesLoop`); it is proper exactly when no
  full page ends at a repetition (`Pagination.VisitsProperlyExactly`).
- `get_account_at_offset` adds the file header to an offset that already contains it, so in a file with a header
  no located offset finds its account (`AccountFile.ScannedOffsetsLookUp`).
- `union_size` drops the longer bitmap's tail (`SimdBitmap.SizesAreExactlyWhen`).
- Record and data lengths are cast to 32 bits (`EntryCodec.SizeFieldIsExact`,
  `AccountFile.LocationReadsBack`): exact below 4 GiB, wrong above.
- A TTL so large that the expiry time overflows expires the entry at once (`QueryCache.DeadlineIsExact`).
- Pages are cut from a query evaluated anew each time, over hash sets with no fixed order, so following
  cursors can miss accounts (`Pagination.UnstableOrderSkips`); it misses none, whatever the orders, exactly
  when no filter is indexed or the answer fits one page (`QueryPlanner.PaginatedWalkCoversExactly`).

## Model

| member | source | states |
|---|---|---|
| `EntryCodec.ParseHeaderBytes` | crates/geyser-bridge/src/ring_buffer.rs:38-63 | Reading a record header back gives the five fields that were written, for every value of their widths. |
| `EntryCodec.RecordLayout` | crates/geyser-bridge/src/ring_buffer.rs:38-63 | Where each field of a record lies, in bytes from its start, and what the two length fields count; all numbers little-endian. |
| `EntryCodec.SizeFieldIsExact` | crates/geyser-bridge/src/ring_buffer.rs:143-175 | The 32-bit size field holds the true record length exactly when the record is shorter than 4 GiB (the cast truncates above that). |
| `EntryCodec.LogAt` | crates/geyser-bridge/src/ring_buffer.rs:143-191 | In records laid end to end, record i occupies exactly the bytes between the lengths of the first i and the first i+1 records. |
| `EntryCodec.ReadBack` | crates/geyser-bridge/src/ring_buffer.rs:242-279 | Wherever a record lies inside the memory, its header and its data parse back. |
| `RingProtocol.ApplyKeeps` | crates/geyser-bridge/src/ring_buffer.rs:143-191 | Every single store of the writer and every single step of any reader keeps the invariant: published bytes are the published records, each reader stands on a record boundary having output a prefix, no reader has seen corruption. |
| `RingProtocol.RunInv` | crates/geyser-bridge/src/ring_buffer.rs:143-279 | The same over every interleaving of one writer with any number of readers. |
| `RingProtocol.ReadersSeeAPrefix` | crates/geyser-bridge/src/ring_buffer.rs:143-279 | At every moment each reader has output a prefix of what was published, byte for byte; its position is the end of that prefix; it has never met a corrupted entry or read outside the data area; it is level with the writer exactly when it has output everything. |
| `RingProtocol.PublishedBytesAreTheLog` | crates/geyser-bridge/src/ring_buffer.rs:143-197 | The bytes below the write position are the published records end to end, within capacity, and the entry counter lags the publication by at most one. |
| `RingProtocol.ReadNextDeliversNext` | crates/geyser-bridge/src/ring_buffer.rs:242-279 | One whole `read_next` gives the next published record if there is one, and nothing otherwise. |
| `RingProtocol.NextFrame` | crates/geyser-bridge/src/ring_buffer.rs:242-279 | What lies at a reader position parses to the next record, complete inside the published area. |
| `RingProtocol.MemoryNeverResized` | crates/geyser-bridge/src/ring_buffer.rs:143-191 | No run changes the size of the shared area. |
| `RingProtocol.ClosedPublishesNoMore` | crates/geyser-bridge/src/ring_buffer.rs:143-205 | Once the buffer is stopped no run publishes anything but the record already begun. |
| `RingProtocol.ReadersStayBehind` | crates/geyser-bridge/src/ring_buffer.rs:242-279 | Over an area with arbitrary bytes too, no run takes a reader past the write position. |
| `RingProtocol.ReaderStaysBehind` | crates/geyser-bridge/src/ring_buffer.rs:242-279 | Whatever the bytes, a step leaves the reader at or before what is published, and a delivery moves it on or finds the area too short. |
| `RingProtocol.BadSizeIsCorrupted` | crates/geyser-bridge/src/ring_buffer.rs:242-279 | A size field that is zero or reaches past what is published is reported as corruption, and nothing is read there; any other size is accepted. |
| `RingMapping.AcceptedRecordMapped` | crates/geyser-bridge/src/ring_buffer.rs:79-83 | A record passes the guard exactly when it fits the capacity, and is stored inside the mapping exactly when the 128-byte header fits as well. |
| `RingMapping.StoresStayMappedExactly` | crates/geyser-bridge/src/ring_buffer.rs:143-191 | Between two writes of any run, every byte ever stored lay inside the mapping exactly when nothing is published or header and published bytes fit the capacity. |
| `RingMapping.FillingLeavesMapping` | crates/geyser-bridge/src/ring_buffer.rs:143-191 | Every buffer with room for one record can be filled to its last byte with accepted and published records, and then the last bytes stored lie outside the mapping. |
| `RingBuffer.Writer.Write` | crates/geyser-bridge/src/ring_buffer.rs:143-191 | On a real byte array: refuses when closed or when the record does not fit and then changes nothing; otherwise stores exactly the record bytes, returns the old position and publishes one more record. Proved by running the step protocol beside the stores. |
| `RingBuffer.Writer.Close` | crates/geyser-bridge/src/ring_buffer.rs:200-203 | Publication stops; what was published stays. |
| `RingBuffer.Reader.ReadNext` | crates/geyser-bridge/src/ring_buffer.rs:242-279 | Returns the published records one by one in order, `None` exactly when all were returned, never an error. |
| `RingBuffer.Reader.ReadFrame` | crates/geyser-bridge/src/ring_buffer.rs:242-279 | On any bytes a record whose size field is zero or reaches past the limit is reported as corrupted, and any other is read field by field and stepped over. |
| `UpdateReducer.Conservation` | crates/delta-plane/src/update_reducer.rs:57-106 | After any mix of adds and flushes, adds = pending + flushed + duplicates, and the flushed counter is the size of all batches handed out. |
| `UpdateReducer.FlushPlacementIrrelevant` | crates/delta-plane/src/update_reducer.rs:57-106 | Merging the flushed batches and the pending rest by highest write version gives the newest update per account of the whole stream, wherever the flushes fell. |
| `UpdateReducer.LatestIsLatest` | crates/delta-plane/src/update_reducer.rs:57-86 | What is kept for an account is the first of its updates with the highest write version, and exactly the accounts that had updates are kept. |
| `UpdateReducer.LatestOfPermutation` | crates/delta-plane/src/update_reducer.rs:57-86 | With distinct write versions per account, any permutation of the stream leaves the same result. |
| `UpdateReducer.Reducer.AddUpdate` | crates/delta-plane/src/update_reducer.rs:57-86 | The object makes the specified step and reports a duplicate exactly when the account was already pending. |
| `UpdateReducer.Reducer.Flush` | crates/delta-plane/src/update_reducer.rs:101-106 | Hands out everything pending, and nothing stays pending. |
| `SegmentWriter.ParseStructBytes` | crates/delta-plane/src/segment_writer.rs:12-56 | The 48-byte header reads back as written. |
| `SegmentWriter.HeaderLayout` | crates/delta-plane/src/segment_writer.rs:10-28 | Where each field of the header lies. |
| `SegmentWriter.OpensExactly` | crates/delta-plane/src/segment_writer.rs:48-57 | Opening succeeds exactly on 48 bytes or more with the magic number 0x5345474D and version 1, and reports what lies at the places of slots and totals; otherwise it names the first thing wrong. |
| `SegmentWriter.MaxSlotIsMaximum` | crates/delta-plane/src/segment_writer.rs:105-138 | The end slot of a segment is the least upper bound of its entries' slots. |
| `SegmentWriter.Writer.Append` | crates/delta-plane/src/segment_writer.rs:105-138 | Appends exactly one record at the end of the file and returns the file offset where it starts; the header totals stay those of the entries. |
| `SegmentWriter.Writer.Finalize` | crates/delta-plane/src/segment_writer.rs:141-177 | The finished file opens with the start slot, maximum slot, entry count and data size of what was appended, each at its place, with the checksum of the header as it was before in bytes 40 to 43, and its body is the records end to end. |
| `DeltaConsumer.Consumer.ProcessUpdates` | crates/delta-plane/src/delta_consumer.rs:131-176 | One call feeds every published ring entry, in order, to the reducer and the segment. For each account the reducer then has what was pending, where no entry is newer, and otherwise the slot, version and data length of the first entry with the highest version. When the batch is full the segment is closed: its file tiles the entries with no gap under a header that records them, and it is registered under its first slot. Otherwise nothing is closed. |
| `DeltaConsumer.ReplayKeepsNewest` | crates/delta-plane/src/delta_consumer.rs:138-160 | After any history of the reducer, replaying entries leaves pending for each account what was pending, where no entry is newer, and otherwise the first entry with the highest version, field by field. |
| `DeltaConsumer.Consumer.Replay` | crates/delta-plane/src/delta_consumer.rs:131-170 | The loop over the ring ends at the last published entry and preserves order. |
| `DeltaConsumer.Consumer.ProcessEntry` | crates/delta-plane/src/delta_consumer.rs:140-166 | One entry reaches both the reducer and the segment. |
| `DeltaConsumer.Consumer.WriteToSegment` | crates/delta-plane/src/delta_consumer.rs:179-208 | Opens a segment named after the entry's slot when none is open, then appends to it. |
| `DeltaConsumer.Consumer.MaybeFlushSegment` | crates/delta-plane/src/delta_consumer.rs:211-244 | Closes and registers the segment exactly when it holds a full batch, overwriting only the file of the same slot. |
| `Location.DeserializeSerialize` | crates/base-locator/src/rocks_locator.rs:217-285 | A stored location decodes to itself, whatever bytes follow. |
| `Location.SerializeDeserialize` | crates/base-locator/src/rocks_locator.rs:246-285 | Decoding succeeds exactly on at least 45 bytes with a known storage tag, and then encodes back to those bytes. |
| `Location.LocationLayout` | crates/base-locator/src/rocks_locator.rs:217-243 | Where each field of the 45-byte encoding lies, and the tags of the storage types. |
| `LsmBitmap.RunInv` | crates/index-fabric/src/lsm_bitmap.rs:70-210 | Every lock section of any number of inserting and compaction threads keeps the invariant, as long as no thread raises the compaction flag over a raised one. |
| `LsmBitmap.OneInserterIsGuarded` | crates/index-fabric/src/lsm_bitmap.rs:137-170 | One inserting thread never raises the flag over a raised one. |
| `LsmBitmap.NothingLost` | crates/index-fabric/src/lsm_bitmap.rs:70-210 | In every such run, whatever the number of inserting threads: compactions never overlap, exactly one delta exists at every lock release, base, delta and the base being built hold together exactly the ids inserted, and outside the window between delta-clear and base-swap a query is complete. |
| `LsmFlag.FlagGuardsExactly` | crates/index-fabric/src/lsm_bitmap.rs:137-210 | From any state that satisfies the invariant, a step keeps every later query outside a compaction window complete, however the threads go on, exactly when it does not raise the flag over a flag already raised. |
| `LsmFlag.RaisedTwiceLoses` | crates/index-fabric/src/lsm_bitmap.rs:137-210 | Raising the flag over a raised one always leaves a way to lose an id for good, on which the flag is never raised over a raised one again. |
| `LsmBitmap.QueryInWindow` | crates/index-fabric/src/lsm_bitmap.rs:104-117 | Inside that window a query returns only inserted ids, and all of them exactly when the drained ones are still visible. |
| `LsmBitmap.WindowLosesSight` | crates/index-fabric/src/lsm_bitmap.rs:181-203 | For every configuration a run with one inserting thread in which a query inside the window finds none of the inserted ids. |
| `LsmBitmap.TwoInsertersLoseIds` | crates/index-fabric/src/lsm_bitmap.rs:137-210 | For every configuration a run with two inserting threads, both of which find the flag down, at whose end everything is at rest and every inserted id is gone. |
| `LsmBitmap.Fills` | crates/index-fabric/src/lsm_bitmap.rs:70-85 | One thread inserting distinct ids below every threshold fills the delta and starts no compaction. |
| `LsmBitmap.BaseGrows` | crates/index-fabric/src/lsm_bitmap.rs:169-210 | In every guarded run the base never loses an id. |
| `LsmBitmap.ContainsIsSound` | crates/index-fabric/src/lsm_bitmap.rs:120-134 | In every guarded run `contains`, with any steps between its two reads, never invents an id, and finds every id inserted before it started outside the window. |
| `LsmBitmap.Bitmap.WriteDelta` | crates/index-fabric/src/lsm_bitmap.rs:70-80 | The insert lock section adds the id to the last delta and one to the counter. |
| `LsmBitmap.Bitmap.SampleThresholds` | crates/index-fabric/src/lsm_bitmap.rs:137-166 | A compaction is due exactly at the delta limit, the size limit of the last delta, or a million inserts. |
| `LsmBitmap.Bitmap.ReadFlag` | crates/index-fabric/src/lsm_bitmap.rs:140-145 | Decides to compact exactly when due and no compaction is in progress. |
| `LsmBitmap.Bitmap.DrainDeltas` | crates/index-fabric/src/lsm_bitmap.rs:187-196 | Drains every delta into the new base and leaves one empty delta. |
| `LsmBitmap.Bitmap.InstallBase` | crates/index-fabric/src/lsm_bitmap.rs:198-202 | Installs the merged base. |
| `LsmBitmap.Bitmap.ZeroCounter` | crates/index-fabric/src/lsm_bitmap.rs:203-205 | Sets the insert counter to zero and changes nothing else. |
| `LsmBitmap.Bitmap.QueryAll` | crates/index-fabric/src/lsm_bitmap.rs:104-117 | The loop over the deltas returns base and deltas together. |
| `KeyedIndex.BitmapsRefine` | crates/index-fabric/src/program_index.rs:56-98 | After any trace, an account's bit is set under a key exactly when it was added under that key and not removed since while that was its current key; keys exist exactly if ever added to. |
| `KeyedIndex.DictRefines` | crates/index-fabric/src/program_index.rs:56-98 | Ids are handed out in order of first-ever add, once per account, and never change. |
| `KeyedIndex.CurrentRefines` | crates/index-fabric/src/program_index.rs:56-98 | The reverse map holds the key of an account's last event when that is an add. |
| `KeyedIndex.MemberByPosition` | crates/index-fabric/src/program_index.rs:56-98 | The recursive notion of membership is the one by positions: some add with no later removal made while the account was filed there. |
| `KeyedIndex.LookupListsMembers` | crates/index-fabric/src/program_index.rs:101-113 | A lookup is `None` exactly for keys never added to, and otherwise lists exactly the members, once each. |
| `KeyedIndex.MembersInOrder` | crates/index-fabric/src/program_index.rs:101-113 | That list is in order of first-ever add. |
| `KeyedIndex.TotalCounts` | crates/index-fabric/src/program_index.rs:81-97 | The account total is the number of accounts with a key plus one for every add of an account that had one. |
| `KeyedIndex.Index.AddAccount` | crates/index-fabric/src/program_index.rs:56-83 | The object makes the specified add step. |
| `KeyedIndex.Index.RemoveAccount` | crates/index-fabric/src/program_index.rs:86-98 | The object makes the specified removal step. |
| `KeyedIndex.Index.GetAccounts` | crates/index-fabric/src/program_index.rs:101-113 | The scan over the dictionary returns exactly what the trace says. |
| `IndexManager.CurrentFiling` | crates/synapse-hyperplane/src/index_manager.rs:134-222 | A live account is filed in the program and size indexes under its current owner and size. |
| `IndexManager.MemcmpFiling` | crates/index-fabric/src/memcmp_index.rs:51-97 | An account stays filed under every indexed prefix its data ever had: nothing is removed from this index. |
| `IndexManager.DiscriminatorFiling` | crates/synapse-hyperplane/src/index_manager.rs:134-222 | The same for discriminators, since removal does not reach that index. |
| `IndexManager.MatchingIsFiled` | crates/synapse-hyperplane/src/index_manager.rs:134-222 | Data that satisfies a filter is filed under the filter's key, unless that key was never indexed. |
| `IndexManager.StableMatches` | crates/synapse-hyperplane/src/index_manager.rs:134-222 | While the keys of an account stay the same, whatever its other bytes do, it is filed under a present filter key exactly when its data matches. |
| `IndexManager.StableOwner` | crates/synapse-hyperplane/src/index_manager.rs:134-222 | An account whose owner never changes is filed under a program exactly while it is live with that owner. |
| `IndexManager.StableSize` | crates/synapse-hyperplane/src/index_manager.rs:134-222 | An account whose size never changes is filed under a size exactly while it is live with that size. |
| `IndexManager.Manager.UpdateAccount` | crates/synapse-hyperplane/src/index_manager.rs:134-205 | Drives all four indexes with the events of one update. |
| `IndexManager.Manager.IndexBytes` | crates/synapse-hyperplane/src/index_manager.rs:181-199 | The memcmp and discriminator entries of one update. |
| `IndexManager.Manager.RemoveAccount` | crates/synapse-hyperplane/src/index_manager.rs:208-222 | Removes from the program and size indexes only. |
| `CostModel.SortedPermutes` | crates/query-orchestrator/src/cost_model.rs:221-260 | Ordering by estimate keeps the same filters. |
| `CostModel.SortedIsStable` | crates/query-orchestrator/src/cost_model.rs:221-260 | Filters with equal estimates keep their request order. |
| `CostModel.SortedIsCheapest` | crates/query-orchestrator/src/cost_model.rs:221-301 | No permutation of the filters has a lower estimated cost than the planned order, whatever the weights. |
| `CostModel.CostInNumbers` | crates/query-orchestrator/src/cost_model.rs:277-301 | The estimated cost of any order: a lookup per filter and, for more than one, an intersection per account of the smallest list so far at each step but the last and a memory access per account of the smallest of all. |
| `CostModel.IntermediatesAt` | crates/query-orchestrator/src/cost_model.rs:245-262 | The planned intermediate size after step i is the least of the program estimate and the first i+1 estimates. |
| `CostModel.Cardinalities` | crates/query-orchestrator/src/cost_model.rs:124-175 | Counts, for every key of an index, exactly the accounts a lookup of that key lists. |
| `CostModel.QueryCostModel.RefreshStatistics` | crates/query-orchestrator/src/cost_model.rs:124-175 | After a refresh the statistics are exact for the indexes as they are. |
| `CostModel.QueryCostModel.CreateOptimizedPlan` | crates/query-orchestrator/src/cost_model.rs:221-275 | Computes the plan that `PlanLeadsWithSmallest` and `PlanCostInNumbers` describe. |
| `CostModel.QueryCostModel.CalculateCost` | crates/query-orchestrator/src/cost_model.rs:277-301 | The running-minimum loop computes the cost that `CostInNumbers` gives. |
| `QueryPlanner.InAnswer` | crates/query-orchestrator/src/query_planner.rs:220-278 | An account is answered exactly when it is filed under the program and passes every filter, a filter with an absent key letting everything pass. |
| `QueryPlanner.NoFalseNegatives` | crates/query-orchestrator/src/query_planner.rs:220-278 | After any history, an account whose last event is an update is answered for its owner by every list of filters its data satisfies. |
| `QueryPlanner.RemovedIsNotAnswered` | crates/query-orchestrator/src/query_planner.rs:220-278 | An account whose last event is a removal is never answered for the program that owned it last. |
| `QueryPlanner.PlansAnswerAlike` | crates/query-orchestrator/src/query_planner.rs:162-217 | Both hold as well for the optimised execution, under any statistics and weights. |
| `QueryPlanner.ExactWhenKeysNeverChange` | crates/query-orchestrator/src/query_planner.rs:220-278 | An account whose owner, size and indexed prefixes stay the same is answered exactly while it is live with that owner and matches every filter whose key is indexed; its other bytes may change freely. |
| `QueryPlanner.OldOwnerStillListed` | crates/query-orchestrator/src/query_planner.rs:220-278 | After any history, a change of owner without a removal leaves the account listed under both owners. |
| `QueryPlanner.ListedExactly` | crates/query-orchestrator/src/query_planner.rs:220-278 | An account is listed under a program exactly when some update put it there and no later removal was made while that program owned it. |
| `QueryPlanner.ListedUnderOwnerExactly` | crates/query-orchestrator/src/query_planner.rs:220-278 | Throughout a history an account is listed under exactly its owner if and only if it was removed before every change of owner. |
| `QueryPlanner.OrderPreservesMeaning` | crates/query-orchestrator/src/query_planner.rs:162-278 | Any execution order gives the answer of request order when the program is indexed; when it is not, request order answers nothing and the planned order answers the accounts passing the indexed filters alone. |
| `QueryPlanner.OrdersAgreeExactly` | crates/query-orchestrator/src/query_planner.rs:162-278 | The two executions agree exactly when the program is indexed or no account passes the filters alone. |
| `QueryPlanner.PlanPermutesRequest` | crates/query-orchestrator/src/cost_model.rs:221-260 | Whatever the statistics, the plan executes the request's filters, each as often as requested. |
| `QueryPlanner.StatisticsDoNotMatter` | crates/query-orchestrator/src/query_planner.rs:162-278 | Fresh or stale statistics: for an indexed program the optimised answer is the plain answer. |
| `QueryPlanner.UnindexedProgramDiffers` | crates/query-orchestrator/src/query_planner.rs:162-278 | A history and a request on which the two executions differ. |
| `QueryPlanner.EstimatesBoundResults` | crates/query-orchestrator/src/query_planner.rs:162-217 | With fresh statistics and every key present, each real intermediate set is no larger than the plan's figure for it. |
| `QueryPlanner.AbsentFilterEstimate` | crates/query-orchestrator/src/cost_model.rs:178-218 | A filter with an absent key is estimated at zero although it filters nothing. |
| `QueryPlanner.PlanLeadsWithSmallest` | crates/query-orchestrator/src/cost_model.rs:222-275 | The plan executes in ascending order of estimate, and every intermediate figure it reports is the smallest of them. |
| `QueryPlanner.PlanCostInNumbers` | crates/query-orchestrator/src/cost_model.rs:221-301 | A plan of n filters whose smallest estimate is m costs n lookups and, for n above one, (n - 1) m intersections and m memory accesses. |
| `QueryPlanner.UnknownProgramPlan` | crates/query-orchestrator/src/cost_model.rs:222-234 | A program the statistics lack counts as a million accounts. |
| `QueryPlanner.EstimatesBoundExactly` | crates/query-orchestrator/src/query_planner.rs:162-217 | For every request and fresh statistics, the figures bound the real intermediate sets exactly when no requested key is present or the smallest estimate is the size of a list that is. |
| `QueryPlanner.AbsentFilterBoundsExactly` | crates/query-orchestrator/src/query_planner.rs:162-217 | With an absent filter key they do exactly when no requested key is present or one of them lists no account. |
| `QueryPlanner.Planner.ExecuteQuery` | crates/query-orchestrator/src/query_planner.rs:220-278 | The three passes and the intersection loop compute the answer without duplicates, in index order when no filter applies, and count the query. |
| `QueryPlanner.Planner.Combine` | crates/query-orchestrator/src/query_planner.rs:262-278 | A lone list is the result as it stands; several are intersected, and only then is the query counted. |
| `QueryPlanner.Planner.ExecuteQueryOptimized` | crates/query-orchestrator/src/query_planner.rs:162-217 | The loop over the planned order computes the planned answer, equal to the plain one for an indexed program. |
| `QueryPlanner.Planner.CollectKind` | crates/query-orchestrator/src/query_planner.rs:228-262 | One pass collects the lists of exactly the indexed filters of its kind. |
| `QueryPlanner.Planner.ExecuteQueryPaginated` | crates/query-orchestrator/src/query_planner.rs:281-288 | Evaluates the whole query again and cuts one page out of it, reporting the size of the whole answer, and as the last page exactly one that is not full. |
| `Pagination.PageReports` | crates/query-orchestrator/src/pagination.rs:77-92 | Every page reports the number of all results, is the last exactly when it is not full, and otherwise leads on from its last account with the same page size. |
| `Pagination.FirstPage` | crates/query-orchestrator/src/pagination.rs:120-159 | Without a cursor, or with an empty one, the page is cut from the beginning. |
| `Pagination.OffsetPage` | crates/query-orchestrator/src/pagination.rs:139-151 | An offset cursor cuts the page at its offset, and past the end an empty one. |
| `Pagination.PubkeyPage` | crates/query-orchestrator/src/pagination.rs:128-138 | A pubkey cursor cuts the page right behind the account's first occurrence, at the beginning if there is none, whatever its offset. |
| `Pagination.FullPage` | crates/query-orchestrator/src/pagination.rs:77-159 | After a full page the next cursor starts right behind it. |
| `Pagination.VisitsTheRest` | crates/query-orchestrator/src/pagination.rs:77-159 | From any cursor over a duplicate-free list, following `next_cursor` visits exactly floor(rest / limit) + 1 pages whose concatenation is the rest of the list. |
| `Pagination.VisitsEverything` | crates/query-orchestrator/src/pagination.rs:77-159 | From the beginning: floor(n / limit) + 1 pages, concatenating to the whole list. |
| `Pagination.VisitsFromOffset` | crates/query-orchestrator/src/pagination.rs:77-159 | From an offset the walk delivers everything from there on. |
| `Pagination.DuplicatesLoop` | crates/query-orchestrator/src/pagination.rs:120-159 | With a repeated account the walk can go on for ever. |
| `Pagination.VisitsProperlyExactly` | crates/query-orchestrator/src/pagination.rs:120-159 | For any list, starting cursor and positive page size, the walk ends with the rest of the list delivered once and in order exactly when no full page ends at an account that occurs earlier in the list. |
| `Pagination.ZeroLimitStops` | crates/query-orchestrator/src/pagination.rs:77-92 | A limit of zero delivers one empty page and stops. |
| `Pagination.UnstableOrderSkips` | crates/query-orchestrator/src/query_planner.rs:281-288 | Any result longer than a page can be listed in another order for the second page so that the walk ends there and accounts are missed. |
| `Pagination.WalkCoversExactly` | crates/query-orchestrator/src/query_planner.rs:281-288 | When every page evaluates the query anew, a walk that ends has shown the whole result, whatever orders the evaluations list it in, exactly when one page holds it all. |
| `Pagination.StableWalk` | crates/query-orchestrator/src/query_planner.rs:281-288 | When every evaluation lists alike, a walk that ends has shown the whole list in order, and it ends within floor(n / limit) + 1 pages. |
| `QueryPlanner.UnfilteredWalkIsComplete` | crates/query-orchestrator/src/query_planner.rs:220-288 | Over an unchanged history, without an indexed filter, the paginated walk shows exactly the program list, in floor(n / limit) + 1 pages. |
| `QueryPlanner.PaginatedWalkCoversExactly` | crates/query-orchestrator/src/query_planner.rs:220-288 | Walking the pages of a query shows its whole answer, in whatever orders it is evaluated, exactly when no filter is indexed or the answer fits one page. |
| `QueryCache.DeadlineIsExact` | crates/index-fabric/src/query_cache.rs:50-60 | The 64-bit expiry time is the intended one exactly when creation time plus TTL fits; otherwise the entry is expired at birth. |
| `QueryCache.RunInv` | crates/index-fabric/src/query_cache.rs:98-348 | Over every sequence of calls with a nondecreasing clock, each tier holds for a key only its latest insert, and the disk tier holds it until it expires. |
| `QueryCache.RefinesMapWithExpiry` | crates/index-fabric/src/query_cache.rs:309-348 | A get answers nothing if the key was never inserted or its latest insert had expired when the call began, answers the latest insert's payload if it is unexpired when the call ends, and never anything else, whatever was evicted or promoted. |
| `QueryCache.AnswersLastInsert` | crates/index-fabric/src/query_cache.rs:33-60 | In the fields of the calls: a found answer has the data, slot and time to live of the last insert of the key and was created when that was made; it is found while creation time plus time to live, in 64 bits, lasts through the call, and not at all once that is past when the call begins or no time to live was given. |
| `QueryCache.AnswersNothing` | crates/index-fabric/src/query_cache.rs:309-334 | A key that was never inserted is not found. |
| `QueryCache.InsertReachesAll` | crates/index-fabric/src/query_cache.rs:337-348 | An insert puts the entry, created now and not yet accessed, into all three tiers and its data on disk; a memory tier loses at most the victim, and only at capacity. |
| `QueryCache.FirstTierAnswers` | crates/index-fabric/src/query_cache.rs:309-314 | A get that the first tier answers counts the access and its time there, counts a hit, and changes nothing else. |
| `QueryCache.SecondTierPromotes` | crates/index-fabric/src/query_cache.rs:316-322 | One that only the second tier answers stores the touched entry in the first tier too. |
| `QueryCache.DiskAnswers` | crates/index-fabric/src/query_cache.rs:324-334 | One that the disk answers, from its metadata or from a file left without any, stores the entry in the second tier; one that nothing answers counts a miss and drops what had run out from all tiers, and its file. |
| `QueryCache.MemoryTier.PickVictim` | crates/index-fabric/src/query_cache.rs:138-142 | Eviction takes an entry of least recency (or frequency). |
| `QueryCache.MemoryTier.Insert` | crates/index-fabric/src/query_cache.rs:98-111 | Evicts one such entry, only at capacity, then stores; the tier never holds more than its limit, or one. |
| `QueryCache.MemoryTier.Get` | crates/index-fabric/src/query_cache.rs:114-128 | Touches a live entry, drops an expired one. |
| `QueryCache.Cache.Insert` | crates/index-fabric/src/query_cache.rs:337-348 | All three tiers receive the entry; at capacity the first loses an entry of least recent and the second one of least frequent access. |
| `QueryCache.Cache.DiskLookup` | crates/index-fabric/src/query_cache.rs:241-262 | Disk metadata first, then a leftover file with an hour to live. |
| `QueryCache.Cache.Get` | crates/index-fabric/src/query_cache.rs:309-334 | First tier that answers wins; its entry is promoted one level, at capacity in place of an entry of least recent or least frequent access. |
| `QueryCache.Cache.GetBelowL1` | crates/index-fabric/src/query_cache.rs:316-334 | The part of a lookup after a miss in the first tier. |
| `QueryCacheThreads.InsertAlone` | crates/index-fabric/src/query_cache.rs:337-348 | The lock sections of an insert that nothing comes between are the insert of the sequential cache. |
| `QueryCacheThreads.GetAlone` | crates/index-fabric/src/query_cache.rs:309-334 | And those of a get are its get, with the same answer. |
| `QueryCacheThreads.CarriersDecide` | crates/index-fabric/src/query_cache.rs:98-348 | With one step per lock section and any number of threads: when what the tiers hold for a key is its latest insert or about to be overwritten by an insert under way, this stays so in every continuation exactly when every thread with an entry of the key in hand has the latest payload. |
| `QueryCacheThreads.HarmlessExactly` | crates/index-fabric/src/query_cache.rs:98-348 | So from any such state a step keeps every continuation up to date exactly when it begins no insert of the key beside a thread carrying another payload, and reads no other payload than the latest for promotion. |
| `QueryCacheThreads.StaleCarrierSpoils` | crates/index-fabric/src/query_cache.rs:98-348 | From any state, a thread with another payload than the latest in hand can be the last to store it, with no insert of the key under way. |
| `QueryCacheThreads.ReturnsIsAnswer` | crates/index-fabric/src/query_cache.rs:309-334 | What a section of a get finds is what its thread is answered, and no step answers anything else. |
| `QueryCacheThreads.GetsAnswerLatest` | crates/index-fabric/src/query_cache.rs:98-348 | After any run of such steps every get that finds its key, in a tier that no insert of it has yet to write, returns the latest insert's payload, and no tier holds an older one once no insert of the key is under way. |
| `QueryCacheThreads.ApartIsHarmless` | crates/index-fabric/src/query_cache.rs:98-348 | Runs in which no insert of the key overlaps another insert of it, or the time between a get reading it and promoting it, consist of such steps. |
| `QueryCacheThreads.ApartGetsAnswerLatest` | crates/index-fabric/src/query_cache.rs:98-348 | In such runs every get that finds its key returns the latest insert's payload. |
| `QueryCacheThreads.UnexpiredIsFound` | crates/index-fabric/src/query_cache.rs:98-348 | After a harmless run with a nondecreasing clock, a get that comes to the disk tier while no insert of its key is under way and the latest one is unexpired finds it, with the latest payload. |
| `QueryCacheThreads.PromotionRestoresOldEntry` | crates/index-fabric/src/query_cache.rs:309-348 | For every configuration a run in which a promotion overtakes an insert and the next lookup answers the old data although the newer entry has not expired. |
| `AccountParser.PaddingIsAlignment` | crates/account-file-mapper/src/account_parser.rs:210-223 | Padding a record and stepping to the next multiple of eight are the same. |
| `AccountParser.RecordLayout` | crates/account-file-mapper/src/account_parser.rs:81-92 | Where each field of a stored record lies. |
| `AccountParser.ParseEncoded` | crates/account-file-mapper/src/account_parser.rs:93-156 | Parsing an encoded record gives back every field and the location it was stored at. |
| `AccountParser.ParsesWhen` | crates/account-file-mapper/src/account_parser.rs:93-156 | A byte string parses exactly when it holds the metadata and does not claim more than it has, and fails with the claimed size or for lack of metadata. |
| `AccountFile.ScanFile` | crates/account-file-mapper/src/appendvec_compat.rs:72-119 | The scanning loop terminates on any bytes and collects exactly the accounts of the specification scan. |
| `AccountFile.ScanIsSound` | crates/account-file-mapper/src/appendvec_compat.rs:72-119 | On any bytes the scanned accounts are ascending, disjoint, in bounds and 8-aligned (from an aligned start), and each re-parses from the bytes its record spans. |
| `AccountFile.ScanGoesOn` | crates/account-file-mapper/src/appendvec_compat.rs:76-119 | From any record that fits, of 97 bytes or more or fewer, the scan goes on at the next multiple of eight behind it; it finds an account there exactly if the record has 97 bytes. |
| `AccountFile.LocationReadsBack` | crates/account-file-mapper/src/mmap_reader.rs:92-140 | `read_bytes` at a scanned location returns that record, and `get_account_data` its data, exactly when the 32-bit lengths hold them, that is below 4 GiB. |
| `AccountFile.ReadsStayInside` | crates/account-file-mapper/src/mmap_reader.rs:92-140 | Reads return as many bytes of the file as asked for, from where they were asked for, and fail exactly when these would reach past its end. |
| `AccountFile.SmallFilesReadBack` | crates/account-file-mapper/src/mmap_reader.rs:92-140 | In a file below 4 GiB every scanned location reads back. |
| `AccountFile.StoredLocationReadsBack` | crates/base-locator/src/rocks_locator.rs:217-285 | A location that went through the locator's encoding still reads back the same account. |
| `AccountFile.ScanStepsOverRecord` | crates/account-file-mapper/src/appendvec_compat.rs:72-119 | Standing at an encoded, padded record the scan finds it and steps to the end of its padding. |
| `AccountFile.ScanOfEncoded` | crates/account-file-mapper/src/appendvec_compat.rs:72-119 | Scanning any list of encoded, padded records followed by any number of zero bytes yields exactly those records, in order. |
| `AccountFile.ScannedOffsetsLookUp` | crates/account-file-mapper/src/appendvec_compat.rs:70-146 | With or without a file header, a lookup finds a scanned account exactly at its located offset less the header size, so at the located offset itself exactly when there is no header. |
| `AccountFile.LookupOutcome` | crates/account-file-mapper/src/appendvec_compat.rs:122-146 | On any bytes a lookup fails on too few for a size, panics on a size past the end of the file, and otherwise finds an account exactly when the size is 97 or more. |
| `AccountFile.LocateAccount` | crates/account-file-mapper/src/appendvec_compat.rs:176-193 | Returns the location of the first scanned account with the address, and nothing exactly when there is none. |
| `Merkle.ReplayReachesRoot` | crates/base-locator/src/checksum.rs:82-142 | For every tree and index, replaying the generated proof with sides taken from the index, and no step where the node is promoted, reaches the root. |
| `Merkle.ReplayBindsLeaf` | crates/base-locator/src/checksum.rs:82-142 | And from no other leaf. |
| `Merkle.VerifyAcceptsExactly` | crates/base-locator/src/checksum.rs:145-157 | `verify_proof` on a generated proof accepts exactly the genuine leaf, and only when every right-child step meets its equal. |
| `Merkle.NoRightStepIsFirst` | crates/base-locator/src/checksum.rs:145-157 | The only leaf whose path has no right child is the first. |
| `Merkle.NoRightStepIsAccepted` | crates/base-locator/src/checksum.rs:145-157 | A path without right children, so that of the first leaf alone, meets the condition for being accepted in every tree. |
| `Merkle.FirstLeafIsAccepted` | crates/base-locator/src/checksum.rs:145-157 | The generated proof of the first leaf of any nonempty tree is accepted. |
| `Merkle.VerifyOfDistinctLeaves` | crates/base-locator/src/checksum.rs:145-157 | For distinct leaves it accepts the proof of the first leaf and of no other. |
| `Merkle.SecondLeafRejected` | crates/base-locator/src/checksum.rs:145-157 | It rejects the genuine proof of the second of two leaves. |
| `Merkle.ProofIsLogarithmic` | crates/base-locator/src/checksum.rs:112-142 | A proof has at most k hashes for n <= 2^k leaves. |
| `Merkle.RootBindsLeaves` | crates/base-locator/src/checksum.rs:82-109 | With collision-free hashing, equally long leaf lists with equal roots are equal. |
| `Merkle.RootBindsGenuineLeaves` | crates/base-locator/src/checksum.rs:82-109 | Lists of leaves of any lengths, none of them an inner node, have equal roots exactly when they are equal, the empty list counting as one zero leaf. |
| `Merkle.LengthIsNotBound` | crates/base-locator/src/checksum.rs:82-109 | Where an inner node may pass for a leaf, two lists of different lengths can have one root; the empty list and a single zero leaf do. |
| `Merkle.BoundAloneExactly` | crates/base-locator/src/checksum.rs:82-109 | A nonempty list is then the only nonempty one with its root exactly when it is a single leaf. |
| `Merkle.ComputeRootLoop` | crates/base-locator/src/checksum.rs:82-109 | The level-by-level loop computes the specified root. |
| `Merkle.GenerateProof` | crates/base-locator/src/checksum.rs:112-142 | The loop generates the specified proof. |
| `Merkle.VerifyProof` | crates/base-locator/src/checksum.rs:145-157 | The loop folds every sibling in on the right. |
| `RateLimiter.AtMostTwiceTheLimit` | crates/rpc-read-provider/src/middleware.rs:33-61 | Over any run with a nondecreasing clock, no half-open second sees more than twice the limit of one address allowed. |
| `RateLimiter.AtMostLimitPerWindow` | crates/rpc-read-provider/src/middleware.rs:33-61 | Between two consecutive window restarts no second sees more than the limit. |
| `RateLimiter.DeniedOnlyWhenUsedUp` | crates/rpc-read-provider/src/middleware.rs:53-55 | A refusal happens only when the limit was allowed less than a second before. |
| `RateLimiter.RestartKeepsLimitExactly` | crates/rpc-read-provider/src/middleware.rs:44-61 | At a window restart the documented limit survives, in every second that reaches into the new window and however that window goes on, exactly when `get_count` is zero at the restart. |
| `RateLimiter.RestartingRequest` | crates/rpc-read-provider/src/middleware.rs:44-61 | The restarting request itself is always allowed, and alone overruns the limit of the last second exactly when the ended window was full. |
| `RateLimiter.QuietRestartsKeepTheLimit` | crates/rpc-read-provider/src/middleware.rs:33-61 | A run all of whose restarts found `get_count` zero keeps the documented limit in every second. |
| `RateLimiter.TwiceTheLimitHappens` | crates/rpc-read-provider/src/middleware.rs:33-61 | For every positive limit a run reaches twice the limit within one second. |
| `RateLimiter.CountIsRecent` | crates/rpc-read-provider/src/middleware.rs:64-74 | `get_count` never exceeds the true count of the last second, falls short by at most the limit, and is exact unless the window restarted within that second. |
| `RateLimiter.CountMissesForgotten` | crates/rpc-read-provider/src/middleware.rs:40-74 | What `get_count` falls short by is exactly the number of requests allowed in the last second before the current window was opened. |
| `RateLimiter.Limiter.Allow` | crates/rpc-read-provider/src/middleware.rs:33-61 | The object makes the specified step; allowed requests are counted, refused ones are not. |
| `RateLimiter.Limiter.GetCount` | crates/rpc-read-provider/src/middleware.rs:64-74 | Returns that count. |
| `Invalidation.RunKeepsLinks` | crates/cache-plane/src/invalidation.rs:36-108 | However the lock sections of concurrent registrations and invalidations interleave, every account of a completely registered query leads back to the query, and no account leads to an empty set. |
| `Invalidation.RegisterStraysExactly` | crates/cache-plane/src/invalidation.rs:36-56 | Registering a query again leaves a stray link exactly when the new accounts do not cover the old ones. |
| `Invalidation.InvalidateKeepsNoStrays` | crates/cache-plane/src/invalidation.rs:81-109 | An invalidation never creates a stray link. |
| `Invalidation.RegisterLinks` | crates/cache-plane/src/invalidation.rs:36-56 | A registration links its query from each of its accounts and changes no other link. |
| `Invalidation.InvalidateDrops` | crates/cache-plane/src/invalidation.rs:81-109 | An invalidation takes out of the cache exactly the queries that one of the accounts leads to. |
| `Invalidation.ReachedExactly` | crates/cache-plane/src/invalidation.rs:36-109 | Whatever other calls do between and after the two sections of the last registration of a query, a change of one of its accounts still reaches it exactly when no removal dropped the query since, or one already did between the two sections. |
| `Invalidation.StoredIsRemovableExactly` | crates/cache-plane/src/invalidation.rs:36-118 | A result stored after a registration can still be invalidated through one of its accounts exactly when nothing dropped its query between registering and storing. |
| `Coherence.RunCoherent` | crates/cache-plane/src/invalidation.rs:36-118 | With evaluation, both registration sections, storing, and both invalidation sections as separate steps of any number of calls: in every run that stores no result which missed an invalidation, each cached result is current, or one of its changed accounts is still to be invalidated, or its removal is under way. |
| `Coherence.CachedIsFresh` | crates/cache-plane/src/invalidation.rs:36-118 | So a cached result none of whose accounts awaits invalidation and whose removal is not under way equals a fresh evaluation. |
| `Coherence.UninterruptedIsInTime` | crates/cache-plane/src/invalidation.rs:36-118 | A job that nothing comes between misses nothing. |
| `Coherence.LateRegistrationGoesStale` | crates/cache-plane/src/invalidation.rs:36-118 | A change that matters, invalidated between evaluation and registration, leaves a stale result cached with nothing left to invalidate it. |
| `Coherence.LateStoreGoesStale` | crates/cache-plane/src/invalidation.rs:81-118 | So does one invalidated between registration and storing. |
| `Freshness.StaysFreshExactly` | crates/cache-plane/src/invalidation.rs:36-118 | From any state whatever, a cached result is never stale at rest in any continuation that stores no other result of its query if its removal is under way, or a changed account awaiting invalidation leads to it, or it is current with every account it depends on leading to it; and only then, where every account a query depends on has some change that shows in its answer. |
| `Freshness.StoredOkIsCaughtOrCurrent` | crates/cache-plane/src/invalidation.rs:36-118 | The invariant of runs that store in time gives this condition for every cached result. |
| `Freshness.OutsiderGoesStale` | crates/cache-plane/src/invalidation.rs:36-118 | Where an account outside the registered ones can change the answer, as a new account of a program does, the change leaves a result stored in time stale with nothing left to invalidate it. |
| `Invalidation.StoringAfterInvalidationSticks` | crates/cache-plane/src/invalidation.rs:81-118 | If the invalidation slips between registering and storing, the stale result survives every later invalidation. |
| `Invalidation.Tracker.RegisterQuery` | crates/cache-plane/src/invalidation.rs:36-56 | The object's loop makes the specified registration. |
| `Invalidation.Tracker.GetAffectedQueriesBatch` | crates/cache-plane/src/invalidation.rs:67-78 | The loop collects exactly the affected queries. |
| `Invalidation.Tracker.InvalidateForPubkeys` | crates/cache-plane/src/invalidation.rs:81-109 | Removing the affected queries one at a time, in any order, is removing them together; returns their number. |
| `Invalidation.Tracker.DropQuery` | crates/cache-plane/src/invalidation.rs:90-105 | One query leaves the cache and both indexes. |
| `Invalidation.Tracker.Unlink` | crates/cache-plane/src/invalidation.rs:97-104 | Its accounts forget it, and forgotten-empty entries disappear. |
| `MemcmpAccelerator.HoldsExactlyLive` | crates/index-fabric/src/memcmp_accelerator.rs:76-195 | Over every history in which updates take the old data out first, an account is filed under exactly the keys of its present data. |
| `MemcmpAccelerator.FoundIsScan` | crates/index-fabric/src/memcmp_accelerator.rs:151-200 | At a tracked fixed-size offset a lookup of that size finds exactly what a linear scan of the live accounts finds. |
| `MemcmpAccelerator.AgreesExactlyWhenIndexed` | crates/index-fabric/src/memcmp_accelerator.rs:198-200 | For any offset and bytes, lookup and scan agree exactly when the offset is tracked with that key size or the scan is empty; other shapes answer nothing. |
| `MemcmpAccelerator.LookupByShape` | crates/index-fabric/src/memcmp_accelerator.rs:33-55 | In numbers: tracked lookups of 8 bytes at 0 and of 32 bytes at 32, 64 and 1 find exactly the live accounts with these bytes there, and no other lookup finds anything. |
| `MemcmpAccelerator.KeysExactlyEver` | crates/index-fabric/src/memcmp_accelerator.rs:198-200 | A lookup is `Some` exactly for keys some account has ever had. |
| `MemcmpAccelerator.EntriesAreLive` | crates/index-fabric/src/memcmp_accelerator.rs:76-88 | The entry count is the number of live accounts long enough for the offset, once per time it is tracked; the saturating decrement never loses one. |
| `MemcmpAccelerator.ProgramMemcmpAccelerator.InsertAccount` | crates/index-fabric/src/memcmp_accelerator.rs:151-173 | The loop over tracked offsets files the account as specified. |
| `MemcmpAccelerator.ProgramMemcmpAccelerator.RemoveAccount` | crates/index-fabric/src/memcmp_accelerator.rs:176-195 | The loop takes it out as specified. |
| `SimdBitmap.AllSetIsExact` | crates/index-fabric/src/simd_bitmap.rs:98-113 | The list of set bits is strictly increasing, as long as the popcount, and holds exactly the set positions. |
| `SimdBitmap.PopcountIsSize` | crates/index-fabric/src/simd_bitmap.rs:58-60 | The popcount is the size of the set a bitmap stands for. |
| `SimdBitmap.OperationsAreSetOperations` | crates/index-fabric/src/simd_bitmap.rs:30-56 | Word-wise and, or, xor are intersection, union and symmetric difference, cut to the shorter operand. |
| `SimdBitmap.SizesAddUp` | crates/index-fabric/src/simd_bitmap.rs:58-84 | popcount(a) + popcount(b) = intersection size + union size + popcount of the longer operand's tail, for any lengths. |
| `SimdBitmap.SizesAreExactlyWhen` | crates/index-fabric/src/simd_bitmap.rs:63-84 | The intersection size is always that of the sets; the union size is exactly when the tail is empty. |
| `SimdBitmap.BitmapAnd` | crates/index-fabric/src/simd_bitmap.rs:30-37 | Fills the common part of the result and leaves the rest alone. |
| `SimdBitmap.BitmapOr` | crates/index-fabric/src/simd_bitmap.rs:40-46 | The same for or. |
| `SimdBitmap.BitmapXor` | crates/index-fabric/src/simd_bitmap.rs:49-55 | The same for xor. |
| `SimdBitmap.IntersectionSize` | crates/index-fabric/src/simd_bitmap.rs:63-72 | The counting loop returns the size of the intersection. |
| `SimdBitmap.UnionSize` | crates/index-fabric/src/simd_bitmap.rs:75-84 | The counting loop returns the size of the union exactly when the longer operand's tail is empty. |
| `SimdBitmap.FindFirstSet` | crates/index-fabric/src/simd_bitmap.rs:87-95 | Returns the head of the list of set bits, and `None` exactly when it is empty. |
| `SimdBitmap.FindAllSet` | crates/index-fabric/src/simd_bitmap.rs:98-113 | Clearing the lowest bit over and over lists exactly the set bits. |
| `SimdBitmap.ClearLowest` | crates/index-fabric/src/simd_bitmap.rs:101-109 | Clearing the lowest set bit takes exactly the first position off the list. |
| `SimdBitmap.MergeIncreasing` | crates/index-fabric/src/simd_bitmap.rs:116-139 | Merging strictly increasing lists stays strictly increasing. |
| `SimdBitmap.MergeElements` | crates/index-fabric/src/simd_bitmap.rs:116-139 | The merge holds exactly the elements of both. |
| `SimdBitmap.MergeOfBitmaps` | crates/index-fabric/src/simd_bitmap.rs:98-139 | Merging the position lists of two bitmaps is listing their union. |
| `SimdBitmap.MergeSorted` | crates/index-fabric/src/simd_bitmap.rs:116-139 | The two-index loop computes the merge. |
| `Watermark.CallsAreAtomic` | crates/slot-reconciler/src/watermarks.rs:24-38 | However loads and swaps of any number of threads interleave, finished calls behave as if run one at a time, each with a history entry of its own, taking effect between its start and its return, with the result it returned. |
| `Watermark.StepsByOne` | crates/slot-reconciler/src/watermarks.rs:24-38 | An advance adds one, from the largest 64-bit value to zero; a swap sets the value offered, and nothing else changes the watermark. |
| `Watermark.FallsOnlyByWrapping` | crates/slot-reconciler/src/watermarks.rs:24-38 | A step lowers the watermark exactly when it advances past the largest 64-bit value. |
| `Watermark.RestsAtLargest` | crates/slot-reconciler/src/watermarks.rs:24-33 | Without advances the watermark is exactly the largest of its start and the values whose update has taken effect; with every thread at rest, exactly the largest of its start and all values ever offered. |
| `Watermark.RetriesOnlyAfterOthersSucceed` | crates/slot-reconciler/src/watermarks.rs:24-33 | A swap fails only because another call changed the watermark since the load. |
| `Watermark.WatermarkTracker.Update` | crates/slot-reconciler/src/watermarks.rs:24-33 | Alone, the loop raises the value to the maximum and reports whether it did. |
| `Watermark.WatermarkTracker.AdvanceOne` | crates/slot-reconciler/src/watermarks.rs:36-38 | Returns the old value and leaves its successor, zero after the largest. |

## Left out

- RingBuffer.Writer.Write: asks for records shorter than 4 GiB, because above that the size field is truncated (`EntryCodec.SizeFieldIsExact`).
- RingProtocol.ReadersSeeAPrefix: bounds reads by the data area; how much of that area the file really holds is stated in `RingMapping`.
- RingProtocol.RunInv: interleaves steps in one order for all threads, which the Release store and Acquire load of `write_pos` justify; and it asks for records below 4 GiB, as do the next four.
- RingProtocol.ApplyKeeps: for a record of 4 GiB or more the code stores more bytes than it publishes.
- RingProtocol.PublishedBytesAreTheLog: asks for records below 4 GiB.
- RingProtocol.ReadNextDeliversNext: asks for records below 4 GiB.
- EntryCodec.ReadBack: asks for a record below 4 GiB, whose size field is exact.
- Ring-buffer wrap-around (the code has none), `advance` to arbitrary positions, opening an existing file, the aggregate `read_pos`, and several producers.
- Padding bytes of headers and records are zero here and indeterminate in the code.
- SegmentWriter.Writer.Append: asks that the totals stay within their 64-bit header fields.
- SegmentWriter.Writer.Finalize: the checksum is a function parameter; as in the code it covers the previous checksum and is not compared on opening.
- DeltaConsumer.Consumer.ProcessUpdates: states one call on a ring that does not grow meanwhile. Each call opens the ring at its start and replays it, so a second call appends the entries again; segments are named by slot, so one that starts at the same slot overwrites the file.
- DeltaConsumer.Consumer.Replay: the ring does not grow during the loop; what readers see of a growing one is stated in `RingProtocol`.
- I/O errors (disk full, unreadable files, failed renames) and the timestamps kept by the reducer and the segment registry.
- The memcmp index's list of filters per account, which nothing reads.
- IndexManager.Manager.UpdateAccount: takes the locks of its indexes one after another in the code and is one step here, so queries that run during an update are not modelled; the token owner and mint indexes, which have the code shape of the program index, and the switches that turn single indexes off are left out; its counters are unbounded here and 64-bit in the code.
- The floating-point cost estimator, streaming decision and bitmaps of `plan_query`: they do not affect an answer.
- QueryPlanner.PaginatedWalkCoversExactly: every order of a filtered answer is taken as possible for each evaluation, as hash sets give none; accounts do not change during the walk.
- Pagination.VisitsTheRest: bounds the walk by a number of pages it is given, which is any number above the one it needs; the offset and limit sums are unbounded here.
- LsmBitmap.NothingLost: covers `insert`, `query`, `contains` and background compaction; with `remove` or a manual `compact` the statement is false. The code itself does not keep several inserting threads from raising the flag twice (`LsmFlag.FlagGuardsExactly`).
- QueryCache.RefinesMapWithExpiry: takes whole calls one after another, starts from an empty directory and has successful disk writes; between the clock readings of one get an entry may expire, and then either answer is allowed. What remains of it for concurrent calls is in `QueryCacheThreads`.
- QueryCache.RunInv: whole calls one after another; `QueryCacheThreads` has one step per lock section.
- QueryCacheThreads.GetsAnswerLatest: leaves open which insert's payload a get answers that reads a tier an insert of its key has yet to write.
- QueryCacheThreads.UnexpiredIsFound: clock readings of all threads do not decrease in the order of their steps, and disk writes succeed.
- `QueryResultCache::invalidate_by_slot`, an empty body, and key hashing.
- Coherence.CachedIsFresh: asks that no result be stored that missed an invalidation, which the code does not check (`Coherence.UninterruptedIsInTime` gives one way to ensure it; `Freshness.StaysFreshExactly` asks for nothing of the kind), and that an answer depend on its registered accounts only, which program queries do not (`Freshness.OutsiderGoesStale`).
- Coherence.RunCoherent: the same two conditions.
- Freshness.StaysFreshExactly: the direction from fresh to the condition asks that every dependency matter; a cached result can also stay fresh because an account it depends on never shows in its answer.
- MemcmpAccelerator.HoldsExactlyLive: states one program's accelerator; the global map from programs to accelerators, its defaults and configuration, and averages in the statistics are left out. Custom offsets are skipped by the code too.
- SimdBitmap.BitmapAnd: a word is a list of 64 bits rather than an integer, which the bit operations cannot tell apart; the roaring wrapper around a library is left out.
- AccountFile.ScannedOffsetsLookUp: the sums of offsets and header sizes are unbounded here and 64-bit in the code.
- Memory-mapped slices and advice calls, the account-metadata shortcuts and `validate_account_record`: only easy members.
- Merkle.RootBindsLeaves: hashing is a free datatype, because no injective function into 32 bytes exists; the hash functions themselves are left out.
- `RateLimiter::clear` and request logging.
- Watermark.CallsAreAtomic: relies on the sequentially consistent ordering the code asks for.
- HTTP, JSON-RPC, the terminal interface, metrics, databases, memory placement and runtime threads: wiring.
- `Compactor::compact`, `AdaptiveIndex`, `TieredDictionary`, `TieredIndex`: placeholders with no behaviour to keep.
- `SlotReconciler`, `CommitmentTracker`, `RootTracker`: only one-step invariants.
