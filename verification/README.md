# AetherStore in Dafny

A model of AetherStore's search engine over immutable segments in object storage, and of its streaming
abandonment predictor, with proofs about both. Every module is self-contained Dafny; `dafny verify dfyconfig.toml`
checks all of them.

Four parts of the system are modelled.

**The publication protocol.** `Keys`, `Manifests` and `Protocol` describe partition indexers, the broker's
committed offset, the compactor and a store that offers atomic puts of whole objects, one step at a time, with a
loss of the process allowed between any two steps. `ProtocolSafety` proves what every state of every run keeps:
each committed offset is served exactly once, whatever crashed, was replayed, rebalanced or merged.
`PartitionIndexing` and `Indexing` are the partition indexer and the consuming service over a set of them, as
classes; `Serving` says what the service does with a schedule as a function, every call of which is a run of the
protocol. `Compaction`, `CompactionPlan` and `CompactionRun` plan and perform
merges. `Collector` is the garbage collector, and `CollectorSafety` interleaves each of its requests with writers.

**The segment format.** `Codec`, `BitPack`, `Blocked`, `Utf8`, `Bloom`, `DictBlock` and `Hotcache` are the codecs,
each with a round trip over all inputs and, where the code can lose something, the exact condition under which it
does not. `SegmentWriter` lays a segment out, `SegmentFaithful` shows that every reference in the written bytes
leads to what it names, and `SegmentReading` is the lazy reader with its caches. `SegmentSearch` puts the written
bytes behind the query engine and shows that searching them is brute force over the documents. `WireFormat` says
where each byte of the formats stands and what it holds, by place and value.

**The query engine.** `Postings`, `BlockedReader`, `Matching` and `Ranking` are the merge walks, the skipping
intersection, score accumulation and ranking, proved equal to a scan of the documents (`Memory` says what an index
of them is). `Paging`, `Coordinator`, `Sharding` and `CompactionSearch` are fan-out, paging and global statistics:
a page is a slice of the ranking of everything, and how documents are split into segments does not show.
`LocalRanking` is the default search without global statistics, in which every segment ranks on its own, and
`Windows` follows a time window from the footer's timestamps to the hits a windowed search returns.

**The predictor.** `Sessions`, `Predicting` and `PredictorRuns` are the per-session state and the per-partition
watermarks over every run, `Dataset` the trainer's labelled examples and their agreement with what is scored live,
and `Trees` the scalar and the vectorised walk of the tree ensemble.

## Assumptions carried by the protocol

- One owner per partition at a time.
- A merge touches only segments whose offsets are committed, and no indexer holds the partition's manifest when the
  merge rewrites it. A replay into a merged range would otherwise evict the whole merged segment
  (src/aether/index/manifest.py:119-128).
- For the collector: the grace period is positive, a writer publishes within it of its put, a manifest write adds
  only keys just put, the prefix covers every manifest, and looking at one key and deleting it is one step.

## Where the code says less than its documentation

- The planner's documentation says the members of a run stay within the size ratio of each other
  (src/aether/index/compactor.py:132-137). The code compares each segment with the run's smallest and largest so
  far; the documented rule holds exactly when merges take two segments (`CompactionPlan.PairwiseTierIffMergingPairs`,
  with sizes 1, 4, 16 as the counterexample), and a run is cut at exactly the merge factor, never more.
- The collector's documentation says a reader of segments a newer manifest has dropped is protected by age
  (src/aether/index/gc.py:31-38). Age is counted from the last write, so in every run a segment that is no longer
  listed is safe for the grace period exactly when it was written that very moment
  (`CollectorSafety.RetiredSegmentKeptIff`); `CollectorSafety.RetiredSegmentCanGo` is a run in which a segment is
  published, dropped by a later publish, and deleted less than the grace period after that.
- The searchable set does not only grow: a replay that seals a narrower range than an uncommitted attempt unlists
  offsets until they are replayed (`ProtocolSafety.SearchableSetCanShrink`, with the exact condition for one publish
  in `ProtocolSafety.PublishKeepsSearchableIff`). Committed offsets never go
  (`ProtocolSafety.CommittedStaySearchable`).
- An open cart is documented as one with something to abandon (src/aether/ml/session.py:160-169). An add and the
  removal of what was added leave it open and empty (`Sessions.EmptyCartStaysOpen`); flag and contents agree exactly
  when an add with no later purchase means a priced add neither bought nor removed
  (`Sessions.OpenCartHoldsSomethingIff`).
- A list of more than eight documents with a gap of 2^32 or more is written and read back without an error, as another
  list: `Blocked.WideGapIsLost` is one, and `Blocked.BlockedRoundTripIff` says which lists survive. Values the encoder's
  or the reader's arrays cannot take are an error. A segment's 32-bit fields rule all of this out
  (`SegmentWriter.ListsFit`).

## What is taken from outside

Bytes are numbers below 256. JSON with deflate is a pair of functions of which decoding undoes encoding; the digest
behind the bloom filter and the filter's sizing are arbitrary functions; so are the tokenizer, the feature vector,
the model, and every part of BM25, including floating-point addition, so that the query results hold of rounded
sums as they are. The clock, the broker and the store's listing order are parameters or choices.

## Model

| member | source | states |
|---|---|---|
| `Keys.RenderInjective` | src/aether/stream/partition.py:82-89 | no two different objects are ever given the same name, so a store may be keyed by partition and offsets |
| `Keys.KeysSortInOffsetOrder` | src/aether/stream/partition.py:82-85 | names of one partition's segments sort in offset order while offsets fit the zero padding |
| `Keys.NamesReadBack` | src/aether/stream/partition.py:82-89 | a name holds the unpadded partition and both offsets in twenty digits, and reads back as them |
| `Manifests.PublishEvicts` | src/aether/index/manifest.py:106-128 | publishing lists the new segment and exactly the old ones it does not supersede by name or by range; ranges stay disjoint and names unique |
| `Manifests.PublishInOrder` | src/aether/index/manifest.py:106-128 | the published segment is listed last, after those kept in the order they had, one generation on |
| `Manifests.UnionManifests` | src/aether/index/manifest.py:191-207 | the union lists every distinct key once, in first-met order, under the newest generation |
| `Manifests.UnionListsEachKeyOnce` | src/aether/index/manifest.py:191-207 | that list holds every key of every manifest and no key twice |
| `Manifests.UnionInOrder` | src/aether/index/manifest.py:191-207 | the entries listed are the first of their keys, in the order they were met |
| `PartitionIndexing.PartitionIndexer.constructor` | src/aether/stream/partition.py:95-118 | an indexer starts as a worker of the protocol that has read the manifest in the store |
| `PartitionIndexing.PartitionIndexer.Add` | src/aether/stream/partition.py:141-146 | buffering a document is the protocol's delivery step |
| `PartitionIndexing.PartitionIndexer.ShouldFlush` | src/aether/stream/partition.py:148-155 | due exactly when something is buffered and the batch is full or the idle time has passed |
| `PartitionIndexing.PartitionIndexer.Discard` | src/aether/stream/partition.py:157-167 | a discarded buffer leaves the manifest and the committable offset alone |
| `PartitionIndexing.PartitionIndexer.Flush` | src/aether/stream/partition.py:171-212 | a flush shows the store in exactly two new states, segment alone and then segment with manifest, and an empty one touches nothing |
| `ProtocolSafety.RunsKeepInv` | src/aether/stream/partition.py:141-212 | every state of every run of deliver, segment put, manifest put, commit, loss, replay and merge keeps the invariant, for all partitions at once |
| `ProtocolSafety.ExactlyOnceInTheIndex` | src/aether/stream/indexer.py:117-178 | in every state of every run: listed ranges disjoint, none straddling the committed offset, every listed object exactly the log its name states, every committed offset served by exactly one entry |
| `ProtocolSafety.CommittedStaySearchable` | src/aether/stream/indexer.py:117-126 | once committed, an offset is served exactly once in every later state |
| `ProtocolSafety.CommittableIsServed` | src/aether/stream/partition.py:130-137 | in a reachable state every document below the offset an indexer reports is served exactly once already, and committing records that offset |
| `ProtocolSafety.ListedSaysItsLog` | src/aether/stream/partition.py:190-198 | in every reachable state each listed entry has the key, count, size, least and greatest time of the log over its own range |
| `ProtocolSafety.WindowLosesNothing` | src/aether/index/manifest.py:77-87 | in every reachable state, a listed segment a time window leaves out holds no document of the log inside the window |
| `ProtocolSafety.PutBeforeManifestIsInvisible` | src/aether/stream/partition.py:187-205 | an object put before its manifest changes no manifest and no listed object, and putting it again on replay changes nothing: what a crash between the two leaves behind |
| `ProtocolSafety.ManifestWriteAddsOnlyFreshKey` | src/aether/index/manifest.py:106-139 | a manifest write adds at most the key just put, and touches no other partition's manifest |
| `ProtocolSafety.PublishKeepsSearchableIff` | src/aether/index/manifest.py:119-128 | publishing unlists nothing searchable exactly when no listed segment reaches across an end of the published range |
| `ProtocolSafety.SearchableSetCanShrink` | src/aether/stream/partition.py:157-212 | a run in which an offset that was searchable, but not committed, stops being so: a replay sealed a narrower range |
| `ProtocolSafety.UnionSpansPartitions` | src/aether/index/manifest.py:191-207 | over the manifests of different partitions in any reachable state the union drops nothing |
| `ProtocolSafety.PutMergedOk` | src/aether/index/compactor.py:222-236 | putting a merged object over committed segments keeps a partition's invariant, and re-running the merge rewrites the same object |
| `ProtocolSafety.CommitMergeOk` | src/aether/index/compactor.py:237-244 | replacing the sources by their hull keeps the ingestion invariant |
| `Manifests.MergeInOrder` | src/aether/index/compactor.py:237-244 | a merge lists its segment last, after exactly those not merged into it, in the order they had |
| `Serving.FlushedSound` | src/aether/stream/indexer.py:117-126 | sealing a partition is the segment put, the manifest put and the commit, in that order, and from a reachable state it reaches one where everything read is committed or buffered |
| `Serving.FlushNext` | src/aether/stream/indexer.py:145-151 | flushing partitions one after the other, in whatever order, is flushing all of them: none is in another's way |
| `Serving.DueFacts` | src/aether/stream/partition.py:148-155 | a partition is due only with something to seal, and flushing the due ones leaves none due |
| `Serving.BoundariesAreFixed` | src/aether/stream/partition.py:26-33 | without an idle limit, whatever the schedule of messages and rebalances, every segment written is one of the stretches of `max_docs` offsets counted from where the committed offsets stood, so a replay writes the same keys |
| `Serving.StoppedClean` | src/aether/stream/indexer.py:170-176 | a clean stop leaves no held partition with anything buffered, and every one committed up to the last message read |
| `Serving.LoopedHeld` | src/aether/stream/indexer.py:92-113 | the partitions held at the end are those the rebalances of the schedule leave |
| `Serving.RebalanceExactly` | src/aether/stream/indexer.py:92-113 | a rebalance writes nothing: what it assigns starts afresh at the committed offset even where revoked as well, what it only revokes is let go, the rest is as it was |
| `Serving.QuietSeals` | src/aether/stream/indexer.py:139-151 | a quiet poll seals and commits a partition whose buffer has lain for the idle limit, and leaves one that is short of full and has not |
| `Serving.FullSeals` | src/aether/stream/indexer.py:158-168 | the message that fills the batch has it sealed and committed at once; one that does not is only buffered |
| `Serving.PollAfterPoll` | src/aether/stream/indexer.py:133-170 | without a limit a schedule is served poll after poll, to its end |
| `Serving.StopsOnlyWithEnough` | src/aether/stream/indexer.py:158-171 | with a limit, reading is the same unless the messages asked for have been taken |
| `Serving.SoundExact` | src/aether/stream/indexer.py:117-178 | between any two calls the index of every partition is exact |
| `Indexing.Indexer.AssignOne` | src/aether/stream/indexer.py:92-99 | a newly assigned partition gets an indexer of its own, at the committed offset and with the manifest in the store |
| `Indexing.Indexer.OnAssign` | src/aether/stream/indexer.py:92-99 | exactly the assigned partitions start afresh, the others keep what they hold, and the state stays reachable |
| `Indexing.Indexer.OnRevoke` | src/aether/stream/indexer.py:101-113 | exactly the revoked partitions are dropped, nothing is written for them, and the state stays reachable |
| `Indexing.Indexer.Receive` | src/aether/stream/indexer.py:139-165 | a delivered message is buffered in its own partition at its own offset and counted; anything else changes nothing |
| `Indexing.Indexer.FlushOne` | src/aether/stream/indexer.py:183-188 | the store is seen with the segment alone and then with its manifest, one partition's buffer is emptied, and the segment and its documents are counted |
| `Indexing.Indexer.CommitOne` | src/aether/stream/indexer.py:117-126 | only a published offset is committed, and only that partition's |
| `Indexing.Indexer.FlushDue` | src/aether/stream/indexer.py:145-151 | on a quiet topic exactly the due partitions are sealed, published and committed, and none is due afterwards |
| `Indexing.Indexer.SealAll` | src/aether/stream/indexer.py:170-176 | exactly the partitions with something buffered are sealed, published and committed |
| `Indexing.Indexer.Serve` | src/aether/stream/indexer.py:139-165 | one poll does what its event calls for: flush the due, rebalance, or buffer and flush if due |
| `Indexing.Indexer.Run` | src/aether/stream/indexer.py:128-181 | for every schedule of messages, silences and rebalances: the run does exactly what the schedule says; then nothing is buffered, every held partition is committed to the last message read, the held partitions are those the schedule leaves, no more messages are taken than asked for, and every partition's index is exact |
| `Compaction.PlanCompaction` | src/aether/index/compactor.py:126-187 | the planning loop computes the recursive plan over the segments in offset order, or refuses a merge factor below two |
| `CompactionPlan.PlanShape` | src/aether/index/compactor.py:143-187 | groups are disjoint stretches of the ordered segments, in order, each exactly the merge factor long, within the byte ceiling and the run's tier |
| `CompactionPlan.PlanIsGreedy` | src/aether/index/compactor.py:143-187 | the segments are cut greedily, each run going on while the next belongs to it, and exactly the full runs are merged |
| `CompactionPlan.FitsIff` | src/aether/index/compactor.py:161-170 | a segment joins a run exactly when some member is at least a quarter of it, some member at most four times it, and the sizes with it stay within the ceiling |
| `CompactionPlan.WalkedInOrder` | src/aether/index/compactor.py:146-152 | the walk goes by first offset, or from 0 where there is none, and by name where two are equal |
| `CompactionPlan.PlanIgnoresListingOrder` | src/aether/index/compactor.py:143-150 | the plan does not depend on the order the manifest lists segments in |
| `CompactionPlan.PlannedGroups` | src/aether/index/compactor.py:143-187 | every group is a full run of the segments in order, with nothing listed between its members when segments have distinct ranges |
| `CompactionPlan.PairwiseTierIffMergingPairs` | src/aether/index/compactor.py:77-84 | in the plans of every manifest with unique keys and disjoint ranges, members of a group are within the ratio of each other exactly when merges take two segments at a time |
| `CompactionPlan.SteepTooWide` | src/aether/index/compactor.py:152-176 | for any larger factor, a manifest an indexer could have written, with sizes 1, 4, 16, is planned as one group though sixteen apart |
| `CompactionRun.MergedNameIsSegmentName` | src/aether/index/compactor.py:190-205 | the merged key, spliced out of the sources' names, is the name of the hull's own segment |
| `CompactionRun.UnrangedName` | src/aether/index/compactor.py:197-204 | without offsets the merged name is the first source's with "merged-" before its last component |
| `CompactionRun.MergeGroup` | src/aether/index/compactor.py:208-244 | the merged object is put before the manifest; its documents are the sources' in offset order |
| `CompactionRun.MergeShrinks` | src/aether/index/compactor.py:237-244 | a merge replaces its sources by exactly one entry |
| `CompactionRun.Compact` | src/aether/index/compactor.py:247-271 | one pass keeps the partition at rest, reports for every planned group the entry its hull of the log seals to, leaves the old manifest with each group replaced, overwrites no segment, and lowers the segment count by factor minus one for each group |
| `CompactionRun.PassesConverge` | src/aether/index/compactor.py:247-271 | of any passes, those with something to merge are bounded by the segments listed at first, and once a plan is empty no later pass changes the manifest |
| `CompactionRun.EnoughPasses` | src/aether/index/compactor.py:174-180 | after as many passes as that bound allows nothing is left to merge |
| `CompactionRun.CompactionKeepsDocuments` | src/aether/index/compactor.py:208-271 | the documents read in offset order are the same sequence before and after any passes |
| `CompactionSearch.CompactionKeepsSearch` | src/aether/index/coordinator.py:232-331 | searched with global statistics, as the manifest lists them, the segments before and after compaction answer with the same documents and scores, the same scores on every page, and the same total |
| `Collector.FindManifests` | src/aether/index/gc.py:100-113 | exactly the manifest keys under the prefix, each once and sorted |
| `Collector.ReferencedKeys` | src/aether/index/gc.py:116-122 | exactly the keys some manifest names, none for a manifest that is gone, or the error of an object that is no manifest |
| `Collector.Collect` | src/aether/index/gc.py:125-172 | deletes exactly the unreferenced non-manifests old enough and reports them with size and age; a dry run reports the same and changes nothing; every other object is untouched, each writer's manifest and what it names among them |
| `Collector.WritersNames` | src/aether/index/gc.py:100-113 | a streamed partition's manifest and a batch index's are both taken for manifests, and no segment is |
| `Collector.WritersKeepTheirs` | src/aether/index/gc.py:100-122 | no collection is after a writer's manifest, whichever of the two names it has, or after anything it names |
| `Collector.UnnamedSegmentsGo` | src/aether/index/gc.py:151-172 | a segment that no object names is collected once it has aged |
| `CollectorSafety.RunsKeepInv` | src/aether/index/gc.py:125-172 | every interleaving of a collection's requests with puts and publishes keeps what the collector relies on |
| `CollectorSafety.CollectionNeverDeletesLive` | src/aether/index/gc.py:125-172 | whatever the interleaving, no object named by a manifest is ever missing, given publication within the grace period of the put |
| `CollectorSafety.ManifestsSurvive` | src/aether/index/gc.py:125-172 | no manifest is ever deleted |
| `CollectorSafety.WritersManifestsSurvive` | src/aether/index/gc.py:100-122 | whatever the interleaving, an object under either of the writers' manifest names stays, with everything it names |
| `CollectorSafety.AloneIsCollect` | src/aether/index/gc.py:125-172 | a collection that no writer interrupts, request by request, deletes exactly what one call of the collector does |
| `CollectorSafety.YoungSurvives` | src/aether/index/gc.py:150-160 | whatever the interleaving, an object is there until the grace period after its last write |
| `CollectorSafety.RetiredSegmentKeptIff` | src/aether/index/gc.py:31-38 | after any run, a segment no manifest names is there for the grace period in every continuation exactly when it was written at that moment |
| `CollectorSafety.RetiredSegmentCanGo` | src/aether/index/gc.py:31-38 | a run in which a segment dropped by a publish is deleted less than the grace period after that publish |
| `Codec.EncodeVarintLoop` | src/aether/index/codec.py:43-52 | the loop writes the varint of the value and refuses a negative one |
| `Codec.DecodeVarintLoop` | src/aether/index/codec.py:67-80 | the loop reads what the recursive decoder reads, with the same error at the end of the bytes |
| `Codec.VarintRoundTrip` | src/aether/index/codec.py:43-80 | a varint decodes to its value wherever it stands and whatever follows it |
| `WireFormat.VarintBytes` | src/aether/index/codec.py:43-52 | a varint is the value in base 128, least first, with the top bit on every byte but the last and no byte to spare |
| `Codec.VarintCanonicalIff` | src/aether/index/codec.py:67-80 | accepted bytes are the encoder's own exactly when they do not end in a zero continuation |
| `Codec.EncodeVarintsLoop` | src/aether/index/codec.py:55-64 | a run encodes exactly when no value is negative |
| `Codec.DecodeVarintsLoop` | src/aether/index/codec.py:83-100 | the loop reads a run of varints, or fails where the bytes end |
| `Codec.VarintsRoundTrip` | src/aether/index/codec.py:55-100 | a run of varints decodes to the values and the position after them |
| `Codec.DeltaEncode` | src/aether/index/codec.py:103-125 | gaps come out exactly for strictly ascending values, an error otherwise |
| `Codec.DeltaDecodeLoop` | src/aether/index/codec.py:128-135 | running sums of the gaps |
| `Codec.DeltaRoundTrip` | src/aether/index/codec.py:103-135 | summing the gaps of any list gives the list back |
| `Codec.DeltaDecodeAscendingIff` | src/aether/index/codec.py:103-135 | gaps decode to an encodable list exactly when all but the first are positive, and are its gaps again |
| `BitPack.WidthForIsLeast` | src/aether/index/bitpack.py:36-41 | the width is the least that holds every value, never below one |
| `BitPack.PackSize` | src/aether/index/bitpack.py:74-76 | the packed length is the bit count rounded up to bytes |
| `BitPack.UnpackLoop` | src/aether/index/bitpack.py:59-71 | filling a zeroed buffer column by column and reading it row by row unpacks, or fails on a shape that does not fit |
| `BitPack.UnpackPack` | src/aether/index/bitpack.py:44-71 | unpacking what was packed, with anything after it, gives each value's low bits |
| `BitPack.PackRoundTripIff` | src/aether/index/bitpack.py:44-71 | the round trip is exact precisely when every value fits the width |
| `WireFormat.PackedBitAt` | src/aether/index/bitpack.py:44-56 | bit j of value i, from the top of its width, is bit i * width + j of the packed bytes, each from its top |
| `Blocked.EncodeBlocked` | src/aether/index/blocked.py:71-116 | the loops write the list, or refuse a long one whose values do not fit its arrays |
| `Blocked.ParseLoop` | src/aether/index/blocked.py:132-185 | the constructor's loops recover the header, or the error of bytes that end early |
| `Blocked.ParseEncoded` | src/aether/index/blocked.py:71-185 | parsing an encoded list recovers exactly its header, or refuses a short one whose values do not fit 64 bits |
| `Blocked.BlockedRoundTripIff` | src/aether/index/blocked.py:71-240 | encoding then parsing gives ids and frequencies back block by block exactly when a short list's values fit 64 bits, or a long one's gaps fit 32 |
| `Blocked.WideGapIsLost` | src/aether/index/blocked.py:87-91 | nine ids with a gap of 2^32 are written, read without an error, and are others |
| `WireFormat.ShortListPlaces` | src/aether/index/blocked.py:71-84 | a list of up to eight is its length, the steps between its ids and its frequencies, every one a varint |
| `WireFormat.LongListPlaces` | src/aether/index/blocked.py:86-116 | a longer one is its length, its number of blocks of 128, a row for each block and then the blocks |
| `BlockedReader.BlockedPostings.DecodeBlock` | src/aether/index/blocked.py:215-240 | a block is what decoding its bytes gives, cached or not, and only that block enters the cache |
| `BlockedReader.BlockedPostings.BlockContaining` | src/aether/index/blocked.py:206-213 | the first block whose last id reaches the target |
| `BlockedReader.BlockedPostings.DocIds` | src/aether/index/blocked.py:244-254 | the whole list's ids in order, in whatever order blocks were cached |
| `BlockedReader.BlockedPostings.Freqs` | src/aether/index/blocked.py:256-264 | the whole list's frequencies in order |
| `BlockedReader.BlockedPostings.FreqIn` | src/aether/index/blocked.py:266-274 | the frequency listed for a document, zero when it is not listed |
| `BlockedReader.WholeIsAll` | src/aether/index/blocked.py:244-264 | a represented list reads back whole |
| `BlockedReader.WhereBlocksLie` | src/aether/index/blocked.py:206-213 | the skip index names the only block that can hold a document |
| `BlockedReader.IntersectSkipping` | src/aether/index/blocked.py:277-307 | the skipping intersection is the ordered intersection of the candidates with the full list, decoding only blocks named for a candidate, so at most one each |
| `Utf8.DecodeIff` | src/aether/index/segment.py:216-242 | bytes decode to a string exactly when they are its UTF-8 encoding |
| `WireFormat.CharPlaces` | src/aether/index/segment.py:216-224 | a character is laid out as RFC 3629 says: as few bytes as will do, six bits in each after the first |
| `Bloom.BloomFilter.Add` | src/aether/index/bloom.py:117-119 | after adding, exactly the positions of the terms added are set |
| `Bloom.BloomFilter.Contains` | src/aether/index/bloom.py:121-126 | the loop answers maybe exactly when every position is set |
| `Bloom.NeverAWrongNo` | src/aether/index/bloom.py:117-126 | a term that was added is never denied |
| `Bloom.MaybeIff` | src/aether/index/bloom.py:105-126 | maybe means exactly that every position of the term is a position of some term added |
| `Bloom.FilterIsItsTerms` | src/aether/index/bloom.py:95-119 | a filter is settled by its size and the set of its terms, not by the order or the number of additions |
| `Bloom.FilterRoundTrip` | src/aether/index/bloom.py:140-148 | serialized at any offset, the filter is read back with the position after it |
| `Bloom.PositionsSet` | src/aether/index/bloom.py:105-119 | for every term added, the first half of its digest plus i times the second made odd, modulo the size, is set for each i |
| `Bloom.NothingElseSet` | src/aether/index/bloom.py:105-119 | every bit set is one of those positions of a term added |
| `WireFormat.FilterBitAt` | src/aether/index/bloom.py:117-126 | a position is bit p % 8, from the least, of byte p / 8 |
| `WireFormat.FilterPlaces` | src/aether/index/bloom.py:140-141 | four bytes of size, one of hash count, then the words |
| `DictBlock.EncodeBlock` | src/aether/index/segment.py:175-227 | a dictionary block encodes exactly when no offset falls behind the end of the list before it |
| `DictBlock.DecodeBlockLoop` | src/aether/index/segment.py:230-253 | the decoding loop fills the dictionary its entries describe, with the errors of malformed bytes |
| `DictBlock.BlockRoundTrip` | src/aether/index/segment.py:175-253 | a block decodes, with no other block present and whatever follows it, to the entries encoded |
| `DictBlock.LookupExact` | src/aether/index/segment.py:236-253 | looking a term up finds its entry, and nothing else is found |
| `DictBlock.LookupOrder` | src/aether/index/segment.py:236-253 | a decoded block yields its terms in the order of its entries |
| `WireFormat.EntryPlaces` | src/aether/index/segment.py:210-229 | an entry holds the longest prefix shared with the term before it, the rest of the term, its frequency, the gap from the predicted offset and the length |
| `Hotcache.EncodeHotcache` | src/aether/index/segment.py:256-293 | the hotcache is written when every value fits its field and refused otherwise |
| `Hotcache.DecodeHotcacheLoop` | src/aether/index/segment.py:296-327 | the decoding loops read the hotcache back |
| `Hotcache.HotcacheRoundTrip` | src/aether/index/segment.py:256-327 | what is written is what is read |
| `Hotcache.FooterRoundTrip` | src/aether/index/segment.py:119-151 | the last 116 bytes of an object alone give its footer back |
| `WireFormat.FooterPlaces` | src/aether/index/segment.py:86-95 | 116 bytes: the magic at both ends, and each field at its own place and width, least byte first |
| `WireFormat.HotcachePlaces` | src/aether/index/segment.py:256-268 | counts and sections in order, and the filter at the end |
| `WireFormat.TermBlockPlace` | src/aether/index/segment.py:256-261 | where each dictionary block's first term, offset and length stand |
| `WireFormat.DocBlockPlace` | src/aether/index/segment.py:263-265 | where each document block's first document, offset and length stand |
| `WireFormat.LittleBytes` | src/aether/index/segment.py:86-95 | byte i of a field is its i-th digit in base 256, least first |
| `SegmentWriter.ListsFit` | src/aether/index/segment.py:335-348 | a sized index's posting lists are within what the posting encoder takes, the reader opens and the gaps carry |
| `SegmentWriter.ChunkNeverBehind` | src/aether/index/segment.py:373-384 | lists laid end to end never fall behind the dictionary's predictions |
| `SegmentWriter.WriteSegment` | src/aether/index/segment.py:335-418 | the writer lays out postings, documents, dictionary, hotcache and footer exactly when every field fits, and otherwise fails with the error of the first thing that does not: a list, or a field |
| `SegmentWriter.ReplayIsByteIdentical` | src/aether/stream/partition.py:20-26 | writing the same documents again writes the same bytes, whatever order the index lists its terms in |
| `SegmentFaithful.WrittenOpens` | src/aether/index/segment.py:451-477 | opening written bytes finds the footer and hotcache that were written |
| `SegmentFaithful.WrittenIsFaithful` | src/aether/index/segment.py:335-418 | every reference in a written segment leads to what it names: dictionary blocks, lists, documents, lengths; and the footer holds the counts and the least and greatest timestamps |
| `WireFormat.SegmentPlaces` | src/aether/index/segment.py:335-418 | postings, documents, dictionary, hotcache and footer stand end to end, where the footer says |
| `WireFormat.BlocksPlaces` | src/aether/index/segment.py:350-391 | a dictionary block for every 32 terms and a document block for every 64 documents, each reference at its block's own place |
| `SegmentFaithful.PostingsCounted` | src/aether/index/segment.py:403-416 | the footer's count of postings, taken term by term, is the number of distinct terms of each document added up |
| `SegmentReading.SegmentReader.DictBlock` | src/aether/index/segment.py:487-494 | a dictionary block is what fetching it afresh would give, cached or not |
| `SegmentReading.SegmentReader.DocstoreBlock` | src/aether/index/segment.py:518-525 | a docstore block is what fetching it afresh would give, cached or not |
| `SegmentReading.SegmentReader.Entry` | src/aether/index/segment.py:496-516 | filter, sparse index and dictionary block together find a term's place exactly when the segment has the term, reading at most one new block and none after a filter miss |
| `SegmentReading.TermHome` | src/aether/index/segment.py:513-516 | a listed term lies in the last block that does not begin after it |
| `SegmentReading.SegmentReader.Contains` | src/aether/index/segment.py:536-543 | present exactly when some document contains the term |
| `SegmentReading.SegmentReader.Df` | src/aether/index/segment.py:545-553 | the number of documents containing the term |
| `SegmentReading.SegmentReader.Postings` | src/aether/index/segment.py:529-534 | a reader of exactly the term's documents and frequencies, or nothing for an absent term |
| `SegmentReading.SegmentReader.Document` | src/aether/index/segment.py:555-560 | the document, or the error of an id out of range, reading at most one new block |
| `SegmentReading.SegmentReader.DocLength` | src/aether/index/segment.py:562-563 | the document's number of terms, counting a negative id from the end, or the error of an id out of range |
| `SegmentReading.SegmentReader.Terms` | src/aether/index/segment.py:565-572 | every indexed term and no other, in order |
| `SegmentSearch.AsIndex` | src/aether/index/segment.py:529-534 | a segment's lists answer for the query engine exactly as its documents do |
| `SegmentSearch.SearchWritten` | src/aether/index/segment.py:335-603 | writing an index, opening the bytes lazily and searching them succeeds exactly when every field fits, and is then brute force over the documents |
| `SegmentSearch.PruningIsSafe` | src/aether/index/coordinator.py:207-215 | a segment pruned by a time window holds no document inside the window |
| `Windows.PrunedIff` | src/aether/index/manifest.py:77-87 | a segment with timestamps is pruned exactly when all of them are before the window or all after it |
| `Windows.FooterTimesEnclose` | src/aether/index/segment.py:396-416 | the least and greatest timestamps a footer records enclose every document's |
| `Windows.SurvivingExactly` | src/aether/index/coordinator.py:207-215 | the window leaves exactly the segments neither wholly before nor wholly after it |
| `Windows.WindowMissesNothing` | src/aether/index/coordinator.py:207-215 | a matching document with a time inside the window is in the ranking, whatever the window prunes |
| `Postings.PostingList.Append` | src/aether/index/postings.py:33-44 | appends past the end only; any other id is refused and changes nothing |
| `Postings.PostingList.FreqIn` | src/aether/index/postings.py:51-56 | the frequency recorded for a document, zero when absent |
| `Postings.Intersect` | src/aether/index/postings.py:62-86 | the walk yields, ascending, exactly what is in both |
| `Postings.Union` | src/aether/index/postings.py:89-108 | the walk yields, ascending, exactly what is in either |
| `Memory.MemoryIndex.Add` | src/aether/index/memory.py:44-59 | the index stays exactly the inverted index of its analysed documents, the new one last |
| `Memory.PostingMember` | src/aether/index/memory.py:44-59 | a document is listed for a term exactly when it contains it |
| `Memory.PostingFreq` | src/aether/index/memory.py:44-59 | the frequency listed is the number of occurrences |
| `Matching.QueryTermsExact` | src/aether/index/base.py:151-151 | each term of the query once, in order |
| `Matching.PostingsFor` | src/aether/index/base.py:141-171 | the lists of the terms present, incomplete exactly when a required term is absent |
| `Matching.IntersectAll` | src/aether/index/base.py:182-207 | the documents in every list, whatever mix of walking and skipping is chosen |
| `Matching.UnionAll` | src/aether/index/base.py:209-214 | the documents in some list, ascending |
| `Matching.SearchAnd` | src/aether/index/base.py:216-221 | exactly the documents containing every term of the query, in order |
| `Matching.SearchOr` | src/aether/index/base.py:223-226 | exactly the documents containing some term of the query, in order |
| `Matching.MemoryAnswers` | src/aether/index/memory.py:71-72 | the in-memory index answers as its documents do |
| `Ranking.AddList` | src/aether/index/base.py:286-308 | the merge walk adds one list's contribution to each candidate it lists and to no other |
| `Ranking.Accumulate` | src/aether/index/base.py:269-309 | scores are the lists' contributions summed in list order, for exactly the candidates |
| `Ranking.FromListsIsScore` | src/aether/index/base.py:269-309 | summed over an index's lists, the score is the one read off the document |
| `Ranking.ScoreWrittenOut` | src/aether/index/base.py:269-309 | a score is the sum, in term order, of each present term's score of its count, the document's length, the average length and the idf of the size and the document frequency, each figure of the corpus supplied or else of these documents |
| `Ranking.HitsWrittenOut` | src/aether/index/base.py:221-275 | every hit satisfies the query and carries that sum |
| `Ranking.Search` | src/aether/index/base.py:230-267 | search returns the top of the brute-force ranking and the number of matches |
| `Paging.BestOfParts` | src/aether/index/coordinator.py:309-329 | the best few of everything are the best few of the best few of each part |
| `Paging.PagesTile` | src/aether/index/coordinator.py:309-331 | consecutive pages tile the ranking: no hit repeated, none missed |
| `Coordinator.GatherCorpusStats` | src/aether/index/coordinator.py:232-258 | statistics gathered segment by segment are the sums over all segments |
| `Coordinator.FanOut` | src/aether/index/coordinator.py:313-323 | every segment contributes its best hits, and the totals add up |
| `Coordinator.SearchAll` | src/aether/index/coordinator.py:260-331 | a search returns exactly the page of the ranking of all matches in all surviving segments, and a total that does not depend on the page |
| `Coordinator.TotalIsAll` | src/aether/index/coordinator.py:319-331 | the total is the length of the whole ranking |
| `LocalRanking.AnswersArePages` | src/aether/index/coordinator.py:319-331 | every answer is a page of one whole ranking, and its total the length of that |
| `LocalRanking.SegmentsRankAlone` | src/aether/index/coordinator.py:260-331 | without global statistics, which is the default, the part of a ranking from one segment is the ranking that segment gives on its own: it depends on no other segment |
| `LocalRanking.AnswersInOrder` | src/aether/index/coordinator.py:319-331 | best score first, then the segment whose key sorts first, then the lower document |
| `Sharding.GlobalIsOwn` | src/aether/index/coordinator.py:232-258 | statistics gathered over segments are the unsplit index's own |
| `Sharding.ShardingInvariance` | src/aether/index/coordinator.py:232-331 | for every split of the documents into segments, listed in any order, the ranking of a search with global statistics holds the documents and scores of one unsplit index's ranking, with the same score at every rank and the same total |
| `Sharding.ReshapingInvariance` | src/aether/index/coordinator.py:232-331 | two sets of segments with the same documents, however cut and listed, are ranked with the same documents and scores; every page shows the same scores, and the totals agree |
| `Sessions.SessionState.Update` | src/aether/ml/session.py:92-144 | one event folded into every field |
| `Sessions.SessionState.Copy` | src/aether/ml/session.py:192-205 | a snapshot equal now and out of reach of later updates |
| `Sessions.FoldCounts` | src/aether/ml/session.py:92-144 | event count, first and last times, gaps and open adds are those of the event sequence |
| `Sessions.FoldCart` | src/aether/ml/session.py:112-134 | a product is in the cart, at the price last added, exactly when nothing after that add removed it or bought the cart |
| `Sessions.FoldKinds` | src/aether/ml/session.py:107-124 | views, clicks, searches, adds, removals and purchases each count the events of their kind |
| `Sessions.FoldSeen` | src/aether/ml/session.py:92-138 | products, categories and brands are exactly the nonempty ones seen, and the device the first event's |
| `Sessions.FoldFigures` | src/aether/ml/session.py:92-144 | sum, count and maximum of the prices seen, and the longest gap between neighbouring events |
| `Sessions.OpenCartIff` | src/aether/ml/session.py:160-169 | a cart is open exactly when some add has no purchase after it, whatever was removed since |
| `Sessions.CartHoldsIff` | src/aether/ml/session.py:112-134 | something is in the cart exactly when some priced add has been neither bought nor removed |
| `Sessions.OpenCartHoldsSomethingIff` | src/aether/ml/session.py:160-169 | the open flag and the contents agree exactly when an add with no later purchase means an item still there |
| `Sessions.EmptyCartStaysOpen` | src/aether/ml/session.py:160-169 | an add and the removal of what was added leave the cart open and empty |
| `Dataset.ExamplesFromSession` | src/aether/ml/dataset.py:124-171 | one example for every event that leaves a cart open, labelled abandoned iff no purchase follows, in event order |
| `Dataset.LabelledExactly` | src/aether/ml/dataset.py:124-171 | which events have an example, and with which label |
| `Dataset.LabelledInOrder` | src/aether/ml/dataset.py:124-171 | examples come in event order, each featurised from the state at its event |
| `Dataset.ExamplesWrittenOut` | src/aether/ml/dataset.py:124-171 | every example carries its session, the session's start, the features of the state at its event, and whether no purchase comes after |
| `Predicting.Predictor.Handle` | src/aether/stream/predictor.py:156-196 | folds the event, advances its partition's watermark, and predicts exactly for an open cart with two events or more |
| `Predicting.Predictor.Sweep` | src/aether/stream/predictor.py:198-219 | drops exactly the stale sessions and counts them |
| `Predicting.Predictor.DropPartitions` | src/aether/stream/predictor.py:225-242 | forgets exactly the sessions of the revoked partitions and their watermarks |
| `PredictorRuns.RunsKeepTracked` | src/aether/stream/predictor.py:156-242 | in every run sessions and partitions have the same keys, and each session's partition has passed its last event |
| `PredictorRuns.StatesAreFolds` | src/aether/stream/predictor.py:156-242 | each state is the fold of the events delivered since its session was last dropped |
| `PredictorRuns.WatermarksAreNewest` | src/aether/stream/predictor.py:170-172 | a watermark is the newest time seen on its partition since it was last revoked |
| `PredictorRuns.SweepExact` | src/aether/stream/predictor.py:198-219 | a sweep drops exactly the sessions whose own partition has moved on by more than the timeout |
| `PredictorRuns.PartitionsIndependent` | src/aether/stream/predictor.py:143-152 | what is held of a partition depends on no other partition's events, so none expires its sessions |
| `PredictorRuns.ServingMatchesTraining` | src/aether/stream/predictor.py:162-182 | the predictor scores the state after an event exactly when the trainer makes an example of that event and it is not the session's first, and it is the same state |
| `PredictorRuns.ServedAreExamples` | src/aether/ml/dataset.py:154-171 | over one session the states scored are the trainer's examples from the second event on, in order |
| `PredictorRuns.PredictionsAreExamples` | src/aether/stream/predictor.py:156-196 | over any run, what a replica predicted from for a session since it was last dropped are the trainer's examples of the events seen since, from the second on |
| `Trees.RawOne` | src/aether/ml/export.py:167-186 | the scalar walk sums every tree's leaf value in tree order |
| `Trees.WalkOne` | src/aether/ml/export.py:174-184 | the scalar loop ends at the leaf the row reaches |
| `Trees.WalkAll` | src/aether/ml/export.py:151-163 | the level-by-level walk brings every row to that leaf and terminates |
| `Trees.Raw` | src/aether/ml/export.py:130-165 | the vectorised score of every row is the scalar one, with the same order of additions and NaN direction |
| `Trees.PathEndsAtLeaf` | src/aether/ml/export.py:155-186 | a path that goes left where the node's feature is at most the threshold, or is missing and missing goes left, and right otherwise, ends at the leaf the walks report |
| `Trees.PathFrom` | src/aether/ml/export.py:155-165 | from every node of a tree a path of such steps leads every row to a leaf |
| `Trees.ScoreOfPaths` | src/aether/ml/export.py:148-165 | a score is the baseline and the values its paths end at, added tree after tree |

## Left out

- Object stores over S3, R2 and local disk, Kafka clients, HTTP services, dashboards, command lines and benchmarks: foreign calls and plumbing.
- JSON, deflate, BLAKE2b, the tokenizer's pattern and the logarithms of BM25 and of the features: taken as functions.
- Two owners of one partition at once, and two compactors on one manifest: the code relies on this not happening.
- Bloom filter false-positive rates and the closed forms for its size: statistical.
- A source range is recorded as both ends or neither; the code's type would allow one end alone, which nothing writes.
- `CompactionRun.MergeGroup`: a group whose ends carry no offsets is merged by the code under a fallback name, which the protocol's keys do not have (`CompactionRun.UnrangedName` is about that name alone); nothing that indexes partitions writes such a segment.
- `CompactionRun.Compact`: stated of a partition at rest, for the reason given under the assumptions; what the code does to a partition that an indexer still holds is not covered.
- `Indexing.Indexer.Run`: ends with its schedule, where the code also ends after an idle time or on a signal; a message for a partition not held does not occur, because rebalances happen inside a poll.
- `Protocol`'s segment objects are the documents they decode to; the bytes are the business of the segment modules.
- The real threads of the coordinator and of manifest reading: results are collected in segment order, so the model goes through segments in turn. The coordinator's reader cache and `refresh` are not modelled.
- `Matching.PostingsFor`: the second check for a missing term under a conjunction is not modelled, because presence and postings agree for both indexes.
- `Matching.IntersectAll`: the ratio of 128 at which an intersection turns to skipping decides how much is read, not what is found; no property here depends on it.
- `Blocked.EncodeBlocked`: takes parallel lists with ids ascending, as its documentation asks.
- `Blocked.ParseLoop`: running ids of 2^63 and more, which only damaged bytes of a long list carry, are not wrapped as the reader's arrays would wrap them.
- `SegmentReading.SegmentReader.Entry`: stated for bytes the writer wrote; bytes nobody wrote are covered only as far as the decoders' errors.
- `Sessions.SessionState.Update`: prices add up as reals; the three running figures of prices and of gaps are grouped into one value each.
- `Predicting.Predictor.Handle`: the prediction carries the whole state; rounding of its figures is display.
- `Dataset.ExamplesFromSession`: grouping a stream into sessions and sorting each by time happens before, and the build statistics after.
- `Trees.Raw`: the logistic on top of the raw score, and the export from the fitted estimator, are library arithmetic.
- The time-based train/test split, the segment slicer, the CSV loader, the live HTTP ingestor and the title deriver: they repeat the partition protocol with one writer or add only easy members.
- That a rebalanced predictor rebuilds a session's whole history: it resumes from automatically committed offsets, so the code does not decide it.
