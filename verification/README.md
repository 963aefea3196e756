# Aether in Dafny

This project models the stateful core of Aether, a distributed search engine over flight
documents, and proves what its design promises. Five parts are modelled, each in the form the
source has: objects that update their fields are classes, loops are loops, and each method is
proved against a function of the old state whose properties are then proved as lemmas.

1. **Write-ahead log** (`WalFrames`, `WalRecords`, `WalSpec`, `Wal`, `WalCrash`, `WalReclaim`,
   `WalReclaimRuns`, `WalSegments`, `WalHoles`, `WalHoleRuns`, `WalMisplaced`, `WalMeaning`,
   `WalWire`, `LogStore`, `WalReads`). The disk is an ascending list of segments, each a byte
   string with a synced length. `Wal.visited` records every directory state a call passes
   through, so a crash can strike inside any call and cut the active segment at any byte from
   its synced length on. Over every run of calls, crashes and reopens the log in RAM is the
   fold of the records callers issued, with nothing acknowledged missing; a second run theorem
   allows purges to unlink segments, a third makes reads equal to those of the in-memory store.
   What an unsafe purge loses or brings back is characterised exactly. The scan is described from
   the writer's frames, and the replayed log by the positions of its records.
2. **t-digest and aggregation** (`TDigestSpec`, `TDigest`, `TDigestMerge`, `TDigestGrouping`,
   `TDigestQuantile`, `Aggregates`, `Buckets`). Greedy clustering under a scale function,
   interpolated quantiles, the merge of shard partials, exactly when merging commutes and
   associates, and which documents each bucket counts.
3. **Shard store** (`Documents`, `Ranking`, `KeywordSpec`, `KeywordScores`, `InvertedIndex`,
   `Quantize`, `VectorIndex`, `VectorScores`, `Embedding`, `ShardSpec`, `ShardStore`). Both indexes
   are proved to be views of one plain map from `icao24` to document; every search is a function of
   that map, and the answers are described by what a score rewards.
4. **Replicated state** (`Replication`, `SnapshotFiles`, `StateMachine`, `ShardHistory`, `Placement`,
   `Eviction`, `RegistrySpec`, `Registry`, `Liveness`, `Control`, `ControlHistory`). The run theorem
   about logs, snapshots, installs and restarts is proved once for an arbitrary application and used
   for the document store and for the coordinators' placement table and drain set. What either
   holds is then read off the positions of its log, and liveness off the times nodes were seen.
5. **Merging and ranking** (`Fanout`, `Overlaps`, `RankFusion`). Incremental top-k against one-shot
   merge, one hit per aircraft, reciprocal rank fusion.

Conventions: floating-point numbers are reals; serialization, the checksum, the tokenizer, the
embedder, `ln`, the square root, the digest's scale function and number formatting are
function-valued parameters with stated assumptions; hash-map iteration is a nondeterministic
choice. `WalWire` gives one concrete record format that meets everything assumed of the log's
codec, and `Embedding` models the default tokenizer and embedder, which meet what is assumed of
those.

What the proofs found about the code, beyond what its documentation says:

- A checkpoint written by `rotate` is one record stale. It is harmless exactly when the record
  that filled the segment did not reset a known commit pointer to `None`
  (`StaleCheckpointIsNeutral`, `AppendKeepsSync`).
- `purge` keeps RAM and replay together exactly when the survivors still carry its own purge
  point and no surviving write has lost a later marker that voided it, with nothing surviving
  after it that touches the index (`PurgeIsExact`; `PurgePointIsExact` decides the first half by
  the guards of the code). When the closed segments it removes come first, that means: the Purge
  record did not fill its segment, or the last closed segment stays, or the purge had been made
  before (`PrefixPurgeIsExact`). Unlinking a later segment while an earlier one stays can resurrect
  truncated entries: five calls reach such a log (`HolesResurrect`).
- After a reopen, a purge can leave the disk with a newer commit pointer than RAM, because a
  checkpoint one record stale decided what the reopen read (`ReplayRunsAhead`);
  `PointerAfterPurgeIsExact` says exactly when. In a process that never reopened it cannot happen
  (`PurgeNeverAdvancesCommitted`).
- Damage in a segment other than the last makes segment 0 the active one. A record appended then is
  read before the later segments on the next reopen, so wherever one of them touches the same
  index the append is forgotten; a rotation then writes its checkpoint at the end of an existing
  segment (`MisplacedAppendIsForgotten`).
- `replace_all` builds a fresh vector index, so installing a snapshot drops the quantized
  search mode (`ShardStore.ReplaceAll`).
- The comment on `ProgressiveMerge` says that a hit outside the top k can never re-enter. With
  overlapping shards it can (`OverlapsBreakTheLimit`); the merge is exact precisely when no
  response lets an aircraft that it neither supersedes nor re-delivers rise
  (`ProgressiveIsExact`, `EveryLimitIsExact`).
- Packed vectors of lengths m, k and n obey the triangle inequality exactly when the middle one
  has the words both ends share (`TriangleIsExact`). Only direct callers of `hamming` can mix
  lengths: the search endpoint refuses a query of the wrong size.
- Agreement of two rankers beats a lone top rank exactly while the product of the two positions,
  counted from zero, is below 3721 (`AgreementIsExact`).
- Documents are embedded from text that lists the text map in iteration order. The module comment
  of `vector.rs`, that replicas converge to the same vectors, is true of the default
  `HashEmbedder`, which sums over a bag of words (`HashingAnswersAgree`); an order-sensitive
  embedder such as `OnnxEmbedder` is not covered by that argument. For a given document every
  embedder gives one vector in every order exactly when its field values commute pairwise
  (`OrderIsExact`), and for a given embedder all replicas answer alike exactly when it is blind to
  the order (`AnswersAreExact`).
- `tdigest.rs` and `agg.rs` call the merge of digests associative. Counts, weights and sums are, but
  the centroids are not, so percentiles can depend on which responses arrive first
  (`GroupingShows`). On shipped digests of given sizes the merge is associative exactly when one is
  empty or each is a single centroid (`MergeIsAssociativeFor`); it commutes exactly when centroids
  that share a mean do (`MergeCommutes`).
- The comment on search scores in `index.rs` speaks of term frequency; the code computes BM25,
  and the model follows the code.

## Model

| member | source | states |
|---|---|---|
| WalFrames.LeRoundTrip | crates/consensus/src/wal.rs:128-134 | little-endian integers of any width read back |
| WalFrames.ScanInvertsFraming | crates/consensus/src/wal.rs:128-190 | scanning framed records returns exactly those records, ends at the last byte and reports no corruption |
| WalFrames.CutScansToWholeFrames | crates/consensus/src/wal.rs:156-190 | for any records and any byte cut the scan returns exactly the frames wholly before the cut, with the good offset at their end, and reports corruption iff bytes remain |
| WalFrames.TruncationIsClean | crates/consensus/src/wal.rs:197-209 | any byte string, truncated at its good offset, scans to the same records with no corruption: recovery is idempotent |
| WalFrames.CutScansToPrefix | crates/consensus/src/wal.rs:156-190 | any cut of clean bytes scans to a prefix of their records, and the good offset splits the bytes at a frame boundary: both sides are clean |
| WalFrames.ScanExtends | crates/consensus/src/wal.rs:156-190 | behind a clean stretch of bytes the scan continues as if it started afresh |
| WalFrames.FrameLayout | crates/consensus/src/wal.rs:128-134 | a frame is the payload's length and checksum, each in four little-endian bytes, and the payload |
| WalFrames.ScanIsGreatest | crates/consensus/src/wal.rs:156-190 | for every byte string: it starts with the writer's frames of payloads that decode to exactly the records found, up to the good offset, and no frame of a payload that decodes follows there |
| WalFrames.FramesAreRead | crates/consensus/src/wal.rs:156-190 | whatever follows, the frames of payloads that decode are read in full, and scanning goes on behind them |
| WalFrames.DamagedPayloadStopsTheScan | crates/consensus/src/wal.rs:176-190 | a payload replaced by another of the same length and a different checksum makes the scan corrupt exactly at the start of that frame, whatever it decodes to and whatever follows |
| WalWire.CodecExists | crates/consensus/src/wal.rs:48-62 | the assumptions on the record codec can hold together |
| WalRecords.StaleCheckpointIsNeutral | crates/consensus/src/wal.rs:247-249 | the checkpoint that follows a record changes nothing iff that record does not reset a known commit pointer |
| WalRecords.HonestFold | crates/consensus/src/wal.rs:71-103 | a stream whose checkpoints are neutral folds to the fold of the issued records alone |
| WalRecords.MaxIndexBounds | crates/consensus/src/wal.rs:244-246 | a segment's max_index bounds every entry index in it |
| WalMeanings.MaxIndexIsReached | crates/consensus/src/wal.rs:244-246 | a segment's max_index is the index of some entry in it, and missing exactly when it has none |
| WalMeanings.EntriesAreLastPuts | crates/consensus/src/wal.rs:71-103 | for every record stream: the log holds an entry iff it was put there and no later record overwrites, truncates or purges its index |
| WalMeanings.PointersAreGiven | crates/consensus/src/wal.rs:71-103 | the purge point and the commit pointer are those of the last record that sets them, or, when unset since the start or the last reset, of the first checkpoint that names one |
| WalMeanings.CallsMean | crates/consensus/src/wal.rs:283-319 | what the records of each call make of the log: the last appended entry per index, nothing from a truncated index on, nothing up to the purge point, the pointer saved, and no other change |
| WalMeanings.AppendStaysBounded | crates/consensus/src/wal.rs:238-281 | an append leaves less than a full segment active, and closes a segment iff the frame brought it to the limit |
| WalMeanings.ReclaimIsExact | crates/consensus/src/wal.rs:305-311 | unlinking leaves the active file and exactly the closed files that hold an entry beyond the purge index |
| WalRecords.WalState.Apply | crates/consensus/src/wal.rs:71-103 | one record applied in RAM is the abstract record application, for every record kind |
| WalLog.ScanSegment | crates/consensus/src/wal.rs:156-196 | the scan loop finds the specified records and good offset, folds them into RAM and rebuilds max_index |
| WalLog.ScanDir | crates/consensus/src/wal.rs:145-209 | scanning stops at the first corrupt segment; what was folded is the replay of the clean prefix |
| WalLog.Wal.Open | crates/consensus/src/wal.rs:138-235 | a reopened log is the specified recovery of the listing, whatever its bytes |
| WalLog.Wal.Append | crates/consensus/src/wal.rs:238-251 | one frame written, and a rotation when the segment is full, with every directory state on the way recorded |
| WalLog.Wal.Rotate | crates/consensus/src/wal.rs:261-281 | sync, close, new segment headed by a checkpoint of the state in RAM; the recursion into append ends |
| WalLog.Wal.AppendAll | crates/consensus/src/wal.rs:285-292 | every entry written, applied and synced before the call returns |
| WalLog.Wal.TruncateTo | crates/consensus/src/wal.rs:293-298 | a truncation marker written, applied and synced |
| WalLog.Wal.Purge | crates/consensus/src/wal.rs:299-313 | the Purge record synced, then exactly the closed segments at or below the index unlinked one by one |
| WalLog.Wal.Reclaim | crates/consensus/src/wal.rs:305-311 | the unlink loop removes exactly the removable segments and passes through each partial state |
| WalLog.Wal.SaveCommittedPointer | crates/consensus/src/wal.rs:315-319 | the commit pointer written, applied and synced |
| WalCrash.CrashRecovers | crates/consensus/src/wal.rs:138-235 | whatever the cut, recovery finds every synced record and nothing unwritten, with RAM equal to the replay of the disk |
| WalCrash.DamageIsCutOff | crates/consensus/src/wal.rs:138-235 | reopening after a payload in the last segment changed under its checksum keeps the frames before it, cuts the file there and holds the replay of those records |
| WalCrash.MiddleDamageMisplacesActive | crates/consensus/src/wal.rs:212-227 | after damage before the last segment the active segment is segment 0, which is the end of the log only when it is itself the damaged one |
| WalCrash.AppendKeepsSync | crates/consensus/src/wal.rs:238-281 | one append keeps RAM equal to replay iff it does not both fill the segment and reset the commit pointer |
| WalCrash.CallIsExact | crates/consensus/src/wal.rs:285-319 | a call that unlinks nothing and does not reset the commit pointer has, on return, added exactly its records to the disk, safe from any later crash |
| WalCrash.VisitsAreBetween | crates/consensus/src/wal.rs:238-319 | every directory state inside a call that unlinks nothing keeps all acknowledged records and adds a prefix of the new ones |
| WalCrash.CrashIsExact | crates/consensus/src/wal.rs:138-319 | such a call, cut short, keeps everything before it and some prefix of its own records |
| WalCrash.RunRefinesLog | crates/consensus/src/wal.rs:1-30 | over every run of such calls and of crashes, RAM is the replay of the disk and both are the fold of the issued records with nothing acknowledged missing |
| WalMisplaced.MisplacedAppendIsForgotten | crates/consensus/src/wal.rs:212-281 | after damage that was not at the tail, an append to the first segment, filling it or not, is replayed before the later segments: at each index it touches, the next reopen has what was there without it where some later segment touches the index, and what it left elsewhere |
| WalMisplaced.AppendedReopens | crates/consensus/src/wal.rs:212-281 | the reopened log is the first segment's records, the new one, and the later records, with the rotation's checkpoint appended to an existing next segment or to a new one |
| WalReclaim.DropIsInvisible | crates/consensus/src/wal.rs:21-25 | records whose entries lie at or below the purge point can be dropped as long as the Purge record stays |
| WalReclaim.PurgeKeepsMeaning | crates/consensus/src/wal.rs:299-313 | in a safe purge (the removable segments come first and the Purge record is not among them), however many unlinks a crash leaves undone, the survivors replay to the same entries and purge point |
| WalReclaim.PurgeIsTracked | crates/consensus/src/wal.rs:299-313 | after all unlinks of a safe purge the bookkeeping describes the directory, and RAM and replay agree on entries and purge point; for any purge see PurgeIsExact |
| WalReclaim.LostPurgeRecord | crates/consensus/src/wal.rs:299-313 | one branch of PrefixPurgeIsExact: when the Purge record is rotated into a removable segment and no closed segment stays, replay remembers the purge iff it had been made before |
| WalHoles.IndexIsExact | crates/consensus/src/wal.rs:145-209 | dropping records changes what a replay holds at an index iff a kept write is followed by a dropped marker that voids it and by nothing kept that touches it |
| WalHoles.EntriesAreExact | crates/consensus/src/wal.rs:145-209 | the surviving records replay to the same entries as all records iff no index is resurrected |
| WalHoles.PurgeIsExact | crates/consensus/src/wal.rs:299-313 | for every purge of a log whose RAM and replay agree, whatever segments it unlinks: they still agree afterwards iff no index is resurrected and the survivors' purge point is the new one; entries and purge point are also decided separately |
| WalHoles.PurgePointIsExact | crates/consensus/src/wal.rs:299-313 | whatever segments a purge unlinks, its purge point survives iff the record did not fill its segment, or that segment stays, or the earlier segments that stay end in this purge point, or they name none and RAM had it |
| WalHoles.PrefixPurgeIsExact | crates/consensus/src/wal.rs:299-313 | when the removable segments come first: RAM and replay agree after the purge iff the Purge record did not fill its segment, or the last closed segment stays, or the purge had been made before |
| WalHoleRuns.HolesResurrect | crates/consensus/src/wal.rs:305-311 | a run of five calls under a concrete codec, with payloads that fill segments, after which RAM is empty and the disk holds a truncated entry again |
| WalReclaimRuns.CallIsHealthy | crates/consensus/src/wal.rs:285-319 | calls whose purges are safe and whose saved pointers never go back keep RAM, replay and the commit bound in step |
| WalReclaimRuns.CrashIsHealthy | crates/consensus/src/wal.rs:138-319 | a crash anywhere inside such a call, part-way through its unlinks too, recovers to the acknowledged log plus a prefix |
| WalReclaimRuns.PurgeNeverAdvancesCommitted | crates/consensus/src/wal.rs:299-313 | over every run of returned calls with safe purges and monotone saves, the replayed commit pointer is never ahead of the one in RAM |
| WalReclaimRuns.PointerAfterPurgeIsExact | crates/consensus/src/wal.rs:299-313 | after any safe purge the replayed commit pointer is not ahead of RAM's iff, when a saved pointer survives, it was not ahead before, and otherwise iff the first pointer in a surviving checkpoint is not ahead |
| WalReclaimRuns.ReopenedPurgeIsExact | crates/consensus/src/wal.rs:299-313 | the first purge after a reopen: the replayed commit pointer is not ahead of RAM's iff a saved pointer survives or the first pointer in a surviving checkpoint is not ahead |
| WalHoleRuns.ReplayRunsAhead | crates/consensus/src/wal.rs:261-281 | a run of calls and one crash, every purge safe and saves monotone, after which the disk's commit pointer is 2 and RAM's is 1 |
| WalReclaimRuns.ReclaimingRunRefinesLog | crates/consensus/src/wal.rs:21-25 | over every run of calls with safe purges and monotone saves, and of crashes, RAM and the surviving segments have the entries and purge point of the issued records, and no commit pointer exceeds the highest saved |
| LogStores.ReadsAreExact | crates/consensus/src/wal.rs:494-519 | reads return exactly the live entries with lo <= index < hi, once each and in index order; the last log id is the greatest live entry's, else the purge point |
| LogStores.LogStore.Append | crates/consensus/src/storage.rs:93-110 | the in-memory store after an append is the fold of the same records the durable log issues |
| LogStores.LogStore.TruncateFrom | crates/consensus/src/storage.rs:112-120 | truncation is the fold of the durable log's truncation record |
| LogStores.LogStore.Purge | crates/consensus/src/storage.rs:122-131 | purge is the fold of the durable log's Purge record |
| LogStores.LogStore.SaveCommittedPointer | crates/consensus/src/storage.rs:81-87 | saving the commit pointer is the fold of the durable log's record |
| LogStores.LogStore.TryGetLogEntries | crates/consensus/src/storage.rs:42-48 | walking the ordered map gives the specified range read |
| WalReads.RunMemory | crates/consensus/src/storage.rs:42-131 | driving the in-memory store by the calls of a run gives the state that the records of those calls fold to |
| WalReads.ReadsAgree | crates/consensus/src/wal.rs:494-519 | over every run of calls with safe purges and monotone saves, range reads, last log id, purge point and commit pointer of the durable log equal those of the in-memory store; a reopen reads the same range and last id |
| WalReads.CrashReadsAgree | crates/consensus/src/wal.rs:494-519 | with crashes too, reads of RAM and of a reopened disk are those of the records the crashes left |
| TDigestSpec.ClusterSpreads | crates/common/src/tdigest.rs:128-148 | every adjacent pair of clusters spans more than one step of the scale |
| TDigestSpec.ClusterIsTight | crates/common/src/tdigest.rs:128-148 | every cluster of several points spans at most one step |
| TDigestSpec.CompressedIsSmall | crates/common/src/tdigest.rs:112-153 | compress leaves fewer than delta + 1 centroids, for every digest |
| TDigestSpec.CompressKeeps | crates/common/src/tdigest.rs:112-153 | compress keeps the count and the sum of mean times weight, sorts the means and stays within their range |
| TDigestSpec.CompressIsIdempotent | crates/common/src/tdigest.rs:112-153 | compressing twice is compressing once |
| TDigestSpec.WireRoundTrip | crates/common/src/tdigest.rs:76-95 | a compressed digest survives the wire unchanged |
| TDigestSpec.FromPartsIs | crates/common/src/tdigest.rs:85-95 | any two arrays give the digest with exactly their pairs of positive weight, as often as they occur, by ascending mean, counting their weights |
| TDigestSpec.WireKeepsQuantiles | crates/common/src/tdigest.rs:76-95 | every quantile survives the wire |
| TDigestSpec.QuantileIsMonotone | crates/common/src/tdigest.rs:162-190 | quantiles grow with q and lie between the first and last centroid mean |
| TDigestQuantiles.QuantileBetween | crates/common/src/tdigest.rs:162-190 | between the centres of mass of two neighbouring centroids the quantile is the straight line between their means, at every share of the way |
| TDigestQuantiles.QuantileAtCentres | crates/common/src/tdigest.rs:162-190 | at a centre it is that centroid's mean, half-way between two centres the average of the two means |
| TDigestQuantiles.QuantileAtEnds | crates/common/src/tdigest.rs:162-190 | up to the first centre it is the first mean, from the last centre on the last mean, for q outside [0, 1] too |
| TDigestSpec.RunIsSmall | crates/common/src/tdigest.rs:63-110 | over every run of adds and merges there are fewer than delta + 1 centroids and fewer than 10 delta buffered samples |
| TDigestSpec.AddKeeps | crates/common/src/tdigest.rs:63-72 | adding a sample adds one to the count and the sample to the mass, and stays in range |
| TDigestSpec.MergeKeeps | crates/common/src/tdigest.rs:99-110 | a merge adds counts and masses exactly and stays in the joint range |
| TDigestMerges.MergeCommutes | crates/common/src/tdigest.rs:97-110 | for all digests: merging in either order gives the same digest under every scale iff at every mean their centroids commute |
| TDigestGroupings.SpreadMergesAssociate | crates/common/src/tdigest.rs:97-110 | if neither inner merge absorbs a point, the grouping does not matter |
| TDigestGroupings.MergeIsAssociativeFor | crates/common/src/tdigest.rs:1-10 | for every three sizes: merging is associative on all shipped digests of those sizes under every scale iff one size is zero or all are one |
| TDigestGroupings.GroupingShows | crates/coordinator/src/agg.rs:60-69 | three concrete digests of two samples each whose grouping changes the merged centroids and a percentile |
| TDigests.TDigest.Add | crates/common/src/tdigest.rs:63-72 | for any digest the method is the specified add, and a digest within the size bound stays within it; samples that are not finite are ignored |
| TDigests.TDigest.Merge | crates/common/src/tdigest.rs:99-110 | the method is the specified merge and establishes the size bound |
| TDigests.TDigest.Compress | crates/common/src/tdigest.rs:112-153 | the in-place loop computes the greedy clustering |
| TDigests.TDigest.ToParts | crates/common/src/tdigest.rs:76-82 | the arrays shipped are those of the compressed digest |
| TDigests.TDigest.FromWire | crates/common/src/tdigest.rs:85-95 | rebuilding drops non-positive weights, sorts by mean and sums the count |
| TDigests.TDigest.QuantileAt | crates/common/src/tdigest.rs:162-190 | the interpolation loop computes the specified quantile; an empty digest has none |
| Aggregates.LowerBoundBrackets | crates/shard-node/src/agg.rs:40-45 | a bucket's lower bound brackets the value from below by less than one width, for any interval |
| Aggregates.Partial | crates/shard-node/src/agg.rs:48-98 | one pass over the documents is an exact summary: count, every bucket, and a small digest with the samples' exact weight, mass and range |
| Buckets.ValueCountsAre | crates/shard-node/src/agg.rs:11-21 | a value bucket counts exactly the documents whose field of that name has that value |
| Buckets.TimeHistogramIs | crates/shard-node/src/agg.rs:40-98 | the n-th time bucket counts exactly the documents observed in the n-th interval |
| Buckets.NumericHistogramIs | crates/shard-node/src/agg.rs:24-98 | the n-th numeric bucket counts exactly the documents whose field lies in the n-th interval |
| Buckets.GeoGridIs | crates/shard-node/src/agg.rs:40-98 | a cell counts exactly the documents in that interval of latitude and that of longitude |
| Buckets.SamplesAre | crates/shard-node/src/agg.rs:24-98 | the digest is fed each value as often as documents have it in the field |
| Buckets.CountOnly | crates/shard-node/src/agg.rs:48-98 | plain counts and percentiles make no buckets |
| Aggregates.MergePartials | crates/coordinator/src/agg.rs:51-87 | the merge adds counts and buckets, merges digests in arrival order, and resolves each requested percentile from the digest it ships |
| Aggregates.MergeOfShards | crates/coordinator/src/agg.rs:51-87 | merging exact partials of shards gives an exact summary of all their documents |
| Aggregates.DistributionIsInvisible | crates/coordinator/src/agg.rs:1-5 | for every split over shards and every order of arrival the merge has the count and buckets of one pass over all documents, and the digest the same total weight and mass |
| Aggregates.DocOrderIrrelevant | crates/shard-node/src/agg.rs:48-98 | buckets, samples and their sum depend on the bag of documents only |
| Aggregates.PercentilesAreInRange | crates/coordinator/src/agg.rs:71-78 | resolved percentiles lie within the samples' range and grow with the rank |
| Documents.TextOrderIrrelevant | crates/shard-node/src/index.rs:120-134 | the iteration order of the text map does not reach the index |
| Documents.TermFreqs | crates/shard-node/src/index.rs:120-134 | the counting loop yields the multiplicity of every token |
| KeywordSpec.RepeatedTermIsFree | crates/shard-node/src/index.rs:214-240 | repeating a query term, at any place in the query, changes no match and no score |
| KeywordSpec.ScanIsOfTermSet | crates/shard-node/src/index.rs:214-240 | queries with the same set of terms, in any order and multiplicity, have the same matches and scores |
| KeywordSpec.LimitIsPrefix | crates/shard-node/src/index.rs:255-282 | a limited answer is a prefix of the unlimited ranking, which holds exactly the matching documents |
| KeywordSpec.AnswersIgnoreTextOrder | crates/shard-node/src/index.rs:120-134 | replicas whose documents differ only in the iteration order of their text maps give the same ids, scores and order to every keyword query |
| KeywordScores.AverageDocumentScore | crates/shard-node/src/index.rs:241-253 | a term found once in a document of average length scores exactly ln((n + 1) / (df + 0.5)) |
| KeywordScores.FrequencyRaises | crates/shard-node/src/index.rs:241-253 | for any increasing logarithm and equal lengths the score grows with the frequency, strictly iff k1 > 0, and stays below k1 + 1 times that logarithm |
| KeywordScores.LengthLowers | crates/shard-node/src/index.rs:241-253 | at equal frequency the longer document scores no more, and less iff k1 and b are both positive |
| KeywordScores.RarerTermFirst | crates/shard-node/src/index.rs:214-282 | of two documents alike in length and frequency, the one with the rarer of two query terms comes first in the answer, under any limit |
| KeywordScores.ScoresAdd | crates/shard-node/src/index.rs:235-253 | the scores of two lists of terms add up |
| KeywordScores.SearchFinds | crates/shard-node/src/index.rs:214-282 | without a limit a query finds exactly the aircraft whose stored document has one of its words in an indexed field |
| KeywordIndex.DocumentFrequency | crates/shard-node/src/index.rs:228-240 | the length of a postings list is the number of live documents with the term |
| KeywordIndex.TotalLength | crates/shard-node/src/index.rs:57-75 | total_len is the summed length of the live documents, whatever slots they sit in |
| KeywordIndex.InvertedIndex.Insert | crates/shard-node/src/index.rs:152-193 | an upsert: the stored map gains the document; postings, free list and lengths stay exact; slots grow only when none is free |
| KeywordIndex.InvertedIndex.Remove | crates/shard-node/src/index.rs:197-209 | the stored map loses the aircraft; its postings go and its slot is retired |
| KeywordIndex.InvertedIndex.RemovePostings | crates/shard-node/src/index.rs:138-148 | exactly the slot's postings go, and emptied lists are dropped |
| KeywordIndex.InvertedIndex.Search | crates/shard-node/src/index.rs:214-282 | hits, order, scores and total are those of a direct scan of the stored documents |
| KeywordIndex.InvertedIndex.Documents | crates/shard-node/src/index.rs:110-117 | lists exactly the live documents, each once |
| Ranking.RankIsRanked | crates/coordinator/src/fanout.rs:69-74 | sorting hits with distinct ids by score, then id, gives a strict ranking |
| Ranking.RankingIsUnique | crates/coordinator/src/fanout.rs:69-74 | two rankings of the same hits are the same list |
| Ranking.StrLtIs | crates/coordinator/src/fanout.rs:69-74 | the order of ids: one is a proper prefix of the other, or smaller at the first place they differ |
| Ranking.LimitAbsorbs | crates/coordinator/src/fanout.rs:226-237 | a hit outside the top of what was seen can never come back later |
| Quantize.QuantizeVector | crates/shard-node/src/quant.rs:45-58 | the bit-setting loop produces the packed form |
| Quantize.SignBit | crates/shard-node/src/quant.rs:45-58 | bit i of the packed words is set iff coordinate i is positive |
| Quantize.CorrectionIsProjection | crates/shard-node/src/quant.rs:45-58 | the correction times the dimension is the sum of the coordinates, each times the sign its bit keeps |
| Quantize.HammingCountsSigns | crates/shard-node/src/quant.rs:61-67 | for equal-length vectors of any size the word-wise distance is the number of differing signs |
| Quantize.HammingCountsShared | crates/shard-node/src/quant.rs:61-67 | for any two lengths the word-wise distance is the number of differing signs within the words both have |
| Quantize.HammingIsPseudometric | crates/shard-node/src/quant.rs:61-67 | zero iff signs agree, symmetric, and the triangle inequality |
| Quantize.TriangleIsExact | crates/shard-node/src/quant.rs:61-67 | for every three lengths: the triangle inequality holds of all vectors of those lengths iff the middle one has at least the words both ends share |
| VectorIndices.VectorIndex.Insert | crates/shard-node/src/vector.rs:139-165 | an upsert of the live map; slots, texts, vectors and packed forms stay in lockstep |
| VectorIndices.VectorIndex.Remove | crates/shard-node/src/vector.rs:170-184 | the live map loses the aircraft; tombstones stay below the threshold and rebuilds are paid for by removes (at most four re-insertions each) |
| VectorIndices.VectorIndex.Rebuild | crates/shard-node/src/vector.rs:189-210 | same live map, no tombstones, one re-insertion per live document |
| VectorIndices.VectorIndex.SearchFlat | crates/shard-node/src/vector.rs:271-291 | exactly the top k of the live map by score, then icao24 |
| VectorIndices.VectorIndex.SearchQuantized | crates/shard-node/src/vector.rs:236-267 | the exact top k of a Hamming-minimal candidate set of size min(4k, live), hence the flat answer whenever 4k covers the live documents |
| VectorIndices.VectorIndex.SearchHnsw | crates/shard-node/src/vector.rs:296-321 | whatever the graph answers: its first occurrences of live slots, at most k, all distinct live aircraft |
| VectorIndices.VectorIndex.Search | crates/shard-node/src/vector.rs:220-231 | on every path at most k distinct live aircraft with their current documents, and which path is exact |
| VectorIndices.FirstLiveIsDistinct | crates/shard-node/src/vector.rs:302-320 | the walk's survivors are distinct slots without a tombstone |
| VectorIndices.NearestAreMinimal | crates/shard-node/src/vector.rs:247-249 | the first n candidates by distance are Hamming-minimal |
| VectorScores.FlatIsBest | crates/shard-node/src/vector.rs:271-291 | exact search returns, in descending order, documents scored by the sum of coordinate products, as many as there are up to k, and leaves out none with a greater one |
| VectorScores.QuantizedIsBest | crates/shard-node/src/vector.rs:236-267 | the quantized search does the same among candidates none of which differs from the query in more signs than a document left out |
| VectorScores.AxisReadsCoordinate | crates/shard-node/src/vector.rs:271-291 | a query along one axis scores a document by that coordinate of its vector |
| VectorScores.OwnVectorScoresOne | crates/shard-node/src/vector.rs:271-291 | the nonzero vector of a document as the query scores that document one and no document more |
| VectorScores.OwnVectorFindsIt | crates/shard-node/src/vector.rs:271-291 | so the document is found unless k others score one as well |
| VectorScores.HeadroomSuffices | crates/shard-node/src/vector.rs:296-321 | the graph is asked for enough: as long as no more of its answers than k and 32 are tombstoned or repeated, and it holds that many, the walk finds k |
| Embeddings.EmbeddedWords | crates/shard-node/src/vector.rs:129-136 | the words a document is embedded from are exactly the words the keyword index finds in it |
| Embeddings.TokenizeSplits | crates/common/src/embed.rs:78-84 | the words of two texts joined by a space are the words of both |
| Embeddings.WordsAre | crates/common/src/embed.rs:78-84 | any character that is no letter or digit splits a text in two, and an unbroken stretch of letters and digits is one word, in lower case |
| Embeddings.CountsAdd | crates/common/src/embed.rs:45-57 | the signed counts of two word lists add up in every bucket |
| Embeddings.CountOfOne | crates/common/src/embed.rs:45-57 | one word counts for plus or minus one, by the top bit of its hash, in the bucket hash modulo 128 and nowhere else |
| Embeddings.HashedIs | crates/common/src/embed.rs:45-76 | a text's vector is its counts divided by their length, and the zero counts stay as they are |
| Embeddings.Embed | crates/common/src/embed.rs:45-57 | the hashing loop and the normalisation compute the specified vector |
| Embeddings.L2Normalize | crates/common/src/embed.rs:69-76 | in place, every coordinate divided by the norm unless that is zero |
| Embeddings.HashingKeepsContract | crates/common/src/embed.rs:34-38 | every vector has 128 coordinates and length one, or is zero |
| Embeddings.HashingEmbedsBags | crates/common/src/embed.rs:10-17 | texts with the same bag of words have the same vector |
| Embeddings.TextIsExact | crates/shard-node/src/vector.rs:129-136 | for every document: its text is the same in every iteration order iff its field values commute pairwise |
| Embeddings.OrderIsExact | crates/shard-node/src/vector.rs:1-9 | for every document: all embedders that keep the contract give it one vector in every iteration order iff its field values commute pairwise |
| Embeddings.OrderReachesText | crates/shard-node/src/vector.rs:129-136 | two one-letter fields are enough for some embedder that keeps the contract to give two replicas different vectors |
| Embeddings.AnswersAreExact | crates/shard-node/src/vector.rs:1-9 | for every embedder of a fixed dimension: replicas that differ in text order only give the same exact answers to all queries, for every k, iff it gives each document one vector in every order |
| Embeddings.HashingAnswersAgree | crates/shard-node/src/vector.rs:1-9 | with the hashing embedder such replicas always answer alike |
| ShardStores.ShardStore.Insert | crates/shard-node/src/store.rs:64-67 | both indexes gain the document together |
| ShardStores.ShardStore.Remove | crates/shard-node/src/store.rs:72-77 | gone from both indexes or from neither; the two never disagree on presence |
| ShardStores.ShardStore.EvictVshard | crates/shard-node/src/store.rs:81-94 | exactly the documents of the virtual shard go, and the count is exact; zero virtual shards evict nothing |
| ShardStores.ShardStore.ReplaceAll | crates/shard-node/src/store.rs:43-49 | the store becomes the upsert of the given documents, and leaves the quantized mode |
| ShardStores.ShardStore.Documents | crates/shard-node/src/store.rs:37-39 | a listing that upserts back to the same map |
| ShardSpecs.UpsertedIs | crates/shard-node/src/store.rs:37-49 | upserting any listing of a map restores the map |
| Placement.Fnv1a64 | crates/common/src/shard.rs:35-42 | the hash loop computes FNV-1a with wrapping arithmetic |
| Placement.KnownVectors | crates/common/src/shard.rs:78-84 | the hash of the empty string, of "a" and of "foobar" are the published FNV-1a values |
| Placement.KnownShards | crates/common/src/shard.rs:54-68 | those strings go to their hash modulo the count, for every number of shards |
| Placement.Utf8ReadsBack | crates/common/src/shard.rs:54-68 | reading the bytes of a key back as UTF-8 gives its characters, so different keys are hashed from different bytes |
| Placement.OneOwner | crates/shard-node/src/ingest.rs:74-87 | with every table entry naming a group, each aircraft has exactly one owning group |
| Placement.OneNode | crates/shard-node/src/ingest.rs:39-45 | under modulo placement each aircraft has exactly one owning node |
| Eviction.Tick | crates/shard-node/src/raft/eviction.rs:34-71 | the proposals are the held and not owned virtual shards in order, up to the first refusal |
| Eviction.TickLeavesTheOwned | crates/shard-node/src/raft/eviction.rs:52-71 | no owned document is lost whatever was accepted; a completed pass leaves exactly the owned documents |
| Eviction.OwnedSurvivesEviction | crates/shard-node/src/raft/eviction.rs:1-9 | a proposed eviction never removes a document the group owns under the table the tick read, whatever was committed in between |
| Eviction.LateEvictionIsExact | crates/shard-node/src/raft/eviction.rs:52-71 | under a later table of the same length, a proposed eviction removes exactly the documents of its virtual shard, and takes an owned one iff the virtual shard was handed back and still holds something |
| Replication.SnapshotPlusTail | crates/consensus/src/storage.rs:186-209 | restoring a state and replaying the tail is replaying the whole log |
| Replication.RunIsSound | crates/consensus/src/storage.rs:189-399 | in every run of a group, with snapshots shipped and crashes at any point, part-way through removing old snapshot files too, each replica is the log up to its last applied id and each snapshot restores to the log up to its own id |
| SnapshotFiles.RestartsKeepSnapshots | crates/consensus/src/storage.rs:189-307 | over every run: a durable replica restarts at its last snapshot or beyond, one that crashes while persisting a snapshot comes back at that snapshot or beyond, and after a completed persist any restart gives back exactly that snapshot |
| Replication.ReplicasConverge | crates/consensus/src/storage.rs:350-373 | replicas that applied the same log id have the same state and membership |
| ShardStateMachine.StateMachineStore.Apply | crates/consensus/src/storage.rs:350-373 | the loop applies the entries in order, advances last_applied and membership, and replies per entry |
| ShardStateMachine.StateMachineStore.ApplyPayloadTo | crates/shard-node/src/raft/mod.rs:61-84 | a batch upserts, an eviction evicts, an undecodable payload does nothing; the count replied is exact |
| ShardStateMachine.StateMachineStore.BuildSnapshot | crates/consensus/src/storage.rs:311-336 | the snapshot dumps the current map under the current log id and becomes the one file on disk |
| ShardStateMachine.StateMachineStore.InstallSnapshot | crates/consensus/src/storage.rs:385-399 | the store becomes the snapshot's state at the snapshot's log id |
| ShardStateMachine.StateMachineStore.constructor | crates/consensus/src/storage.rs:189-209 | booting restores the newest snapshot file, or starts empty |
| ShardStateMachine.ReplicasAnswerAlike | crates/shard-node/src/raft/mod.rs:60-96 | in every run, replicas at the same log id give the same keyword answers, and their map is that of a prefix of the log |
| ShardStateMachine.StateIsFold | crates/shard-node/src/raft/mod.rs:61-84 | the state of a log is the fold of its batch and evict commands |
| ShardHistories.LogDecides | crates/shard-node/src/raft/mod.rs:61-84 | after any log an aircraft has a document iff some batch has it last for the aircraft, and no later batch names the aircraft and no later eviction takes its virtual shard |
| ShardHistories.ReplicaHoldsLastWrites | crates/shard-node/src/raft/mod.rs:61-84 | in every run that is what each replica holds at its last applied id, through any snapshots and restarts |
| ShardHistories.LastMembership | crates/consensus/src/storage.rs:350-373 | the membership is that of the last membership entry, under its id |
| ShardHistories.ReplyCounts | crates/shard-node/src/raft/mod.rs:61-84 | the reply counts a batch's documents or the aircraft an eviction removes, as a 32-bit number |
| RegistrySpec.FailoverIsExact | crates/coordinator/src/registry.rs:324-470 | after reaping and promoting, a shard is led iff some member was fresh, fresh leaders stay, and only fresh entries remain |
| RegistrySpec.FailoverIsIdempotent | crates/coordinator/src/registry.rs:324-470 | running the failover again at the same time changes nothing |
| RegistrySpec.PromotionKeepsMembers | crates/coordinator/src/registry.rs:447-470 | promotion conserves every shard's multiset of nodes |
| RegistrySpec.ReportKeepsMembers | crates/coordinator/src/registry.rs:378-405 | a raft leader report conserves every shard's multiset of nodes |
| RegistrySpec.HeartbeatKeepsMembers | crates/coordinator/src/registry.rs:304-320 | a heartbeat conserves every shard's multiset of nodes |
| RegistrySpec.ReporterLeads | crates/coordinator/src/registry.rs:370-405 | a known reporter leads a shard afterwards, and the leaders of other shards stay |
| RegistrySpec.UpsertAt | crates/coordinator/src/registry.rs:247-254 | updating a node's first entry, or appending it, is the specified upsert |
| RegistrySpec.FollowerRegistersOnce | crates/coordinator/src/registry.rs:247-254 | a follower registering again keeps its one entry, a new one is added, and no other shard's members change |
| RegistrySpec.LiveLeaderStays | crates/coordinator/src/registry.rs:204-265 | no registration displaces a live leader |
| Liveness.HeartbeatIsSeen | crates/coordinator/src/registry.rs:304-320 | after an accepted heartbeat at t one entry of the node was last seen at t, and that is the only change |
| Liveness.ReportIsSeen | crates/coordinator/src/registry.rs:378-405 | a report at t refreshes the leader that sent it, or makes a follower the leader seen at t and the old leader the last follower with its own time; nothing else changes |
| Liveness.RegistrationIsSeen | crates/coordinator/src/registry.rs:204-265 | an accepted registration at t leaves one entry with the address sent and seen at t, and it is refused exactly for a bad shard or role or another leader seen within the liveness window |
| Liveness.ReapIsSeen | crates/coordinator/src/registry.rs:324-360 | a reap drops exactly the leaders and followers seen longer ago than the timeout and keeps the others in order |
| Liveness.PromotionIsSeen | crates/coordinator/src/registry.rs:447-470 | a promotion makes the last follower of a leaderless shard its leader, with its address and time, and changes nothing else |
| Liveness.SilentNodesGo | crates/coordinator/src/registry.rs:324-470 | after a failover no entry was last seen longer ago than the timeout |
| Liveness.BeatingLeaderLeads | crates/coordinator/src/registry.rs:304-470 | a leader that beat at t still leads its shard after a failover within the timeout |
| Liveness.BeatingFollowerStays | crates/coordinator/src/registry.rs:304-470 | a follower that beat at t is still a member of its shard after a failover within the timeout |
| Liveness.SeenLeaderStays | crates/coordinator/src/registry.rs:204-470 | over every run inside the timeouts, a leader seen at t keeps its shard unless a raft report by one of the shard's followers displaces it |
| Registries.Registry.RegisterAt | crates/coordinator/src/registry.rs:204-265 | which registrations are accepted and what they change, with the live-leader guard; leader keys stay below N and roles match tables |
| Registries.Registry.AllShardsHaveLeader | crates/coordinator/src/registry.rs:295-297 | comparing the number of leaders with N is true iff every shard of 0..N is led |
| Registries.Registry.Heartbeat | crates/coordinator/src/registry.rs:304-320 | refreshes exactly one entry of the node, a leader's first, and answers unknown iff it has none |
| Registries.Registry.ReapDead | crates/coordinator/src/registry.rs:324-360 | exactly the stale entries go; drain markers follow only when authority is not replicated |
| Registries.Registry.PromoteOrphanedShards | crates/coordinator/src/registry.rs:447-470 | every leaderless shard with followers promotes its last one, in any order of shards, and reports each once |
| Registries.Registry.ReportRaftLeader | crates/coordinator/src/registry.rs:378-405 | the reporter becomes its shard's leader and the old leader a follower entry |
| Registries.Registry.ReassignVshard | crates/coordinator/src/registry.rs:120-133 | which reassignments are refused and for what; an accepted one changes one entry and the version |
| Registries.RefusalIsExact | crates/coordinator/src/registry.rs:120-133 | a reassignment is accepted iff it names an entry and keeps the table in range; the errors tell an empty table, a bad virtual shard and a bad group apart |
| Registries.Registry.WithVshards | crates/coordinator/src/registry.rs:109-112 | round-robin placement with every entry below N |
| Registries.RoundRobinGoesRound | crates/coordinator/src/registry.rs:109-112 | the first entry is group zero, each next one the next group, and round again after the last |
| Registries.Registry.MarkDraining | crates/coordinator/src/registry.rs:410-416 | only a known node is marked |
| ControlState.ControlApp.Apply | crates/coordinator/src/control.rs:46-64 | a committed command changes the intent as a function of the intent, the payload and N alone |
| ControlState.ControlApp.SnapshotBytes | crates/coordinator/src/control.rs:66-69 | dumps the table and the sorted drain set |
| ControlState.ControlApp.Restore | crates/coordinator/src/control.rs:71-76 | replaces the intent; undecodable bytes restore the empty one |
| ControlState.SortedIsUnique | crates/coordinator/src/registry.rs:178-182 | equal drain sets list alike, so the snapshot is deterministic |
| ControlState.LocalOpsDoNotInterfere | crates/coordinator/src/control.rs:14-16 | with replicated authority, over every run the intent is the fold of what consensus delivered, whatever registrations, heartbeats, reaps, promotions and reports interleave |
| ControlState.RunCoordinator | crates/coordinator/src/control.rs:14-16 | driving a real registry and control application through any run of operations passes through the modelled states, and with replicated authority ends with the intent that consensus delivered |
| ControlState.CoordinatorsAgree | crates/coordinator/src/control.rs:14-16 | coordinators with the same deliveries have the same table and drain set however their views diverged |
| ControlState.ReapEditsIntent | crates/coordinator/src/registry.rs:350-357 | a reap changes the intent iff authority is local and some reaped node was draining |
| ControlState.LocalAuthorityDiverges | crates/coordinator/src/registry.rs:350-357 | without replicated authority one reap changes the intent |
| ControlState.RestoreThenTail | crates/coordinator/src/control.rs:66-76 | restoring a snapshot over any intent and committing the tail equals committing the whole log |
| ControlState.SnapshotMeetsReplay | crates/coordinator/src/control.rs:66-76 | a coordinator that installed a snapshot and took the tail agrees with one that took the whole log, whatever either did locally in between |
| ControlState.ControlConverges | crates/coordinator/src/control.rs:45-76 | replicas of the control group at the same log id have the same table and drain set |
| ControlHistories.LogDecides | crates/coordinator/src/registry.rs:120-133 | after any log a virtual shard belongs to the group of the last reassignment in range, or to the one it started with, and a node drains iff it did at the start or some entry drains it |
| ControlHistories.EntryDecides | crates/coordinator/src/control.rs:46-64 | one committed entry changes exactly the virtual shard or the node it names, and nothing when it is out of range or undecodable |
| ControlState.TableStaysInRange | crates/coordinator/src/registry.rs:120-133 | after any log the table keeps its length and every entry stays below N |
| ControlState.OneOwnerEverywhere | crates/coordinator/src/control.rs:14-16 | in every run, on every replica, each aircraft has exactly one owning group |
| ControlState.RoundRobinHasOneOwner | crates/coordinator/src/registry.rs:109-112 | a control group started from the round-robin table gives each aircraft exactly one owning group, on every replica, in every run |
| Fanout.BestIsGreatest | crates/coordinator/src/fanout.rs:162-187 | each aircraft keeps its (observed_at, score)-greatest hit |
| Fanout.SurvivorIsNewest | crates/coordinator/src/fanout.rs:162-187 | an aircraft survives iff some hit is its own, with a hit that none of its others beats in observation time, or in score at the same time |
| Fanout.MergedTopIs | crates/coordinator/src/fanout.rs:84-128 | the merged list has one such hit per aircraft, by descending score and then id, as many as there are aircraft up to the limit, and leaves out none that ranks better |
| Fanout.ResponsesAdd | crates/coordinator/src/fanout.rs:84-128 | hits and totals of responses add up over any split |
| Fanout.ArrivalOrderKeepsBest | crates/coordinator/src/fanout.rs:162-187 | which aircraft survive and with what observation time and score does not depend on arrival order |
| Fanout.DedupByAircraft | crates/coordinator/src/fanout.rs:175-187 | one hit per aircraft, the greatest one, in whatever order the map yields them |
| Fanout.MergeSearchResponses | crates/coordinator/src/fanout.rs:84-128 | the ranked, deduplicated, limited list with cluster-wide totals and the number of dropped duplicates; the manifest attached to it is not modelled |
| Fanout.ProgressiveMerge.Add | crates/coordinator/src/fanout.rs:226-237 | one response merged into the running top list, with the counters |
| Fanout.ProgressiveUnlimited | crates/coordinator/src/fanout.rs:193-237 | with limit zero the incremental merge equals the one-shot merge, overlaps included |
| Fanout.ProgressiveDistinct | crates/coordinator/src/fanout.rs:193-237 | with distinct aircraft the incremental top-k equals the one-shot top-k; for any aircraft see Overlaps.ProgressiveIsExact |
| Fanout.ArrivalOrderIrrelevant | crates/coordinator/src/fanout.rs:193-237 | with distinct aircraft the order in which responses arrive does not matter |
| Fanout.ShardTopsSuffice | crates/coordinator/src/fanout.rs:84-108 | merging per-shard top-k lists is the top k of merging the full lists |
| Overlaps.ResponseIsExact | crates/coordinator/src/fanout.rs:226-237 | one response merged into the running top list gives the top of everything seen iff no dropped aircraft that it neither supersedes nor re-delivers, nor its own losing hit of one, comes within the limit |
| Overlaps.ProgressiveIsExact | crates/coordinator/src/fanout.rs:189-237 | for one positive limit: the merges agree after every response iff that condition holds at every response |
| Overlaps.EveryLimitIsExact | crates/coordinator/src/fanout.rs:189-237 | for any responses: the merges agree after every response and for every positive limit iff no response lets an aircraft it does not settle rise, a condition on the responses alone |
| Overlaps.DistinctNeverRises | crates/coordinator/src/fanout.rs:189-237 | pairwise distinct aircraft meet that condition |
| Overlaps.OverlapsBreakTheLimit | crates/coordinator/src/fanout.rs:189-193 | two concrete overlapping responses after which a dropped hit should have come back, so that a positive limit makes the merges differ |
| RankFusion.RrfFuse | crates/coordinator/src/hybrid.rs:27-73 | the fold over both lists, the sort and the limit compute the specified fusion |
| RankFusion.FusionIsUnionOfScores | crates/coordinator/src/hybrid.rs:27-73 | the fused ids are the union of both lists and each score is the sum of 1/(60 + rank) over the lists |
| RankFusion.FusionShows | crates/coordinator/src/hybrid.rs:36-49 | a fused hit shows the keyword list's document, and the vector list's only when the keyword list has none |
| RankFusion.FusionIsSymmetric | crates/coordinator/src/hybrid.rs:27-73 | swapping the lists changes no id, score or position |
| RankFusion.AgreementWins | crates/coordinator/src/hybrid.rs:1-17 | a document at positions i and j of the lists, from zero, with i * j < 3721 strictly precedes every document found by only one list |
| RankFusion.ProductDecides | crates/coordinator/src/hybrid.rs:27-73 | against a lone top document, agreement at i and j comes first iff i * j < 3721, or i * j = 3721 and its id is smaller |
| RankFusion.AgreementIsExact | crates/coordinator/src/hybrid.rs:14-17 | for every i and j: agreement at those positions precedes every lone document on all lists iff i * j < 3721 |

## Left out

- Floating-point rounding, NaN ordering and infinities: numbers are reals, and a document is
  replicated only if its numbers are ones the wire formats carry.
- The HNSW graph: its answer is any list of points inserted into it; recall is not modelled.
- I/O errors, directory fsync and failed persists: file creation, rename and unlink are durable
  steps, and only the active segment can be cut by a crash.
- WalLog.Wal.Append: the class writes to the last file of the directory. After damage that was not
  at the tail the active segment is the first; the next append is modelled on values
  (`WalMisplaced`), the calls after it are not.
- WalReclaimRuns.ReclaimingRunRefinesLog: covers runs whose purges are safe and whose saved pointers never
  go back; one unsafe purge is characterised by `PurgeIsExact`, but no run goes on from it. The
  replayed commit pointer is bounded by the highest one saved, because after a reopen it may be
  ahead of RAM's (`ReplayRunsAhead`).
- WalCrash.RunRefinesLog: covers runs in which no purge unlinks a segment and no call resets a known commit
  pointer; the first is what `ReclaimingRunRefinesLog` adds, the second is exact by `AppendKeepsSync`.
- Aggregates.DistributionIsInvisible: says nothing about the percentile values themselves, which
  depend on how centroids were merged (`MergeIsAssociativeFor`); only their weight, mass, order and
  range are exact.
- TDigestGroupings.MergeIsAssociativeFor: ranges over every scale the model admits; its counterexamples use
  linear scales, not the arcsine.
- TDigestGroupings.SpreadMergesAssociate: digests without buffered samples, as the wire carries them.
- Payloads of 4 GiB and more, whose length field would wrap, are excluded by `Codec.Fits`.
- 32- and 64-bit counters in the indexes, digests and aggregates are unbounded; log indexes,
  lengths on disk and command replies keep their width.
- BM25 parameters are assumed nonnegative, with b at most one; the environment overrides that
  could violate this are not modelled.
- `build_snapshot` interleaving with `apply`: a snapshot is one atomic step.
- The state machine store is one class over the document store; the control group uses the same
  run theorem through its own application, without a second copy of the class.
- The vote file, the object store client, openraft, the gRPC transport and TLS.
- Manifests and query provenance, including the placement version stamped into them.
- The voter floor of `raft/reconcile.rs`, `members_of` and `snapshot` of the registry, node-id
  uniqueness across roles, memory accounting, and all crates outside the five parts.
