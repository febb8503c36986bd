# IoTDB pipe, subscription and aggregation-mask core in Dafny

This project models four sequential components of Apache IoTDB's data node and
proves properties of them.

- **The table-mode TsFile builder** (`PipeTableModeTsFileBuilder`). It buffers
  table-model tablets per database, groups each database's tablets by table in
  ascending table-name order, and insertion-sorts each table's tablets with the
  device-timestamp comparator (`writerPairToList`, `compareDeviceID`). It then
  seals TsFiles. Each file takes, from every table list, the longest prefix whose
  per-device time ranges do not overlap (`timestampsAreNonOverlapping`,
  `tryBestToWriteTabletsIntoOneFile`). When the writer refuses a tablet, every
  file made for that database is deleted and the failure is passed on.
- **The aggregation selection mask** (`AggregationMask`). It holds a position
  count, a `selectedPositions` array and a selected count, and filters them in
  place by a column's null bits and boolean values.
- **The subscription tablet batch** (`SubscriptionPipeTabletEventBatch`). A
  seal-once buffer of tablets with a byte-size threshold and a delay timer. It
  has accept/drop rules per event kind, a last-point filter against a cache of
  consumed times, and reference-count release on `ack`/`cleanup`.
- **The data-region assigner** (`PipeDataRegionAssigner`). It publishes
  realtime events into a queue after taking a reference. It routes each queued
  event to the matched extractors, either as a bound copy or as a rate-limited
  progress report. It also keeps a tracked maximum progress index for TsFile
  events that never regresses.

Module layout:

| file | module | content |
|---|---|---|
| `wrappers.dfy` | `Wrappers` | `Option`, `Result` |
| `java_ints.dfy` | `JavaInts` | Java `int`/`long` ranges and 64-bit wrap-around subtraction |
| `ref_counts.dfy` | `ReferenceCounting` | holder-keyed reference counts of enriched events, and the `ReferenceTracker` class |
| `progress_index.dfy` | `ProgressIndexes` | a concrete partially ordered progress index with a least-upper-bound merge |
| `string_order.dfy` | `StringOrder` | the natural (lexicographic) order of table names |
| `device_order.dfy` | `DeviceOrder` | tablets as device slices, `compareDeviceID`, `writerPairToList`, the non-overlap test and the accepted prefix |
| `builder_spec.dfy` | `BuilderSpec` | what one file-filling pass writes, the grouping by table, and the file bookkeeping |
| `tsfile_builder.dfy` | `TsFileBuilder` | the file store (writer plus file system) and the builder class |
| `aggregation_mask.dfy` | `Aggregation` | columns, the `test` predicate, the filter specification and the mask class over an `array<int>` |
| `tablet_batch.dfy` | `SubscriptionBatch` | the last-point filter (corrected and as written), and the batch class |
| `assigner.dfy` | `DataRegionAssigner` | the routing specification and the assigner class with its FIFO queue |

Conventions:

- A tablet of the builder is a table name, its timestamps, and its device
  slices `(device, endIndexExclusive)`. This is what `splitTabletByDevice`
  returns. Device identifiers are integers in `compareTo` order.
- A tablet is `WellFormed` when its slices are non-empty and consecutive, its
  devices strictly ascend, and each slice's first time is at most its last.
- The TsFile writer and the file system form one `FileStore`. It holds a set of
  live files and, per file, the chunks written: a table name plus the tablets
  written under it.
- Whether the writer accepts a tablet is an oracle `accepts`. It stands for
  schema or time problems the model cannot see.
- Every Java exception path is a `Result.Failure` or an `ok: bool` result.

## Model

| member | source | states |
|---|---|---|
| JavaInts.WrapLong | iotdb-core/datanode/src/main/java/org/apache/iotdb/db/subscription/event/batch/SubscriptionPipeTabletEventBatch.java:173-176 | the result is a `long` congruent to the input modulo 2^64, and equal to it when it already fits |
| JavaInts.LongSub | iotdb-core/datanode/src/main/java/org/apache/iotdb/db/subscription/event/batch/SubscriptionPipeTabletEventBatch.java:175 | Java `long` subtraction: exact when the difference fits, otherwise wrapped by 2^64 to a `long` |
| ReferenceCounting.Initial | iotdb-core/datanode/src/main/java/org/apache/iotdb/db/pipe/extractor/dataregion/realtime/assigner/PipeDataRegionAssigner.java:97-102 | before any call, no event has a reference and none is released |
| ReferenceCounting.Increase | iotdb-core/datanode/src/main/java/org/apache/iotdb/db/pipe/extractor/dataregion/realtime/assigner/PipeDataRegionAssigner.java:98-102 | succeeds exactly when the event is not released and can be pinned; on success the holder gains one reference; other events are untouched |
| ReferenceCounting.Decrease | iotdb-core/datanode/src/main/java/org/apache/iotdb/db/subscription/event/batch/SubscriptionPipeTabletEventBatch.java:98-102 | succeeds exactly when the holder holds a reference; the count drops by one; the event is released exactly when the last reference goes |
| ReferenceCounting.Clear | iotdb-core/datanode/src/main/java/org/apache/iotdb/db/subscription/event/batch/SubscriptionPipeTabletEventBatch.java:104-109 | the event's count becomes 0 and it is released; other events are untouched |
| ReferenceCounting.ReleasedIsFinal | iotdb-core/datanode/src/main/java/org/apache/iotdb/db/pipe/extractor/dataregion/realtime/assigner/PipeDataRegionAssigner.java:261-266 | a released event can be neither increased nor decreased any more |
| ReferenceCounting.IncreaseThenDecrease | iotdb-core/datanode/src/main/java/org/apache/iotdb/db/pipe/extractor/dataregion/realtime/assigner/PipeDataRegionAssigner.java:110-126 | a successful increase followed by a decrease by the same holder gives every event back its holders |
| ReferenceCounting.DecreaseAllOnce | iotdb-core/datanode/src/main/java/org/apache/iotdb/db/subscription/event/batch/SubscriptionPipeTabletEventBatch.java:98-102 | decreasing each of distinct held events once lowers each count by exactly one and leaves all other events alone |
| ReferenceCounting.ClearAllReleases | iotdb-core/datanode/src/main/java/org/apache/iotdb/db/subscription/event/batch/SubscriptionPipeTabletEventBatch.java:104-109 | clearing a list of events releases each with count 0, touches no other event, and releases nothing else |
| ReferenceCounting.ReferenceTracker.IncreaseReferenceCount | iotdb-core/datanode/src/main/java/org/apache/iotdb/db/pipe/extractor/dataregion/realtime/assigner/PipeDataRegionAssigner.java:98-102 | the shared state takes the `Increase` step for the event and holder, and the answer is whether it succeeded |
| ReferenceCounting.ReferenceTracker.DecreaseReferenceCount | iotdb-core/datanode/src/main/java/org/apache/iotdb/db/subscription/event/batch/SubscriptionPipeTabletEventBatch.java:98-102 | the shared state takes the `Decrease` step for the event and holder, and the answer is whether it succeeded |
| ReferenceCounting.ReferenceTracker.ClearReferenceCount | iotdb-core/datanode/src/main/java/org/apache/iotdb/db/subscription/event/batch/SubscriptionPipeTabletEventBatch.java:104-109 | the shared state takes the `Clear` step for the event |
| ProgressIndexes.Merge | iotdb-core/datanode/src/main/java/org/apache/iotdb/db/pipe/extractor/dataregion/realtime/assigner/PipeDataRegionAssigner.java:285-286 | the merge is an upper bound of both indexes and below every other upper bound (least upper bound) |
| ProgressIndexes.MinimumIsLeast | iotdb-core/datanode/src/main/java/org/apache/iotdb/db/pipe/extractor/dataregion/realtime/assigner/PipeDataRegionAssigner.java:81-82 | every index is at or after the minimum index, and only the minimum is at or before it |
| ProgressIndexes.AfterOrEqualIsPartialOrder | iotdb-core/datanode/src/main/java/org/apache/iotdb/db/pipe/extractor/dataregion/realtime/assigner/PipeDataRegionAssigner.java:273-275 | "is after or equal" is reflexive, transitive and antisymmetric |
| ProgressIndexes.MergeProperties | iotdb-core/datanode/src/main/java/org/apache/iotdb/db/pipe/extractor/dataregion/realtime/assigner/PipeDataRegionAssigner.java:285-286 | merging in an index already covered changes nothing; merge is idempotent and symmetric |
| StringOrder.LessIrreflexive | iotdb-core/datanode/src/main/java/org/apache/iotdb/db/pipe/connector/util/PipeTableModeTsFileBuilder.java:112-113 | no table name sorts before itself |
| StringOrder.LessTransitive | iotdb-core/datanode/src/main/java/org/apache/iotdb/db/pipe/connector/util/PipeTableModeTsFileBuilder.java:112-113 | the name order is transitive |
| StringOrder.LessTotal | iotdb-core/datanode/src/main/java/org/apache/iotdb/db/pipe/connector/util/PipeTableModeTsFileBuilder.java:112-113 | any two distinct names are ordered one way or the other |
| StringOrder.LessAsymmetric | iotdb-core/datanode/src/main/java/org/apache/iotdb/db/pipe/connector/util/PipeTableModeTsFileBuilder.java:112-113 | two names are never ordered both ways |
| StringOrder.InsertSorted | iotdb-core/datanode/src/main/java/org/apache/iotdb/db/pipe/connector/util/PipeTableModeTsFileBuilder.java:101-113 | inserting a name into a strictly ascending list keeps it strictly ascending, with exactly the old names plus the new one |
| DeviceOrder.FindUpTo | iotdb-core/datanode/src/main/java/org/apache/iotdb/db/pipe/connector/util/PipeTableModeTsFileBuilder.java:248 | absent exactly when no slice among the first `n` has the device; otherwise the index of a slice that has it |
| DeviceOrder.Find | iotdb-core/datanode/src/main/java/org/apache/iotdb/db/pipe/connector/util/PipeTableModeTsFileBuilder.java:248 | absent exactly when no slice has the device; otherwise the index of a slice that has it |
| DeviceOrder.CompareDeviceID | iotdb-core/datanode/src/main/java/org/apache/iotdb/db/pipe/connector/util/PipeTableModeTsFileBuilder.java:297-332 | the four-counter walk returns the number of shared devices whose first time in the first tablet is earlier than in the second, which lies between 0 and the number of shared devices |
| DeviceOrder.EarlierAtMostShared | iotdb-core/datanode/src/main/java/org/apache/iotdb/db/pipe/connector/util/PipeTableModeTsFileBuilder.java:288-296 | the count of earlier shared devices never exceeds the count of shared devices, and is 0 when the tablets share no device |
| DeviceOrder.InsertionPointMeaning | iotdb-core/datanode/src/main/java/org/apache/iotdb/db/pipe/connector/util/PipeTableModeTsFileBuilder.java:270-285 | the insertion point is right after the first element comparing nonzero whose predecessor compared 0, or the end of the list when there is no such element |
| DeviceOrder.WriterPairToList | iotdb-core/datanode/src/main/java/org/apache/iotdb/db/pipe/connector/util/PipeTableModeTsFileBuilder.java:267-286 | the list grows by exactly the new tablet, at the insertion point; removing it gives the old list back (order kept); an empty list becomes the singleton |
| DeviceOrder.TimestampsAreNonOverlapping | iotdb-core/datanode/src/main/java/org/apache/iotdb/db/pipe/connector/util/PipeTableModeTsFileBuilder.java:243-259 | true exactly when every slice starts after the last time recorded for its device; then each slice's last time is recorded for its device |
| DeviceOrder.RecordUpToFacts | iotdb-core/datanode/src/main/java/org/apache/iotdb/db/pipe/connector/util/PipeTableModeTsFileBuilder.java:253-255 | after recording slices, each device seen holds its slice's last time; other devices keep their old entries |
| DeviceOrder.PrefixLength | iotdb-core/datanode/src/main/java/org/apache/iotdb/db/pipe/connector/util/PipeTableModeTsFileBuilder.java:199-209 | the accepted prefix is no longer than the list and takes at least the first tablet of a non-empty list (the recorded map starts fresh for each list) |
| DeviceOrder.PrefixIsTimeOrdered | iotdb-core/datanode/src/main/java/org/apache/iotdb/db/pipe/connector/util/PipeTableModeTsFileBuilder.java:199-209 | in the accepted prefix, each device's slices in a later tablet start after that device's slices in every earlier tablet end |
| DeviceOrder.AcceptOrdered | iotdb-core/datanode/src/main/java/org/apache/iotdb/db/pipe/connector/util/PipeTableModeTsFileBuilder.java:201-209 | extending time-ordered tablets by the tablets the non-overlap test accepts keeps them time ordered |
| DeviceOrder.TakePrefix | iotdb-core/datanode/src/main/java/org/apache/iotdb/db/pipe/connector/util/PipeTableModeTsFileBuilder.java:199-209 | the peek-test-poll loop stops after exactly the accepted prefix |
| BuilderSpec.FlattenAppend | iotdb-core/datanode/src/main/java/org/apache/iotdb/db/pipe/connector/util/PipeTableModeTsFileBuilder.java:214-232 | the tablets of two chunk sequences written in turn are the tablets of the first followed by those of the second |
| BuilderSpec.PassKeepsTablets | iotdb-core/datanode/src/main/java/org/apache/iotdb/db/pipe/connector/util/PipeTableModeTsFileBuilder.java:196-213 | a file-filling pass loses no tablet: what it writes plus what stays in the lists is the multiset of tablets the lists held |
| BuilderSpec.PassWritesEach | iotdb-core/datanode/src/main/java/org/apache/iotdb/db/pipe/connector/util/PipeTableModeTsFileBuilder.java:200 | a pass writes at least one tablet from each list it visits |
| BuilderSpec.PassShrinks | iotdb-core/datanode/src/main/java/org/apache/iotdb/db/pipe/connector/util/PipeTableModeTsFileBuilder.java:129 | each pass strictly shrinks the tablets left, so the sealing loop ends |
| BuilderSpec.PassAcceptedFlat | iotdb-core/datanode/src/main/java/org/apache/iotdb/db/pipe/connector/util/PipeTableModeTsFileBuilder.java:222-223 | when the writer accepted every tablet the pass wrote, every written tablet is accepted |
| BuilderSpec.PassNext | iotdb-core/datanode/src/main/java/org/apache/iotdb/db/pipe/connector/util/PipeTableModeTsFileBuilder.java:196-213 | one more list whose accepted prefix the writer takes moves the pass on by exactly that chunk, leaving its suffix (or nothing) behind |
| BuilderSpec.PassRejected | iotdb-core/datanode/src/main/java/org/apache/iotdb/db/pipe/connector/util/PipeTableModeTsFileBuilder.java:222-231 | a list whose prefix the writer refuses makes the whole pass refused |
| BuilderSpec.WrittenIsGood | iotdb-core/datanode/src/main/java/org/apache/iotdb/db/pipe/connector/util/PipeTableModeTsFileBuilder.java:214-221 | a file written by one pass has one chunk per table, in strictly ascending table order, each non-empty, of that table and time ordered; so each table's schema is registered once, and only with a tablet |
| BuilderSpec.RestIsOk | iotdb-core/datanode/src/main/java/org/apache/iotdb/db/pipe/connector/util/PipeTableModeTsFileBuilder.java:211-213 | what a pass leaves is again non-empty same-table lists in ascending table order (an emptied list is removed) |
| BuilderSpec.InsertKeepsTable | iotdb-core/datanode/src/main/java/org/apache/iotdb/db/pipe/connector/util/PipeTableModeTsFileBuilder.java:116-119 | inserting a tablet into a table's list keeps the list of that table and adds exactly that tablet |
| BuilderSpec.Group | iotdb-core/datanode/src/main/java/org/apache/iotdb/db/pipe/connector/util/PipeTableModeTsFileBuilder.java:104-106 | a table's list holds well-formed tablets of that table only |
| BuilderSpec.GroupHoldsTable | iotdb-core/datanode/src/main/java/org/apache/iotdb/db/pipe/connector/util/PipeTableModeTsFileBuilder.java:104-119 | a table's insertion-sorted list holds exactly the buffered tablets of that table |
| BuilderSpec.TableNamesUpTo | iotdb-core/datanode/src/main/java/org/apache/iotdb/db/pipe/connector/util/PipeTableModeTsFileBuilder.java:104-113 | the table names are strictly ascending and are exactly the names of the buffered tablets |
| BuilderSpec.GroupsHoldAll | iotdb-core/datanode/src/main/java/org/apache/iotdb/db/pipe/connector/util/PipeTableModeTsFileBuilder.java:101-121 | the table lists together hold exactly the database's tablets |
| BuilderSpec.FileSetMeaning | iotdb-core/datanode/src/main/java/org/apache/iotdb/db/pipe/connector/util/PipeTableModeTsFileBuilder.java:126 | the set of sealed files is exactly the files named in the sealed pairs |
| BuilderSpec.RejectedIsBuffered | iotdb-core/datanode/src/main/java/org/apache/iotdb/db/pipe/connector/util/PipeTableModeTsFileBuilder.java:222-231 | a refused pass can only come from a buffered tablet the writer refuses |
| BuilderSpec.AllSealedAccepted | iotdb-core/datanode/src/main/java/org/apache/iotdb/db/pipe/connector/util/PipeTableModeTsFileBuilder.java:186 | when the sealed files hold all buffered tablets and all were accepted, the writer accepts every buffered tablet |
| TsFileBuilder.FileStore.constructor | iotdb-core/datanode/src/main/java/org/apache/iotdb/db/pipe/connector/util/PipeTableModeTsFileBuilder.java:54-56 | an empty file store with the given writer verdict |
| TsFileBuilder.FileStore.CreateFile | iotdb-core/datanode/src/main/java/org/apache/iotdb/db/pipe/connector/util/PipeTableModeTsFileBuilder.java:130-132 | a new, empty, live file that did not exist before |
| TsFileBuilder.FileStore.RegisterTableSchema | iotdb-core/datanode/src/main/java/org/apache/iotdb/db/pipe/connector/util/PipeTableModeTsFileBuilder.java:217-221 | the file gains an empty chunk for the table; nothing else changes |
| TsFileBuilder.FileStore.WriteTable | iotdb-core/datanode/src/main/java/org/apache/iotdb/db/pipe/connector/util/PipeTableModeTsFileBuilder.java:222-231 | succeeds exactly when the writer accepts the tablet, which then joins the current chunk; a refusal changes nothing |
| TsFileBuilder.FileStore.Delete | iotdb-core/datanode/src/main/java/org/apache/iotdb/db/pipe/connector/util/PipeTableModeTsFileBuilder.java:158 | the file is no longer live |
| TsFileBuilder.BuildTableLists | iotdb-core/datanode/src/main/java/org/apache/iotdb/db/pipe/connector/util/PipeTableModeTsFileBuilder.java:101-121 | one non-empty list per table, in ascending table order, each the insertion-sorted tablets of its table, together exactly the input tablets |
| TsFileBuilder.BuildAllLists | iotdb-core/datanode/src/main/java/org/apache/iotdb/db/pipe/connector/util/PipeTableModeTsFileBuilder.java:112-121 | list `k` is the insertion-sorted list of table `k`, and the lists hold exactly the input tablets |
| TsFileBuilder.BuiltListsOk | iotdb-core/datanode/src/main/java/org/apache/iotdb/db/pipe/connector/util/PipeTableModeTsFileBuilder.java:112-121 | the lists so built are non-empty, one table each, in strictly ascending table order |
| TsFileBuilder.BuildList | iotdb-core/datanode/src/main/java/org/apache/iotdb/db/pipe/connector/util/PipeTableModeTsFileBuilder.java:116-119 | inserting the table's tablets one by one, in buffer order, yields that table's sorted list |
| TsFileBuilder.TableModeTsFileBuilder.constructor | iotdb-core/datanode/src/main/java/org/apache/iotdb/db/pipe/connector/util/PipeTableModeTsFileBuilder.java:52-56 | an empty buffer over the given store, with no open writer |
| TsFileBuilder.TableModeTsFileBuilder.BufferTableModelTablet | iotdb-core/datanode/src/main/java/org/apache/iotdb/db/pipe/connector/util/PipeTableModeTsFileBuilder.java:58-61 | the tablet is appended to its database's list, which is created when absent; other databases are untouched |
| TsFileBuilder.TableModeTsFileBuilder.BufferTreeModelTablet | iotdb-core/datanode/src/main/java/org/apache/iotdb/db/pipe/connector/util/PipeTableModeTsFileBuilder.java:63-67 | always fails as unsupported |
| TsFileBuilder.TableModeTsFileBuilder.IsEmpty | iotdb-core/datanode/src/main/java/org/apache/iotdb/db/pipe/connector/util/PipeTableModeTsFileBuilder.java:81-84 | true exactly when no database is buffered |
| TsFileBuilder.TableModeTsFileBuilder.OnSuccess | iotdb-core/datanode/src/main/java/org/apache/iotdb/db/pipe/connector/util/PipeTableModeTsFileBuilder.java:86-90 | leaves the buffer empty |
| TsFileBuilder.TableModeTsFileBuilder.Close | iotdb-core/datanode/src/main/java/org/apache/iotdb/db/pipe/connector/util/PipeTableModeTsFileBuilder.java:92-96 | leaves the buffer empty |
| TsFileBuilder.TableModeTsFileBuilder.ConvertTabletToTSFileWithDBInfo | iotdb-core/datanode/src/main/java/org/apache/iotdb/db/pipe/connector/util/PipeTableModeTsFileBuilder.java:69-79 | an empty buffer yields no files; it fails exactly when the writer refuses some buffered tablet; on success every pair carries a buffered database, all files are new, distinct, live and well written, and each database's files hold exactly its tablets |
| TsFileBuilder.TableModeTsFileBuilder.WriteTableModelTabletsToTsFiles | iotdb-core/datanode/src/main/java/org/apache/iotdb/db/pipe/connector/util/PipeTableModeTsFileBuilder.java:98-187 | fails exactly when the writer refuses one of the tablets, and then no file of the call stays live; on success every pair carries the database, the files are new, distinct and well written, and together hold exactly the tablets |
| TsFileBuilder.TableModeTsFileBuilder.SealFiles | iotdb-core/datanode/src/main/java/org/apache/iotdb/db/pipe/connector/util/PipeTableModeTsFileBuilder.java:126-186 | the sealing loop: the same statement as for one database, from the list invariant |
| TsFileBuilder.TableModeTsFileBuilder.SealNext | iotdb-core/datanode/src/main/java/org/apache/iotdb/db/pipe/connector/util/PipeTableModeTsFileBuilder.java:129-184 | one loop turn either seals one more file, with fewer tablets left, or fails with every file of the call deleted and a refused tablet |
| TsFileBuilder.TableModeTsFileBuilder.SealOneFile | iotdb-core/datanode/src/main/java/org/apache/iotdb/db/pipe/connector/util/PipeTableModeTsFileBuilder.java:129-135 | opens a new file (no writer is open between passes) and fills it by one pass; success exactly when the pass is accepted, and then the file holds what the pass writes |
| TsFileBuilder.TableModeTsFileBuilder.DeleteAfterFailure | iotdb-core/datanode/src/main/java/org/apache/iotdb/db/pipe/connector/util/PipeTableModeTsFileBuilder.java:136-172 | the failing file joins the sealed ones and all are deleted, which leaves exactly the files live before the call; a refused tablet exists |
| TsFileBuilder.TableModeTsFileBuilder.DeleteSealed | iotdb-core/datanode/src/main/java/org/apache/iotdb/db/pipe/connector/util/PipeTableModeTsFileBuilder.java:157-167 | exactly the listed files stop being live |
| TsFileBuilder.TableModeTsFileBuilder.TryBestToWriteTabletsIntoOneFile | iotdb-core/datanode/src/main/java/org/apache/iotdb/db/pipe/connector/util/PipeTableModeTsFileBuilder.java:189-234 | succeeds exactly when the writer accepts every prefix the pass writes; then the file gains exactly the pass's chunks and the lists become what the pass leaves |
| TsFileBuilder.TableModeTsFileBuilder.WritePrefix | iotdb-core/datanode/src/main/java/org/apache/iotdb/db/pipe/connector/util/PipeTableModeTsFileBuilder.java:197-213 | takes exactly the accepted prefix of one list and succeeds exactly when the writer accepts it, appending one chunk of it |
| TsFileBuilder.TableModeTsFileBuilder.WriteChunk | iotdb-core/datanode/src/main/java/org/apache/iotdb/db/pipe/connector/util/PipeTableModeTsFileBuilder.java:214-232 | registers the table's schema once, then writes the tablets; succeeds exactly when the writer accepts all of them, and the file then gains one chunk of the table with exactly those tablets |
| Aggregation.Test | iotdb-core/datanode/src/main/java/org/apache/iotdb/db/queryengine/execution/operator/source/relational/aggregation/AggregationMask.java:195-203 | false exactly when the position is null, or values are tested and the value is false |
| Aggregation.Range | iotdb-core/datanode/src/main/java/org/apache/iotdb/db/queryengine/execution/operator/source/relational/aggregation/AggregationMask.java:87-89 | the select-all selection: the positions 0 to n-1 in order |
| Aggregation.FilterLength | iotdb-core/datanode/src/main/java/org/apache/iotdb/db/queryengine/execution/operator/source/relational/aggregation/AggregationMask.java:182-192 | filtering never lengthens the selection, and a filter that keeps the length keeps the selection |
| Aggregation.FilterSorted | iotdb-core/datanode/src/main/java/org/apache/iotdb/db/queryengine/execution/operator/source/relational/aggregation/AggregationMask.java:182-192 | filtering an ascending selection keeps it ascending and within the positions |
| Aggregation.FilterPasses | iotdb-core/datanode/src/main/java/org/apache/iotdb/db/queryengine/execution/operator/source/relational/aggregation/AggregationMask.java:182-192 | every position kept passes the test |
| Aggregation.FilterIdempotent | iotdb-core/datanode/src/main/java/org/apache/iotdb/db/queryengine/execution/operator/source/relational/aggregation/AggregationMask.java:182-192 | filtering twice by the same column changes nothing the second time |
| Aggregation.FilterAllPass | iotdb-core/datanode/src/main/java/org/apache/iotdb/db/queryengine/execution/operator/source/relational/aggregation/AggregationMask.java:156-158 | when every selected position passes, the selection is unchanged |
| Aggregation.FilterNonePass | iotdb-core/datanode/src/main/java/org/apache/iotdb/db/queryengine/execution/operator/source/relational/aggregation/AggregationMask.java:160-161 | when no selected position passes, the selection becomes empty |
| Aggregation.FilterWithin | iotdb-core/datanode/src/main/java/org/apache/iotdb/db/queryengine/execution/operator/source/relational/aggregation/AggregationMask.java:182-192 | filtering keeps positions within any bounds the selection was within |
| Aggregation.RunLengthAllOrNothing | iotdb-core/datanode/src/main/java/org/apache/iotdb/db/queryengine/execution/operator/source/relational/aggregation/AggregationMask.java:155-163 | on a run-length column the filter keeps everything when position 0 passes and nothing otherwise |
| Aggregation.NoNullsAllPass | iotdb-core/datanode/src/main/java/org/apache/iotdb/db/queryengine/execution/operator/source/relational/aggregation/AggregationMask.java:149-153 | without nulls and without testing values, the filter keeps everything, so the short cut is sound |
| Aggregation.Pick | iotdb-core/datanode/src/main/java/org/apache/iotdb/db/queryengine/execution/operator/source/relational/aggregation/AggregationMask.java:102-114 | the retained column has one cell per selected position, the cell at that position |
| Aggregation.AggregationMask.SelectionError | iotdb-core/datanode/src/main/java/org/apache/iotdb/db/queryengine/execution/operator/source/relational/aggregation/AggregationMask.java:61-70 | no error exactly when the position count and selected count are non-negative, the count is at most the position count, and the array is long enough |
| Aggregation.AggregationMask.CreateSelectedPositions | iotdb-core/datanode/src/main/java/org/apache/iotdb/db/queryengine/execution/operator/source/relational/aggregation/AggregationMask.java:52-55 | refused exactly on an argument error, each of the four checks reachable; otherwise a valid mask over the given array with the given counts |
| Aggregation.AggregationMask.CreateSelectAll | iotdb-core/datanode/src/main/java/org/apache/iotdb/db/queryengine/execution/operator/source/relational/aggregation/AggregationMask.java:44-46 | refused exactly for a negative count; otherwise a mask that selects all |
| Aggregation.AggregationMask.CreateSelectNone | iotdb-core/datanode/src/main/java/org/apache/iotdb/db/queryengine/execution/operator/source/relational/aggregation/AggregationMask.java:40-42 | refused exactly for a negative count; otherwise a mask that selects none |
| Aggregation.AggregationMask.SelectAll | iotdb-core/datanode/src/main/java/org/apache/iotdb/db/queryengine/execution/operator/source/relational/aggregation/AggregationMask.java:57-59 | a mask over `n` positions selecting all of them |
| Aggregation.AggregationMask.WithSelection | iotdb-core/datanode/src/main/java/org/apache/iotdb/db/queryengine/execution/operator/source/relational/aggregation/AggregationMask.java:61-75 | a mask over the given array with the given counts; below `n` its selection is the array's first `count` entries, at `n` it is in select-all mode |
| Aggregation.AggregationMask.Reset | iotdb-core/datanode/src/main/java/org/apache/iotdb/db/queryengine/execution/operator/source/relational/aggregation/AggregationMask.java:77-81 | refused exactly for a negative count, changing nothing; otherwise the mask selects all `n` positions |
| Aggregation.AggregationMask.IsSelectAll | iotdb-core/datanode/src/main/java/org/apache/iotdb/db/queryengine/execution/operator/source/relational/aggregation/AggregationMask.java:87-89 | true exactly when the selection is every position in order |
| Aggregation.AggregationMask.IsSelectNone | iotdb-core/datanode/src/main/java/org/apache/iotdb/db/queryengine/execution/operator/source/relational/aggregation/AggregationMask.java:91-93 | true exactly when the selection is empty |
| Aggregation.AggregationMask.GetSelectedPositions | iotdb-core/datanode/src/main/java/org/apache/iotdb/db/queryengine/execution/operator/source/relational/aggregation/AggregationMask.java:125-128 | fails exactly in select-all mode; otherwise the array whose first entries are the selection |
| Aggregation.AggregationMask.FilterBlock | iotdb-core/datanode/src/main/java/org/apache/iotdb/db/queryengine/execution/operator/source/relational/aggregation/AggregationMask.java:95-104 | in select-all mode the columns come back unchanged; otherwise each column is cut to the selected positions (empty when none is selected) |
| Aggregation.AggregationMask.UnselectNullPositions | iotdb-core/datanode/src/main/java/org/apache/iotdb/db/queryengine/execution/operator/source/relational/aggregation/AggregationMask.java:130-132 | refused exactly on a position-count mismatch; the selection becomes the old one without null positions |
| Aggregation.AggregationMask.ApplyMaskBlock | iotdb-core/datanode/src/main/java/org/apache/iotdb/db/queryengine/execution/operator/source/relational/aggregation/AggregationMask.java:134-138 | no mask column changes nothing; otherwise the selection keeps the positions whose mask value is true and not null |
| Aggregation.AggregationMask.UnselectPositions | iotdb-core/datanode/src/main/java/org/apache/iotdb/db/queryengine/execution/operator/source/relational/aggregation/AggregationMask.java:140-193 | refused exactly on a position-count mismatch; the count never grows; the new selection is the old one filtered by the test; select-none and the no-null short cut change nothing; the array is reallocated only from select-all when too short, and compacted in place otherwise |
| Aggregation.AggregationMask.SelectAllPath | iotdb-core/datanode/src/main/java/org/apache/iotdb/db/queryengine/execution/operator/source/relational/aggregation/AggregationMask.java:165-179 | from select-all, the array's first entries become exactly the ascending passing positions, in a new array when the old is shorter than the position count |
| Aggregation.AggregationMask.CollectPassing | iotdb-core/datanode/src/main/java/org/apache/iotdb/db/queryengine/execution/operator/source/relational/aggregation/AggregationMask.java:170-178 | the loop writes exactly the passing positions of 0 to n-1, in order, to the front of the array |
| Aggregation.AggregationMask.CompactPath | iotdb-core/datanode/src/main/java/org/apache/iotdb/db/queryengine/execution/operator/source/relational/aggregation/AggregationMask.java:182-192 | in the same array, the selection becomes the old selection filtered by the test, order kept |
| Aggregation.AggregationMask.CompactInPlace | iotdb-core/datanode/src/main/java/org/apache/iotdb/db/queryengine/execution/operator/source/relational/aggregation/AggregationMask.java:183-191 | the in-place loop leaves the filtered selection at the front and never touches entries from the new count on |
| SubscriptionBatch.ConvertToTablets | iotdb-core/datanode/src/main/java/org/apache/iotdb/db/subscription/event/batch/SubscriptionPipeTabletEventBatch.java:178-191 | an insert-node event gives its converted tablets, a raw tablet event its one tablet, any other kind none |
| SubscriptionBatch.SumSizesAppend | iotdb-core/datanode/src/main/java/org/apache/iotdb/db/subscription/event/batch/SubscriptionPipeTabletEventBatch.java:129-134 | the size of two tablet lists in turn is the sum of their sizes |
| SubscriptionBatch.LastPointCache.FilterAndMarkAsConsumed | iotdb-core/datanode/src/main/java/org/apache/iotdb/db/subscription/event/batch/SubscriptionPipeTabletEventBatch.java:213-216 | the call made per column; the callee's rule is the model's own (see Left out): newer exactly when the time is after the consumed one, which it then replaces; otherwise nothing changes |
| SubscriptionBatch.FilterUpTo | iotdb-core/datanode/src/main/java/org/apache/iotdb/db/subscription/event/batch/SubscriptionPipeTabletEventBatch.java:195-222 | the corrected filter after `k` columns has one filter bit per column seen and one first-row null bit per column |
| SubscriptionBatch.FilterMeaning | iotdb-core/datanode/src/main/java/org/apache/iotdb/db/subscription/event/batch/SubscriptionPipeTabletEventBatch.java:195-222 | a column is filtered exactly when its first row is null or stale; exactly the stale columns get their first row marked null; each path that saw a valued column now holds the later of its old time and the row's time; no path is added |
| SubscriptionBatch.DroppedMeaning | iotdb-core/datanode/src/main/java/org/apache/iotdb/db/subscription/event/batch/SubscriptionPipeTabletEventBatch.java:222 | a last-point tablet is dropped exactly when every column is null in its first row or stale |
| SubscriptionBatch.FilterAsWritten | iotdb-core/datanode/src/main/java/org/apache/iotdb/db/subscription/event/batch/SubscriptionPipeTabletEventBatch.java:195-222 | the filter as written (bitmap read at index `columnCount`, time read at the column's index of the whole timestamp array, whose slots past the row count are unused capacity) either throws or, when it completes, holds one filter bit per column seen, keeps one first-row bit per column and adds no path |
| SubscriptionBatch.BitmapIndexAlwaysThrows | iotdb-core/datanode/src/main/java/org/apache/iotdb/db/subscription/event/batch/SubscriptionPipeTabletEventBatch.java:203 | as written, any well-formed tablet with at least one column makes the filter throw, whatever the capacity of its timestamp array |
| SubscriptionBatch.ColumnTimestampCounterexample | iotdb-core/datanode/src/main/java/org/apache/iotdb/db/subscription/event/batch/SubscriptionPipeTabletEventBatch.java:216 | with the bitmap index corrected, a one-row, two-column tablet with a filter on the second column at time 1 goes wrong, while the corrected filter keeps both columns and consumes time 5: with a one-slot timestamp array the read throws; with a second, unused slot holding 0 the second column is filtered and marked null |
| SubscriptionBatch.TabletEventBatch.constructor | iotdb-core/datanode/src/main/java/org/apache/iotdb/db/subscription/event/batch/SubscriptionPipeTabletEventBatch.java:63-81 | an unsealed, empty batch of size 0 whose timer is unset (`Long.MIN_VALUE`) |
| SubscriptionBatch.TabletEventBatch.ShouldEmit | iotdb-core/datanode/src/main/java/org/apache/iotdb/db/subscription/event/batch/SubscriptionPipeTabletEventBatch.java:173-176 | the size threshold always emits; while the timer is unset and the clock is in range, only the size threshold can emit; once set, emit exactly on the size or the elapsed delay |
| SubscriptionBatch.TabletEventBatch.ConstructBatch | iotdb-core/datanode/src/main/java/org/apache/iotdb/db/subscription/event/batch/SubscriptionPipeTabletEventBatch.java:123-171 | appends the tablets of the event (none for an empty conversion, a null or a dropped last-point tablet); records insertion events with tablets and every file event; the timer starts only on the first recorded event; the size never shrinks; a last-point cache consumes exactly what the filter says |
| SubscriptionBatch.TabletEventBatch.Record | iotdb-core/datanode/src/main/java/org/apache/iotdb/db/subscription/event/batch/SubscriptionPipeTabletEventBatch.java:135-138 | the event is recorded, and the timer starts at `now` only if unset |
| SubscriptionBatch.TabletEventBatch.AddFileTablets | iotdb-core/datanode/src/main/java/org/apache/iotdb/db/subscription/event/batch/SubscriptionPipeTabletEventBatch.java:139-152 | the file's parts add exactly their converted tablets, in order |
| SubscriptionBatch.TabletEventBatch.ConvertEach | iotdb-core/datanode/src/main/java/org/apache/iotdb/db/subscription/event/batch/SubscriptionPipeTabletEventBatch.java:140-152 | converting the parts one by one gives the concatenation of their conversions |
| SubscriptionBatch.TabletEventBatch.AddTablets | iotdb-core/datanode/src/main/java/org/apache/iotdb/db/subscription/event/batch/SubscriptionPipeTabletEventBatch.java:129-134 | the tablets are appended and the size grows by exactly their summed sizes |
| SubscriptionBatch.TabletEventBatch.LastPointFilter | iotdb-core/datanode/src/main/java/org/apache/iotdb/db/subscription/event/batch/SubscriptionPipeTabletEventBatch.java:195-222 | the column loop computes the corrected filter: dropped exactly when all columns are filtered, stale columns marked null, and the cache updated as the filter consumes |
| SubscriptionBatch.TabletEventBatch.OnEvent | iotdb-core/datanode/src/main/java/org/apache/iotdb/db/subscription/event/batch/SubscriptionPipeTabletEventBatch.java:83-96 | a sealed batch returns nothing and changes nothing; otherwise the event is added, a last-point event's cache takes the consumed times of the filter, and the batch seals exactly when it should emit; at most one batch is returned, exactly when it seals, holding its tablets and recorded events |
| SubscriptionBatch.TabletEventBatch.Ack | iotdb-core/datanode/src/main/java/org/apache/iotdb/db/subscription/event/batch/SubscriptionPipeTabletEventBatch.java:98-102 | each recorded event is decreased once, in order, under the batch's holder name |
| SubscriptionBatch.TabletEventBatch.Cleanup | iotdb-core/datanode/src/main/java/org/apache/iotdb/db/subscription/event/batch/SubscriptionPipeTabletEventBatch.java:104-109 | each recorded event's count is cleared, in order |
| SubscriptionBatch.DecreaseEach | iotdb-core/datanode/src/main/java/org/apache/iotdb/db/subscription/event/batch/SubscriptionPipeTabletEventBatch.java:99-101 | the loop decreases each listed event once under the batch's holder name |
| SubscriptionBatch.ClearEach | iotdb-core/datanode/src/main/java/org/apache/iotdb/db/subscription/event/batch/SubscriptionPipeTabletEventBatch.java:106-108 | the loop clears each listed event's count |
| SubscriptionBatch.AckReleasesEachOnce | iotdb-core/datanode/src/main/java/org/apache/iotdb/db/subscription/event/batch/SubscriptionPipeTabletEventBatch.java:98-102 | acknowledging distinct events held by the batch lowers each count by one, releases exactly those at their last reference, and leaves other events alone |
| DataRegionAssigner.BindOrUpdate | iotdb-core/datanode/src/main/java/org/apache/iotdb/db/pipe/extractor/dataregion/realtime/assigner/PipeDataRegionAssigner.java:271-288 | the maximum never regresses; when the keeper reports the partition at or after the event, the event is bound to the maximum, unchanged; otherwise the maximum becomes its least upper bound with the event's index |
| DataRegionAssigner.Matched | iotdb-core/datanode/src/main/java/org/apache/iotdb/db/pipe/extractor/dataregion/realtime/assigner/PipeDataRegionAssigner.java:134-135 | exactly the registered extractors the matcher accepts |
| DataRegionAssigner.MatchOrderMeaning | iotdb-core/datanode/src/main/java/org/apache/iotdb/db/pipe/extractor/dataregion/realtime/assigner/PipeDataRegionAssigner.java:134-137 | whatever order the matcher yields, it visits exactly the matching registered extractors, as many as match, each once |
| DataRegionAssigner.RateLimit | iotdb-core/datanode/src/main/java/org/apache/iotdb/db/pipe/extractor/dataregion/realtime/assigner/PipeDataRegionAssigner.java:142-151 | for a pipe-generated non-file event and non-forwarding extractors, `k` matches from counter `c` leave the counter at `(c + k) mod (N + 1)` and produce `(c + k) div (N + 1)` reports, so one report per N + 1 matches |
| DataRegionAssigner.FileEventsAlwaysReported | iotdb-core/datanode/src/main/java/org/apache/iotdb/db/pipe/extractor/dataregion/realtime/assigner/PipeDataRegionAssigner.java:145 | a pipe-generated file event gets one report per non-forwarding match and leaves the counter alone |
| DataRegionAssigner.DeliveryShape | iotdb-core/datanode/src/main/java/org/apache/iotdb/db/pipe/extractor/dataregion/realtime/assigner/PipeDataRegionAssigner.java:142-181 | routing appends at most one delivery per matched extractor, only to matched ones; a report goes exactly to non-forwarding extractors of pipe-generated events and carries the event's progress index; otherwise a copy bound to the extractor's pipe |
| DataRegionAssigner.MaxIndexNeverRegresses | iotdb-core/datanode/src/main/java/org/apache/iotdb/db/pipe/extractor/dataregion/realtime/assigner/PipeDataRegionAssigner.java:81-82 | after routing an event to any extractors, the tracked maximum is at or after its old value |
| DataRegionAssigner.CopiesReachEveryMatch | iotdb-core/datanode/src/main/java/org/apache/iotdb/db/pipe/extractor/dataregion/realtime/assigner/PipeDataRegionAssigner.java:261-267 | when no new copy can be refused, a user event reaches every matched extractor, in order, as a fresh copy; so a refused copy skips only its own extractor |
| DataRegionAssigner.Assigner.constructor | iotdb-core/datanode/src/main/java/org/apache/iotdb/db/pipe/extractor/dataregion/realtime/assigner/PipeDataRegionAssigner.java:79-95 | counter 0, maximum index at the minimum, no extractor registered, an open and empty queue; the matcher's order lists exactly the matches |
| DataRegionAssigner.Assigner.PublishToAssign | iotdb-core/datanode/src/main/java/org/apache/iotdb/db/pipe/extractor/dataregion/realtime/assigner/PipeDataRegionAssigner.java:97-115 | a refused reference changes nothing; otherwise the event is counted and queued, or on a closed queue handed to the hook, which gives back the reference and the count |
| DataRegionAssigner.Assigner.OnAssignedHook | iotdb-core/datanode/src/main/java/org/apache/iotdb/db/pipe/extractor/dataregion/realtime/assigner/PipeDataRegionAssigner.java:117-126 | the event's reference is given back and it stops being counted |
| DataRegionAssigner.Assigner.ProcessNext | iotdb-core/datanode/src/main/java/org/apache/iotdb/db/pipe/extractor/dataregion/realtime/assigner/PipeDataRegionAssigner.java:92 | the oldest queued event is assigned in the matcher's order (or skipped when closed) and then its hook runs |
| DataRegionAssigner.Assigner.AssignToExtractor | iotdb-core/datanode/src/main/java/org/apache/iotdb/db/pipe/extractor/dataregion/realtime/assigner/PipeDataRegionAssigner.java:128-140 | a closed queue delivers nothing; otherwise the event is routed to the matched extractors in the order the matcher yields them, which lists exactly the matches |
| DataRegionAssigner.Assigner.AssignOne | iotdb-core/datanode/src/main/java/org/apache/iotdb/db/pipe/extractor/dataregion/realtime/assigner/PipeDataRegionAssigner.java:137-268 | the routing of the event to one extractor |
| DataRegionAssigner.Assigner.ReportTo | iotdb-core/datanode/src/main/java/org/apache/iotdb/db/pipe/extractor/dataregion/realtime/assigner/PipeDataRegionAssigner.java:142-170 | the report branch: rate limited when not a file event, then a report with the event's progress index when its reference is granted |
| DataRegionAssigner.Assigner.CopyTo | iotdb-core/datanode/src/main/java/org/apache/iotdb/db/pipe/extractor/dataregion/realtime/assigner/PipeDataRegionAssigner.java:173-190 | the copy branch: a TsFile copy is bound or updates the maximum, then the copy is delivered when its reference is granted |
| DataRegionAssigner.Assigner.Deliver | iotdb-core/datanode/src/main/java/org/apache/iotdb/db/pipe/extractor/dataregion/realtime/assigner/PipeDataRegionAssigner.java:261-267 | a new event is created; it reaches the extractor exactly when its reference increase succeeds |
| DataRegionAssigner.Assigner.BindOrUpdateProgressIndex | iotdb-core/datanode/src/main/java/org/apache/iotdb/db/pipe/extractor/dataregion/realtime/assigner/PipeDataRegionAssigner.java:271-288 | the bound index and the new maximum are those of the keeper's answer; nothing else changes |
| DataRegionAssigner.Assigner.StartAssignTo | iotdb-core/datanode/src/main/java/org/apache/iotdb/db/pipe/extractor/dataregion/realtime/assigner/PipeDataRegionAssigner.java:290-292 | the extractor becomes registered, the others stay |
| DataRegionAssigner.Assigner.StopAssignTo | iotdb-core/datanode/src/main/java/org/apache/iotdb/db/pipe/extractor/dataregion/realtime/assigner/PipeDataRegionAssigner.java:294-296 | the extractor is no longer registered, the others stay |
| DataRegionAssigner.Assigner.NotMoreExtractorNeededToBeAssigned | iotdb-core/datanode/src/main/java/org/apache/iotdb/db/pipe/extractor/dataregion/realtime/assigner/PipeDataRegionAssigner.java:298-300 | true exactly when no extractor is registered |
| DataRegionAssigner.Assigner.Close | iotdb-core/datanode/src/main/java/org/apache/iotdb/db/pipe/extractor/dataregion/realtime/assigner/PipeDataRegionAssigner.java:306-317 | the matcher is cleared and the queue closed |

## Left out

- `convertTabletToTSFileWithDBInfo` deletes only the failing database's files
  (`PipeTableModeTsFileBuilder.java:75-78`). Files sealed for databases visited
  earlier in the same call stay on disk and are not returned.
  `ConvertTabletToTSFileWithDBInfo` therefore promises only that no earlier
  live file is lost.
- The databases are visited in the map's iteration order. The model picks them
  in an unspecified order, and its contract holds for every order.
- `WriteUtils.splitTabletByDevice` is not part of this model. Its result is
  part of the modelled tablet: the device slices. `BufferTableModelTablet`
  requires the tablet to be `WellFormed`. That is an assumption about the
  external split, not something the source shown establishes.
- TsFileBuilder.TableModeTsFileBuilder.SealFiles: the sealing loop ends only
  under `WellFormed`. Without it the Java loop can run forever. Take a tablet
  with rows d1@5, d1@6, d2@7, d1@1, split as (d1,2), (d2,3), (d1,4).
  `timestampsAreNonOverlapping` records d1 at 6
  (`PipeTableModeTsFileBuilder.java:254-255`) and then refuses the third slice,
  since 6 >= 1 (`:249-250`), even against a fresh map (`:200`). The list's
  tablet is never taken or removed (`:201-213`), an empty file is sealed
  (`:174-183`), and `while (!table2Tablets.isEmpty())` (`:129`) repeats.
- `WellFormed` asks only that each slice's first time is at most its last, not
  that times ascend within a slice.
- Device identifiers are integers compared by `<`. Table names are compared by
  code point rather than UTF-16 unit.
- Java hashing of the mutable `LinkedList`s in the `LinkedHashSet` is not
  reproduced. The set is an ordered sequence of lists.
- The TsFile writer is the `accepts` oracle, and schema content is reduced to
  the table name. Closing a writer, `createFileWriter` and
  `FileUtils.deleteQuietly` always succeed.
- File names, `tsFileIdGenerator`, `currentBatchId` and logging are left out.
  `PipeTsFileBuilder`, the parent class (`super.onSuccess`, `super.close`), is
  not part of this model.
- `AggregationMask` column slicing (`getRegion`, `getPositions`) is external. It
  is modelled by `Pick`, which reads the selected cells.
- Aggregation.AggregationMask.UnselectPositions: a column's `mayHaveNull`
  flag is trusted. The filter statement needs `ColumnValid` (no null when the
  flag is off).
- Aggregation.AggregationMask.CreateSelectedPositions: the source's comment
  demands ascending positions, and its callers pass positions of the block.
  When the four argument checks pass, the model requires both (strictly
  ascending, within the position count) rather than checking them. Every
  argument error stays reachable and is refused.
- Tablet conversion inside subscription events is an input. So is
  `PipeMemoryWeightUtil` sizing, an abstract `tabletSize`. Subscription commit
  contexts, `getObject` value extraction and the prefetching queue are left out.
- The wall clock is the `now` parameter.
- SubscriptionBatch.TabletEventBatch.AddTablets: `totalBufferSize` is an
  unbounded integer. The Java `long` sum (`SubscriptionPipeTabletEventBatch.java:130,147,169`)
  would wrap past 2^63 - 1, which the model does not reproduce.
- SubscriptionBatch.TabletEventBatch.ConstructBatch and `OnEvent` require a
  last-point tablet to carry one first-row bit per column and at least one row
  (`Acceptable`). The source reads `timestamps` and the bitmaps without checking
  either.
- SubscriptionBatch.LastPointCache.FilterAndMarkAsConsumed: the filter class
  `LastPointFilter` is only imported (`SubscriptionPipeTabletEventBatch.java:28`).
  Its rule is not part of this model. The model takes a strictly-later-time
  rule: a value is newer only when its time is after the consumed one. The
  value argument (`getObject(...)`) is dropped. `FilterMeaning`, `Stale`,
  `DroppedMeaning` and `ColumnTimestampCounterexample` rest on this rule.
- The last-point filter returns a marked tablet. It does not mutate the
  tablet's shared bitmap in place.
- The corrected filter and the batch see a tablet's timestamps as its row
  times. Only `SubscriptionBatch.FilterAsWritten` takes the whole array,
  because only the as-written read can reach past the row count.
- A column's bitmap is reduced to its first-row bit, the only one the filter
  reads.
- Reference counting inside `EnrichedEvent` is not shown in the source. The
  model keeps a holder-keyed count per event, released at the last reference.
  Whether an event can be pinned is the `pinnable` oracle.
- The `shouldReport` flag of `decreaseReferenceCount` is left out.
- `CachedSchemaPatternMatcher` is the abstract `matches` predicate, and the
  order in which `match` yields the matching extractors is the abstract
  `matchOrder`, any arrangement of the matches. The matcher's internal cache is
  left out.
- `PipeTimePartitionProgressIndexKeeper` is the `keeper` oracle.
- The report interval is a `nat`. A negative configured `int` behaves as 0 at
  `PipeDataRegionAssigner.java:146-150`, a report on every match, which the
  model covers with interval 0.
- The progress index is a concrete instance: a pointwise-maximum map. Its
  merge is the least upper bound.
- The TsFile reading and device logging block of `assignToExtractor`
  (`PipeDataRegionAssigner.java:192-244`) is left out, as I/O. So are the
  `DeletionResourceManager` binding (`:246-259`) and
  `disableMod4NonTransferPipes`.
- Extractor fields other than the pipe name and the forwarding flag (creation
  time, task meta, patterns, extraction times) are left out.
- The disruptor's threading is a sequential FIFO that `ProcessNext` consumes.
  The per-extractor recheck of `isClosed` (`:138-140`) cannot change within one
  sequential call, so the first check covers it.
- Metrics registration, heartbeat `onPublished`/`onAssigned`, `gcSchemaInfo`
  and the event counter's internal split are left out. The event counter is a
  multiset of categories.
- `PipeConvertedInsertTabletStatement`, `SeriesSchemaFetchStatement` and
  `PlanOptimizersStatsCollector` are not part of this model. They hold field
  copying, getters and a concurrent map with no visible logic.
- The integration tests are not part of this model. They depend on
  multi-cluster sessions, sleeps and random values.

## Findings

| source | as written | input that shows it | evidently intended | confidence | as-written member | corrected member |
|---|---|---|---|---|---|---|
| iotdb-core/datanode/src/main/java/org/apache/iotdb/db/subscription/event/batch/SubscriptionPipeTabletEventBatch.java:203 | every column reads `tablet.bitMaps[columnCount]`, one past the last column | any last-point tablet with at least one column and one bitmap per column | each column reads its own bitmap, `tablet.bitMaps[i]` | not executed | SubscriptionBatch.BitmapIndexAlwaysThrows | SubscriptionBatch.FilterMeaning |
| iotdb-core/datanode/src/main/java/org/apache/iotdb/db/subscription/event/batch/SubscriptionPipeTabletEventBatch.java:216 | the freshness test reads `tablet.timestamps[i]`, indexed by column | a one-row tablet of device `root.d` with columns `s1`, `s2`, time 5, and a filter on `root.d.s2` at time 1: a one-slot timestamp array throws, and a two-slot array `[5, 0]` filters `s2` | the row's time `tablet.timestamps[0]` | not executed | SubscriptionBatch.ColumnTimestampCounterexample | SubscriptionBatch.TabletEventBatch.LastPointFilter |
