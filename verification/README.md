# Verified model of parqtel's durable ingest and log search

parqtel stores metrics, logs and traces. This project models, in Dafny, the parts of it
where correctness rests on interleavings and crash points, and proves what they promise.

**Durable ingest.** A metric is appended to a segmented write-ahead log, fed to a
queryable memory buffer and pushed into one of several sharded writers. A flush swaps all
writers at one instant; encodes then run concurrently, finish in any order and may fail;
the index may acknowledge a block in time or not; commits and buffer drops follow the
flush order; after a crash the block footers and the log rebuild the state.
`Ingest.dfy` is this protocol as a state machine with one step per lock-protected section,
built on byte-level framing (`WalFrame.dfy`), the segmented log (`WalLog.dfy`,
`LogFiles.dfy`), the chain of block ranges (`Coverage.dfy`), the flush order
(`FlushOrder.dfy`), the splitting writers (`Writer.dfy`) and the buffer's epoch runs
(`MemoryBuffer.dfy`). `IngestSafety.dfy` and `IngestRecovery.dfy` prove crash safety and
the exact replay boundary, `DropHistory.dfy` and `SelfClosing.dfy` over all runs, and
`IngestVisibility.dfy` and `ExactVisibility.dfy` over runs whose pushes fit, when
acknowledged points stay visible, `RowCounter.dfy` how far off the row counter is. `Rotator.dfy` is the rotator as an object whose methods refine the steps,
`BufferRefinement.dfy` ties the buffer and block writer objects to the protocol, `Witness.dfy` shows
that the assumptions can be met, and `Failures.dfy` holds runs and files that break
promises. The `Serial*.dfy` files do the same for logs and traces, which are rotated one
block at a time.

**Log search.** `LogQuery.dfy` gives predicates a meaning and proves that flattening and
preparing preserve it; `LogPrefilter.dfy` that the column conditions taken from a
predicate are necessary and, when marked exact, sufficient, the variant for bare field names
exactly where its documented restriction holds; `LogGranules.dfy` and `LogSkipIndex.dfy`
when skipping granules loses no match; `TextSearch.dfy` that the anchored search is the
naive one.

**Arithmetic.** `Histogram.dfy` (quantiles and fractions), `Downsample.dfy` and
`RangeFunctions.dfy` (step and lookback windows, counter functions), over exact reals and
unbounded integers.

Parameters of the model: the checksum, the payload codec (any codec that decodes what it
encoded), shard routing, regex matching, number parsing, Unicode lower-casing, UTF-8 and
hex encodings, hash functions and bloom filter sizes, and the outcome of every operation
that can fail (appends, syncs, block writes, encodes, index acknowledgements, commits).

## Findings

Promises that the code does not keep in full. Each has its exact condition and, where a run
or a file is needed to see it, one that breaks the promise.

- Replay stops at a record whose checksum fails, while reopening only looks at lengths, so
  the two boundaries differ exactly when replay stops at a whole record
  (`WalFrame.ReopenAgreesWithReplay`), and then nothing appended later is ever read back
  (`WalLog.ReopenReadsBackIff`, with the file of `LogFailures.AppendedIsUnreadable`);
  replaying first removes the danger (`WalLog.ReplayHealsReopen`). A comment at
  parqtel-core/src/wal.rs:885 says a corrupted payload does not stop later records from
  being read; the code stops, and the model follows the code.
- A push that makes its writer close a block drops its own still open tail from the buffer
  (`SelfClosing.VisibleIffItFits`, `MetricFailures.SelfClosingHidesTail`), and with it every
  earlier epoch of its shard, so that the points of a flush that is still encoding are in
  neither buffer nor block although nothing has failed
  (`SelfClosing.OnlyPublishedIsVisible`, `MetricFailures.EncodingIsHidden`).
- A failed flush's points stay in the buffer only until a drop reaches their epoch
  (`DropHistory.BufferedIffNotDropped`): that of a later flush of the same shard
  (`ExactVisibility.VisibleIffNotHidden`, `MetricFailures.FailedFlushIsDropped`) or that of a
  push that closes a block there (`MetricFailures.FailedIsHiddenByClosing`).
- A flush whose index acknowledgement did not come in time is dropped from the buffer
  although the index may not know its block (`DropHistory.KnownIff`,
  `ExactVisibility.KnownIffAcknowledged`, `MetricFailures.UnacknowledgedIsDropped`).
- A push that fails into a writer with room leaves the row counter wrong
  (`RowCounter.StepCounts`, `MetricFailures.FailedPushMiscounts`), and the next swap takes it
  below zero (`RowCounter.SwapUnderflowsIff`, `MetricFailures.FailedPushUnderflows`).
- Log and trace rows of a failed encode are lost once a later commit passes them
  (`SerialRecovery.LostIffFailedAndCommitted`, `SerialFailures.FailedFlushIsLost`), and a
  failed inline block write leaves the buffer out of step with the writer
  (`SerialRecovery.PushAligns`, `SerialFailures.FailedWriteMisaligns`).
- The skip index has no term for an all-zero trace or span id, but an equality on such an
  id matches rows (`LogSkipIndex.MatchIsNotSkipped`, `LogSkipIndex.LosesZeroId`).
- A first histogram bucket that ends at or below zero breaks monotonicity or the inverse
  (`Histogram.QuantileMonotoneIff`, `Histogram.FractionOfQuantileIff`).
- The lookback window ends at `t + step`, not at `t` as its comment says, which makes a
  difference exactly when a point lies in the step (`RangeFunctions.WindowEndsAtStepIff`,
  `RangeFunctions.SeesAhead`).

## Model

| member | source | states |
|---|---|---|
| LittleEndian.Le32RoundTrip | parqtel-core/src/wal.rs:639-640 | a u32 header field survives its four little-endian bytes |
| LittleEndian.FromLe32RoundTrip | parqtel-core/src/wal.rs:373-382 | and every four bytes are the encoding of the number read from them |
| WalFrame.EncodeRecordInto | parqtel-core/src/wal.rs:633-642 | appends exactly one frame (length, checksum, payload) to the buffer, whatever it held before |
| WalFrame.EncodeBatch | parqtel-core/src/wal.rs:632-642 | framing records into one buffer is the concatenation of their frames |
| WalFrame.ReadRecord | parqtel-core/src/wal.rs:373-397 | a record is accepted exactly when it is whole and its checksum matches |
| WalFrame.ScanSegment | parqtel-core/src/wal.rs:370-421 | the replay loop delivers the intact records of a segment with their end offsets, and reports where and why it stopped |
| WalFrame.LastCompleteOffset | parqtel-core/src/wal.rs:532-553 | the reopen loop returns the end of the last whole record |
| WalFrame.FrameIsIntact | parqtel-core/src/wal.rs:372-397 | a frame anywhere in a file is read back as its payload for every checksum function |
| WalFrame.ScanIsFramed | parqtel-core/src/wal.rs:370-421 | whatever bytes a file holds, what replay reads from it is precisely the framing of the payloads it delivers |
| WalFrame.ReopenAgreesWithReplay | parqtel-core/src/wal.rs:532-553 | reopening finds replay's boundary if and only if replay did not stop at a whole record (one whose checksum fails); otherwise it lies further on |
| WalFrame.TornTail | parqtel-core/src/wal.rs:388-392 | a framed file cut at any byte yields exactly the records wholly inside the cut, and no whole record follows them |
| WalFrame.AppendFramed | parqtel-core/src/wal.rs:237-254 | appending framed records to a clean file adds exactly those records and leaves it clean |
| WalFrame.AppendTornAs | parqtel-core/src/wal.rs:241-245 | a torn append to a clean file adds exactly the records that were written whole |
| WalLog.WalWriter.constructor | parqtel-core/src/wal.rs:162-198 | opening reuses the newest segment cut back to its last whole record, or starts a new one when it is full |
| WalLog.WalWriter.AppendEncoded | parqtel-core/src/wal.rs:237-261 | refuses when poisoned, poisons on a short write, otherwise appends, returns the end position and rolls over a full segment |
| WalLog.WalWriter.Roll | parqtel-core/src/wal.rs:268-276 | starts the next, empty segment |
| WalLog.WalWriter.RemoveCoveredSegments | parqtel-core/src/wal.rs:315-327 | deletes precisely the segments before the one the commit lies in |
| WalLog.Replay | parqtel-core/src/wal.rs:347-432 | delivers, over all segments, exactly the records past the commit in order; counts the others; cuts unusable tails |
| WalLog.EntriesIncreasing | parqtel-core/src/wal.rs:398-402 | positions grow strictly across records and segments |
| WalLog.AppendAdds | parqtel-core/src/wal.rs:237-261 | an append adds its records, and nothing else, to what the files hold, across rollover |
| WalLog.FailedAppendAdds | parqtel-core/src/wal.rs:241-245 | a failed append keeps every earlier record and adds only records written whole |
| WalLog.RemoveCoveredKeeps | parqtel-core/src/wal.rs:315-327 | what deletion removes is a prefix of the log that lies at or below the commit |
| WalLog.RemoveCoveredReplays | parqtel-core/src/wal.rs:306-327 | deleting covered segments changes no replay from the commit or later |
| WalLog.ReplayExact | parqtel-core/src/wal.rs:237-276 | for any records, batching and segment limit, replay from the position an append returned delivers exactly the records appended later, through rollovers and deletions |
| WalLog.ReplayFromStart | parqtel-core/src/wal.rs:347-432 | from an empty log, replay delivers everything ever appended |
| WalLog.ReopenSound | parqtel-core/src/wal.rs:512-553 | reopening loses no readable record; the reopened log is in step with its files if and only if the newest file is full or replay of it does not stop at a whole record |
| WalLog.ReopenReadsBackIff | parqtel-core/src/wal.rs:512-553 | records appended after reopening are read back, behind all earlier ones, if and only if the newest file is full or replay of it does not stop at a whole record; otherwise not one of them is |
| WalLog.ReplayHealsReopen | parqtel-core/src/wal.rs:423-430 | a file that replay has cut keeps its records and meets that condition, so replaying before reopening makes later appends readable |
| LogFailures.BadFileIsKept | parqtel-core/src/wal.rs:532-553 | an eight-byte file whose one record has a wrong checksum: replay stops at its start, reopening keeps it |
| LogFailures.AppendedIsUnreadable | parqtel-core/src/wal.rs:512-553 | whatever is appended to that file after reopening, replay delivers nothing |
| WalLog.CutReopenAppend | parqtel-core/src/wal.rs:512-553 | torn tail end to end: cut the newest segment at any byte, reopen and append; the log is the older segments, the records wholly inside the cut, then the new records |
| Coverage.CoveredThrough | parqtel-core/src/wal.rs:604-617 | terminates at the greatest position such that everything from the commit to it lies in some block range |
| Coverage.ThroughIsReach | parqtel-core/src/wal.rs:592-603 | the chain walk computes that greatest position |
| Coverage.ReachIsUnique | parqtel-core/src/wal.rs:604-617 | the result depends on the set of ranges only, not on their order |
| Coverage.ThroughIsIdempotent | parqtel-core/src/wal.rs:604-617 | starting over from the result finds nothing more |
| Coverage.ThroughIsMonotone | parqtel-core/src/wal.rs:604-617 | a later commit or more ranges never shorten the reach |
| Coverage.RangeRoundTrip | parqtel-core/src/wal.rs:581-590 | a footer value is read back as the range it encodes, and rejected when it runs backwards |
| Coverage.FootersReadBack | parqtel-core/src/wal.rs:575-590 | recovery sees exactly the ranges that blocks were written with |
| FlushOrder.Tracker.Begin | parqtel-ingest/src/service.rs:649-653 | numbers flushes consecutively |
| FlushOrder.Tracker.WalComplete | parqtel-ingest/src/service.rs:657-665 | the loop moves the frontier over everything finished and returns the maximum of the positions it passed |
| FlushOrder.Tracker.DropComplete | parqtel-ingest/src/service.rs:670-686 | the same for epoch vectors, combined element-wise |
| FlushOrder.RaiseTo | parqtel-ingest/src/service.rs:677-679 | the in-place loop computes the element-wise maximum |
| FlushOrder.TracksComplete | parqtel-ingest/src/service.rs:655-665 | each completion leaves the frontier at the least unfinished flush and releases exactly the flushes it moved over |
| FlushOrder.ReleasesThePrefix | parqtel-ingest/src/service.rs:620-637 | after distinct completions in any order, everything released combines to the fold over exactly the finished prefix, nothing past an unfinished flush |
| FlushOrder.OrderDoesNotMatter | parqtel-ingest/src/service.rs:620-637 | two orders of the same completions leave the same state and release the same |
| FlushOrder.MaximaAreAssociative | parqtel-ingest/src/service.rs:661-679 | position maximum and vector maximum both qualify for those laws |
| FlushOrder.FoldMax | parqtel-ingest/src/service.rs:657-665 | what is released is an upper bound of the prefix that some flush attains |
| FlushOrder.FoldMaxVec | parqtel-ingest/src/service.rs:667-686 | and so for each shard of an epoch vector |
| Writer.BlockWriter.PushMetric | parqtel-ingest/src/writer.rs:113-142 | the splitting loop refines the recursive description of a push, with its blocks, epoch and failure |
| Writer.BlockWriter.Flush | parqtel-ingest/src/writer.rs:185-294 | closes the open rows as one block and starts the next epoch; an empty writer or a failed write changes nothing |
| Writer.PushConserves | parqtel-ingest/src/writer.rs:102-142 | closed blocks followed by open rows are the old rows followed by the accepted points, which are all of them exactly when the push succeeds |
| Writer.PushBounds | parqtel-ingest/src/writer.rs:120-142 | only full blocks are closed, one epoch each, and capacity is never exceeded |
| Writer.PushFits | parqtel-ingest/src/writer.rs:120-142 | a push that fits closes nothing; any other successful push closes a block and leaves rows open |
| Writer.PushOkIff | parqtel-ingest/src/writer.rs:120-142 | a push succeeds if and only if its points fit the open block and one more block for each block write that succeeds |
| Writer.Merge | parqtel-ingest/src/writer.rs:156-176 | the merged writer holds every shard's points in shard order |
| MemoryBuffer.PushTags | parqtel-core/src/buffer.rs:116-127 | appending points with run-length marks is appending their tags one by one |
| MemoryBuffer.DropTags | parqtel-core/src/buffer.rs:157-168 | dropping whole runs and rebasing the rest leaves exactly the tags of the remaining points |
| MemoryBuffer.DropRunsIsDropLen | parqtel-core/src/buffer.rs:148-164 | the leading droppable runs are exactly the longest droppable prefix of points |
| MemoryBuffer.DropIsExact | parqtel-core/src/buffer.rs:135-165 | for one shard's nondecreasing epochs that prefix is exactly the points at or below the sealed epoch |
| MemoryBuffer.Buffer.PushTagged | parqtel-core/src/buffer.rs:100-133 | adds the points with their tags to one metric and keeps every slot's marks and series list valid |
| MemoryBuffer.Buffer.DropSealed | parqtel-core/src/buffer.rs:140-186 | sheds from every metric exactly its longest droppable prefix, keeping runs and series lists valid |
| MemoryBuffer.PushSlot | parqtel-core/src/buffer.rs:112-132 | points, marks and the series registry move together |
| MemoryBuffer.DropSlot | parqtel-core/src/buffer.rs:147-181 | drops the prefix, rebases the marks and rebuilds the registry |
| MemoryBuffer.ScanMetrics | parqtel-core/src/buffer.rs:215-236 | the points of the time window, in order |
| MemoryBuffer.ScanFiltered | parqtel-core/src/buffer.rs:238-293 | equals filtering the plain scan by the series predicate, in order, although it decides by label address |
| MemoryBuffer.AddressDecides | parqtel-core/src/buffer.rs:254-292 | deciding once per registered address is deciding per point, because every point's label set is registered |
| LogFiles.AppendKeeps | parqtel-core/src/wal.rs:237-261 | the files hold a suffix of everything ever logged; an append extends both |
| LogFiles.TornKeeps | parqtel-core/src/wal.rs:241-245 | a torn append extends both by the records written whole |
| LogFiles.CommitKeeps | parqtel-core/src/wal.rs:306-327 | deleting covered segments shortens the suffix only at or below the bound |
| LogFiles.ReplaysAll | parqtel-core/src/wal.rs:347-432 | from any point past the deletions, replaying the files is replaying the whole log |
| BufferRefinement.Feed | parqtel-core/src/buffer.rs:100-133 | a buffer object that follows the protocol's buffer, metric by metric with points, tags and order, still does after it is fed a push's points |
| BufferRefinement.Drop | parqtel-core/src/buffer.rs:140-186 | and after it drops sealed epochs run by run |
| BufferRefinement.PushHeld | parqtel-ingest/src/service.rs:424-448 | the rest of a push on the buffer object and the block writer object, with its feed, its splitting push and its drop, follows the insert step |
| BufferRefinement.BufferedIsHeld | parqtel-core/src/buffer.rs:215-236 | so what the visibility results call buffered is among the points a scan of the object reads |
| Witness.SoundConfigExists | parqtel-ingest/src/service.rs:151-165 | sound configurations exist for every shard count, capacity and segment limit, so the results below are about something |
| Witness.FirstPushIsAcknowledged | parqtel-ingest/src/service.rs:382-471 | from a fresh start a push that fits is logged at the first position and acknowledged |
| IngestSafety.StepIsSafe | parqtel-ingest/src/service.rs:382-836 | every step of push, swap, encode, index, commit and buffer drop, successful or failed, keeps the invariant linking log positions, writers, flushes, block ranges and the commit point |
| IngestSafety.RunIsSafe | parqtel-ingest/src/service.rs:382-836 | hence every run does |
| IngestSafety.IndexKeepsFlush | parqtel-ingest/src/service.rs:804-819 | an index acknowledgement moves the bound over the finished prefix and releases a position no later than it |
| IngestSafety.SwapIsSafe | parqtel-ingest/src/service.rs:521-583 | the swap under all shard locks keeps the invariant |
| IngestSafety.CommitIsSafe | parqtel-ingest/src/service.rs:812-818 | a commit in any order, complete or cut short between writing the file and deleting segments, keeps it |
| IngestRecovery.NothingIsLost | parqtel-ingest/src/service.rs:516-617 | crash safety: from an empty log and after any run, each acknowledged record is replayed as it was or has all its points in blocks on disk; the latter whenever it is at or below the commit point |
| IngestRecovery.RecoveryIsExact | parqtel-ingest/src/service.rs:746-836 | after any run recovery replays, in order, precisely the records ever logged past the point it reaches |
| IngestRecovery.TornRecoveryIsExact | parqtel-core/src/wal.rs:347-432 | the same when the crash cuts an append after any number of bytes; the cut record is replayed exactly when it is whole |
| IngestRecovery.ReachesBound | parqtel-ingest/src/service.rs:806-815 | recovery reaches at least the end of the finished prefix even if the commit file was overtaken and moved back |
| IngestRecovery.SwapCoversAcknowledged | parqtel-ingest/src/service.rs:525-541 | every acknowledged record lies at or below the position read at the swap, in a writer taken now, an earlier flush or a block a writer closed itself |
| IngestRecovery.SwapExcludesLater | parqtel-ingest/src/service.rs:525-541 | a record past that position is in none of them, then or at any later time |
| IngestRecovery.RangesPartitionTheLog | parqtel-ingest/src/service.rs:567-572 | in every reachable state each position up to the cursor lies in exactly one flush range |
| IngestVisibility.AcknowledgedIsVisible | parqtel-ingest/src/service.rs:414-469 | in every run where pushes fit and encodes succeed, every acknowledged point is at every step in the memory buffer or in a published block, whatever order encodes finish in |
| IngestVisibility.AcknowledgedIsVisibleUnless | parqtel-ingest/src/service.rs:667-686 | with encode failures too, in every run where pushes fit, an acknowledged point is in the buffer, in a published block, or in a flush that failed before a later flush of its shard succeeded |
| ExactVisibility.VisibleIffNotHidden | parqtel-ingest/src/service.rs:633-686 | the case of runs whose pushes fit, in terms of the flushes alone: at every state where no decided but unfinished drop reaches the point's epoch, an acknowledged point is visible if and only if it is not in a failed flush behind which a later flush of its shard succeeded and was released |
| ExactVisibility.SettledVisibleIff | parqtel-ingest/src/service.rs:633-686 | so in every state without unfinished drops that condition is exact for every acknowledged point |
| ExactVisibility.KnownIffAcknowledged | parqtel-ingest/src/service.rs:804-834 | counted from the index acknowledgement: a point is buffered or in an acknowledged block if and only if its flush was acknowledged, or no flush of its shard from its own on succeeded and was released |
| ExactVisibility.StepKeepsExact | parqtel-ingest/src/service.rs:670-744 | every such step keeps what makes it exact: slots in epoch order, every block that of one flush, and whatever the finished prefix sealed either dropped or about to be |
| MetricFailures.FailedFlushIsDropped | parqtel-ingest/src/service.rs:633-686 | a run of thirteen steps from the start: two pushes, the first encode fails, the second succeeds, and the first push is acknowledged but in neither buffer nor block |
| MetricFailures.UnacknowledgedIsDropped | parqtel-ingest/src/service.rs:820-834 | a run of seven steps from the start: an encode succeeds, the acknowledgement does not come, and the point is dropped from the buffer with no acknowledged block holding it |
| MetricFailures.SelfClosingHidesTail | parqtel-ingest/src/service.rs:426-447 | a first push of more points than a block holds is acknowledged and its last point is invisible right after |
| MetricFailures.FailedPushMiscounts | parqtel-ingest/src/service.rs:434-468 | a first push of more points than a block holds, whose block write fails, leaves a block of open rows with the counter at zero |
| MetricFailures.TinyService | parqtel-ingest/src/service.rs:151-165 | one shard, blocks of one point and a metric of one or two points meet the conditions of these runs |
| IngestVisibility.StepKeepsView | parqtel-ingest/src/service.rs:670-686 | the invariant behind it, linking buffer tags, sealed epochs and the drop order, is kept by every such step |
| IngestVisibility.ReleaseKeepsDrop | parqtel-ingest/src/service.rs:729-744 | what a flush releases is backed, shard by shard, by a flush of the finished prefix |
| SelfClosing.VisibleIffItFits | parqtel-ingest/src/service.rs:426-447 | after any run, a successful push leaves all its points visible if and only if they fit the writer's room: a self-closing push drops its own open tail |
| SelfClosing.OnlyPublishedIsVisible | parqtel-ingest/src/service.rs:438-447 | after any run, right after a successful push of more points than the room, a point of that shard, of whatever push, is visible if and only if a published block holds it: what is still encoding is gone as well |
| DropHistory.BufferedIffNotDropped | parqtel-ingest/src/service.rs:424-447 | over every run, whether pushes fit or not, a point of an acknowledged record is in the buffer if and only if the furthest drop the run made on its shard, by a flush or by a push that closed a block, stays below the epoch the record was acknowledged in |
| DropHistory.VisibleIff | parqtel-ingest/src/service.rs:414-469 | so over every run it is visible if and only if a published block holds it or no drop reached its epoch |
| DropHistory.KnownIff | parqtel-ingest/src/service.rs:804-834 | and buffered or in an acknowledged block if and only if its flush was acknowledged or no drop reached its epoch |
| DropHistory.StepDrops | parqtel-ingest/src/service.rs:438-447 | each step of any kind moves the furthest drop of a shard exactly as far as it drops and keeps everything past it |
| MetricFailures.EncodingIsHidden | parqtel-ingest/src/service.rs:438-447 | a run of five steps from the start in which nothing fails: while a flush is still encoding, a later push of the shard that closes a block leaves the flushed, acknowledged point in neither buffer nor block |
| MetricFailures.FailedIsHiddenByClosing | parqtel-ingest/src/service.rs:633-637 | a run of eight steps from the start: a failed flush's point is dropped by the next block its shard closes, without any later flush |
| RowCounter.CounterIsExact | parqtel-ingest/src/service.rs:434-469 | over every run in which each push finds its shard full or able to take all its points (room plus a block per successful write), the counter equals the rows open in the shards |
| RowCounter.StepCounts | parqtel-ingest/src/service.rs:448-468 | from a true count, one step keeps it true if and only if it is not a push of more points than the room plus a block per successful write into a writer with room |
| RowCounter.CounterIsTotalLessMissed | parqtel-ingest/src/service.rs:434-469 | over every run the counter is the open rows less what failed pushes left open without counting |
| RowCounter.SwapUnderflowsIff | parqtel-ingest/src/service.rs:542-560 | a swap leaves the counter at minus what was missed, so it goes below zero, where the unsigned counter wraps, if and only if a push failed into a writer with room |
| MetricFailures.FailedPushUnderflows | parqtel-ingest/src/service.rs:434-468 | a first push that fails into an empty writer, then a swap: the counter is a block below zero |
| RowCounter.FailedPushLeavesFull | parqtel-ingest/src/writer.rs:120-125 | a push fails only in front of a full writer |
| Rotator.BlockRotator.FlushLocked | parqtel-ingest/src/service.rs:516-583 | refines the swap step and never underflows the counter |
| Rotator.BlockRotator.InsertHeld | parqtel-ingest/src/service.rs:426-468 | refines the insert step: buffer, writer, published blocks, drop, counter and outcome |
| Rotator.TakeWriters | parqtel-ingest/src/service.rs:542-560 | the loop over shards takes every non-empty writer, seals its epoch, starts the next and gives up its rows from the counter |
| Rotator.Publish | parqtel-ingest/src/service.rs:434-438 | publishes each closed block and counts its rows |
| SerialSafety.StepIsSafe | parqtel-ingest/src/service.rs:1072-1255 | every step of the log and trace rotator keeps its invariant: rows taken in order and once, ranges in sequence, commit at the end of a block on disk |
| SerialRecovery.LostIffFailedAndCommitted | parqtel-ingest/src/service.rs:1191-1224 | after any run an acknowledged row is lost in a crash if and only if its flush's encode failed and the commit point has passed it |
| SerialRecovery.NothingIsLost | parqtel-ingest/src/service.rs:1177-1249 | without encode failures every acknowledged row is replayed or in a block on disk |
| SerialRecovery.ReplayIsExact | parqtel-core/src/wal.rs:347-432 | recovery replays exactly the rows logged past the point it reaches |
| SerialRecovery.StaysAligned | parqtel-ingest/src/service.rs:1072-1114 | over every run whose batches fit the open block plus a block per successful write, with oversized batches and failed encodes, the buffer is the rows in flight followed by the open rows in push order |
| SerialRecovery.PushAligns | parqtel-ingest/src/service.rs:1099-1113 | a push keeps that alignment if and only if its rows fit the open block plus a block per successful write |
| SerialRecovery.DropAligns | parqtel-core/src/buffer.rs:397-414 | dropping the oldest n removes exactly the finished block's rows |
| SerialIngest.PushRowsConserves | parqtel-ingest/src/writer.rs:328-335 | rows through a log or trace writer are neither lost nor reordered, and all taken exactly when the push succeeds |
| SerialIngest.PushRowsOkIff | parqtel-ingest/src/writer.rs:328-335 | a batch is taken whole if and only if it fits the open block plus a block per successful write |
| SerialFailures.FailedFlushIsLost | parqtel-ingest/src/service.rs:1191-1224 | a run of nine steps from the start: the first flush fails to encode, the second is committed, and the first row, acknowledged, is lost in a crash |
| SerialFailures.FailedWriteMisaligns | parqtel-ingest/src/service.rs:1099-1113 | a first batch larger than a block, whose block write fails, leaves the buffer out of step with the writer |
| SerialIngest.PushRowsFit | parqtel-ingest/src/writer.rs:328-335 | rows that fit close no block |
| SerialRotator.PushEach | parqtel-ingest/src/service.rs:1102-1112 | the row loop refines the recursive push and the drops of the blocks it closes |
| SerialRotator.SerialRotator.PushBatch | parqtel-ingest/src/service.rs:1094-1114 | refines the push step: log, covered position, buffer, writer and outcome |
| SerialRotator.SerialRotator.Overflows | parqtel-ingest/src/service.rs:1078-1092 | whether a batch must close the open block first, and that after it the batch may be pushed |
| SerialRotator.SerialRotator.StartFlush | parqtel-ingest/src/service.rs:1147-1172 | swaps the writer out with its range, or does nothing when it is empty |
| SerialRotator.SerialRotator.DropFromBuffer | parqtel-ingest/src/service.rs:1251-1255 | drops as many rows as the block had |
| TextSearch.AnchorOf | parqtel-core/src/text.rs:29-33 | the first index of a least common byte |
| TextSearch.FindCi | parqtel-core/src/text.rs:36-70 | true exactly when some window of the haystack, lower-cased, is the needle, for any valid anchor: the anchor never changes the answer |
| TextSearch.FoundIsContains | parqtel-core/src/text.rs:100-106 | that is the naive search in the lower-cased haystack |
| TextSearch.ContainsAsciiCi | parqtel-core/src/text.rs:103-106 | so the whole search equals the naive one |
| LogQuery.FlattenMeans | parqtel-query/src/logql.rs:259-295 | flattening succeeds exactly on nested ANDs of atoms and negated atoms, and then accepts the same rows as the tree |
| LogQuery.PrepareMeans | parqtel-query/src/logql.rs:925-957 | preparing a predicate does not change which rows it matches |
| LogQuery.PrepareQueryMeans | parqtel-query/src/logql.rs:966-973 | nor does preparing a flat query |
| LogQuery.FlatPathAgrees | parqtel-query/src/logql.rs:1032-1034 | the flat path and the tree path accept the same rows |
| LogPrefilter.PrefilterIsSound | parqtel-query/src/logql.rs:784-923 | every matching row meets the collected conditions; when they are marked exact they accept no other row |
| LogPrefilter.BareNamesAreSoundIff | parqtel-query/src/logql.rs:794-807 | the bare-name variant is sound for all predicates if and only if no extra field is what a bare name resolves to |
| LogPrefilter.EqualityCarries | parqtel-query/src/logql.rs:818-845 | an equality on an indexed name holds only if the record carries that pair |
| LogPrefilter.FlatPrefilter | parqtel-query/src/logql.rs:1013-1024 | the two loops collect conditions with the same two guarantees for a flat query |
| LogSkipIndex.LogIndexBuilder.PushRecord | parqtel-core/src/storage/log_index.rs:232-308 | each row is accounted for by its granule's bounds and terms, and the open granule's terms are exactly those of its rows |
| LogSkipIndex.LogIndexBuilder.Finish | parqtel-core/src/storage/log_index.rs:322-362 | the finished table accounts for every row, and each filter holds the probes of its own rows' terms and nothing else |
| LogGranules.FillFilter | parqtel-core/src/storage/log_index.rs:326-337 | the filter holds the probes of every term, and only those |
| LogGranules.BodyTerms | parqtel-core/src/storage/log_index.rs:245-267 | sliding a three-byte window and skipping trigrams already seen in the granule collects exactly the windows of the lower-cased body |
| LogGranules.GatherTerms | parqtel-core/src/storage/log_index.rs:269-305 | a row adds exactly its own terms, although a label set shared with the row before is not hashed again |
| LogSkipIndex.CandidateRanges | parqtel-core/src/storage/log_index.rs:437-479 | the merged ranges are in order, apart, and hold exactly the rows of the kept granules |
| LogSkipIndex.MatchIsKeptIff | parqtel-core/src/storage/log_index.rs:18-24 | of a built table, the granule of a row in the time window that meets a query's conditions is kept if and only if the terms of the granule's own rows set every bit the query's terms need |
| LogSkipIndex.MatchIsNotSkipped | parqtel-core/src/storage/log_index.rs:18-24 | a row that a predicate matches is never skipped, unless the query itself asks for the hex of an all-zero trace or span id |
| LogSkipIndex.ZeroIdIsSkipped | parqtel-core/src/storage/log_index.rs:286-301 | a row with an all-zero trace id matches the equality on it, and its granule is kept if and only if other terms of the granule happen to set that term's bits |
| LogSkipIndex.LosesZeroId | parqtel-core/src/storage/log_index.rs:286-301 | a block of one record with an all-zero trace id, built by the index builder: the equality on that id matches the record and no row range is left to read |
| Histogram.ComputeQuantile | parqtel-query/src/ast.rs:230-252 | the bucket walk computes the interpolated quantile, with its NaN and unbounded cases |
| Histogram.ComputeBelow | parqtel-query/src/ast.rs:262-285 | the bucket walk computes the interpolated count below a value |
| Histogram.ComputeFraction | parqtel-query/src/ast.rs:256-287 | the clamped, normalised difference of two such counts |
| Histogram.QuantileMonotoneIff | parqtel-query/src/ast.rs:230-252 | for ascending bounds the quantile is monotone in q if and only if the first bucket is empty or does not end below zero |
| Histogram.FractionInUnit | parqtel-query/src/ast.rs:256-287 | fractions lie in [0, 1] and are 0 for an empty interval |
| Histogram.FractionAdditive | parqtel-query/src/ast.rs:256-287 | fractions of adjacent intervals add up |
| Histogram.FractionOfQuantileIff | parqtel-query/src/ast.rs:230-287 | for strictly ascending bounds of any sign, fraction(0, quantile(q)) is q if and only if q is 0 or its rank lies above what the buckets hold up to zero and within the finite buckets |
| Downsample.DownsampleByStep | parqtel-query/src/aggregation.rs:323-342 | the moving cursor gives each step exactly the points in [t, t+step) |
| Downsample.TakeWindow | parqtel-query/src/aggregation.rs:327-333 | one advance of the cursor collects exactly one window |
| Downsample.StepWindowsConserve | parqtel-query/src/aggregation.rs:323-342 | put together, the windows are the points from the start to the last window's end, each once and in order |
| Downsample.PartitionPoint | parqtel-query/src/aggregation.rs:347-351 | the binary search counts the points before a bound |
| RangeFunctions.DownsampleByRange | parqtel-query/src/aggregation.rs:344-393 | each step yields the counter function of exactly the points in [t-range, t+step), saturation included; an empty window yields nothing and other operations return no samples |
| RangeFunctions.WindowEndsAtStepIff | parqtel-query/src/aggregation.rs:273-275 | for sorted points the window a step uses is the documented one, which ends at t, if and only if no point lies in [t, t+step) |
| RangeFunctions.SeesAhead | parqtel-query/src/aggregation.rs:344-393 | two points, one in the step itself: the step reports a difference of 2 where the documented window gives 0 |
| RangeFunctions.WindowValue | parqtel-query/src/aggregation.rs:352-385 | one window's value for each operation, and when the operation is refused |
| RangeFunctions.InstantRateIsIncrease | parqtel-query/src/aggregation.rs:430-439 | the instant rate is the reset-corrected increase of the last two points over their time |
| Downsample.WindowedRate | parqtel-query/src/aggregation.rs:403-428 | the loop computes the reset-corrected, extrapolated rate |
| Downsample.IncreaseAdds | parqtel-query/src/aggregation.rs:413-418 | the increase splits at any point of the window |
| Downsample.IncreaseOfMonotone | parqtel-query/src/aggregation.rs:413-418 | without a reset it is the last value minus the first |
| Downsample.RateIsBounded | parqtel-query/src/aggregation.rs:419-427 | for a counter the reported rate is at least the observed one and at most a fifth more |

## Left out

- IngestVisibility.AcknowledgedIsVisible: assumes that no encode fails and every push fits, and counts a block as published once it is sent to the index; DropHistory.VisibleIff and DropHistory.KnownIff state exactly what happens over every run.
- IngestVisibility.AcknowledgedIsVisibleUnless: one way only, over runs whose pushes fit; DropHistory.VisibleIff is the equivalence over every run.
- ExactVisibility.VisibleIffNotHidden: over runs whose pushes fit, where the condition can be read off the flushes; DropHistory.VisibleIff is the equivalence over every run.
- ExactVisibility.SettledVisibleIff: the same runs as ExactVisibility.VisibleIffNotHidden.
- ExactVisibility.KnownIffAcknowledged: the same runs; DropHistory.KnownIff is the equivalence over every run.
- RowCounter.CounterIsExact: runs without a push that fails into a writer with room; RowCounter.CounterIsTotalLessMissed is the equation over every run.
- IngestRecovery.NothingIsLost: one process lifetime from an empty log and one recovery. The range cursor restarts at the start of the log, so nothing is claimed over several restarts.
- SerialRecovery.NothingIsLost: assumes that no encode fails; what happens otherwise is stated exactly by SerialRecovery.LostIffFailedAndCommitted.
- Histogram.FractionOfQuantileIff: strictly ascending bounds, and exact reals instead of IEEE doubles.
- Downsample.DownsampleByStep: points sorted by time and a positive step, as the code's callers provide, and no 64-bit overflow of step ends.
- No-duplication after recovery: blocks past a gap and blocks a writer closed by itself can be replayed again.
- Positions keep offset + 1 below 2^32 and fit 64 bits, as the position encoding assumes.
- WalLog.WalWriter.AppendEncoded: a failed flush of the user-space buffer (which does not poison the writer), a failed sync and a failed roll are not modelled here; `Ingest.Log` has the push that is refused because its sync failed.
- WalLog.WalWriter.Roll: a sync that fails and a next segment that already exists are not modelled.
- WalLog.WalWriter.RemoveCoveredSegments: deletions that fail for single files, leaving holes, are not modelled; deletions that stop early are.
- WalLog.Replay: payloads that do not decode, which the code counts as skipped, and byte statistics are not modelled; the codec is assumed to decode what it encoded.
- Writer.BlockWriter.Flush: an error after the block was renamed into place, which leaves the block on disk and the rows in the writer, is not modelled.
- LogGranules.GatherTerms: a granule's terms are a set, so the filter size a table gets when two terms have one hash may differ; sizes are a parameter.
- Parquet and Arrow encoding, row order inside a block (rows are kept in push order; blocks are sorted when encoded), grouping of rows by series, file-system calls, task scheduling and timers. A block is the rows it holds, and each lock-protected section is one step.
- BlockRotator holds its shards, log and buffer as values, so aliasing between the shared handles of the real objects is not captured; the tracker and the log writer are modelled as objects of their own, and BufferRefinement.PushHeld ties the buffer and block writer objects to the insert step.
- The tokenizer, the query parser and span queries, whose results feed the predicate model.
- Aggregation functions other than the counter functions, histogram variance, and label statistics: easy members.
- The index sidecar, compaction, `discard_covered`, startup and configuration code.
- Base64 and JSON of the skip index, and its validation on load.
