# Verified model of the Level-2 market-data stack

A Dafny model of a Binance Level-2 market-data system and proofs about it. The system buffers depth
deltas until a snapshot bridges them, keeps a fixed-point order book, records only what it applied,
replays recordings against checkpoints, simulates execution on replayed books, moves ticks through a
lock-free queue to an asynchronous recorder, and builds features and dataset splits for research.

`dafny verify dfyconfig.toml` checks the whole project.

## Layout

| files | subject |
|---|---|
| `L2Types`, `OrderBook`, `Listing` | fixed-point entities, the dictionary book, its ordered listing |
| `Synchronizer`, `SynchronizerProperties`, `SynchronizerBuffer`, `NativeSynchronizer` | the snapshot synchronizer, the exchange it tracks, what its buffer holds, its native twin |
| `Recording`, `Capture`, `CaptureProperties`, `CaptureLosses`, `CaptureExchange`, `CaptureBuffer`, `CaptureFinish`, `CaptureComplete` | writer, replay verification, per-symbol capture, finalisation and completeness |
| `Words`, `SpscQueue`, `SpscCalls`, `RingBuffer`, `Recorder`, `RecorderCalls` | 64-bit words, the lock-free queue step by step, its array, the recorder around it |
| `Sorting`, `Simulation`, `Simulator`, `Simulation*`, `Greedy` | the execution simulator as values and as an object, with its properties |
| `NativeBook`, `NativeBookProperties`, `HashEncoding` | the native map and flat books, their correspondence and the bytes of the state hash |
| `Bits`, `Crc32`, `CrcPolynomial`, `Layouts`, `Offsets`, `L2Format`, `L2Offsets`, `L2Validator`, `L2FormatProperties`, `L2Canonical` | the binary recording, its checksum, reader and native validator |
| `DecimalParser`, `Publish`, `ChronologicalSplit`, `Features`, `FeatureMeaning` | exact decimals, artifact publication, dataset split, online and offline features and what they mean |

## How it is modelled

Code that changes objects step by step is a class whose methods are each proved equal to a function on
the state's value; the properties are lemmas about those functions, over all inputs and all runs.
Raised exceptions are `Err` results or returned errors. Concurrent code is a state machine whose steps
are single loads, slot writes and stores. Inputs from outside (events, fetched snapshots, clock
readings, failing renames) are parameters.

A delta is called faithful when it lists the value, at its last id, of every level that changed in its
range, and nothing else; the exchange itself is a function from update id to book.

## Where the code does not do what its documentation says

- The capture writes a stop boundary and then a checkpoint of the book it still holds
  (`market_engine/market_data/l2_capture.py:524-530`), while replay clears its book on every boundary
  (`market_engine/cli/verify_l2_replay.py:60-61`). The repository's README promises that replay
  reproduces the recorded book states; `CaptureFinish.NoFinishedCaptureVerifies` proves that no
  finished recording passes its own verification: a book that is still held fails at that checkpoint,
  and a cleared one is published with the fingerprint zero, which the empty book does not have.
  `CompleteRecordingExistsAndIsRefused` is a recording labelled complete.
- A bridge that applies several buffered events records each of them against the book after the whole
  bridge. A checkpoint that falls before the last event of such a batch does not match its replay
  (`CaptureExchange.MidBatchCheckpointIsRefused`); `CaptureProperties.CaptureReplaysIff` says exactly
  when all checkpoints match. This concerns a caller of `SymbolCapture` that goes on after `on_depth`
  raised, for instance because a fetch failed. The shipped `capture()` loop stops there, and while
  nothing raises every bridge applies at most one event (`CaptureProperties.ReturningRunFits`).
- A step that raises can leave updates in the book that were not recorded. The recording is finalised
  all the same; it still replays without error, and to the live book exactly unless by the state before
  it the last step loses something (`CaptureLosses.CaptureLosesIff`). `CaptureFinish.UnsoundUpdateIsLost`
  is an input.
- The two native books are documented to have the same logical semantics. After a snapshot refused for
  a price that is not positive the map book keeps the levels stored before it and the flat book does
  not; `NativeBookProperties.InstallAgreesIff` gives the exact condition.
- The native synchronizer is meant as the twin of the Python one. At a gap inside a bridge it queues the
  event behind the remaining ones, which raises for their order and loses the event;
  `NativeSynchronizer.TwinsAgreeIff` and `NativeRaisesIff` say exactly when they differ, and
  `NativeBridgeRaises` is an input.
- The queue relation of passive orders does not survive every trade: a share the position limit
  refuses leaves its order in place (`SimulationQueueExamples.RefusedShareBreaksTheQueue`). It holds in
  every state of a run exactly when every operation meets a condition on the state before it
  (`SimulationQueueRuns.RunInOrderIff`, for recordings `SimulationQueueRecordings.SimulationInOrderIff`);
  with whole units it is enough that the position limit allows what each event brings and that orders
  join behind their level (`WholeRunInOrder`). A new order can also join too early when the displayed
  quantity has shrunk (`LateOrderJoinsTooEarly`).
- Stopping the recorder is said to drain its writer. The writer can find the queue empty, then an entry is
  accepted, and then it finds the recorder inactive: `RecorderCalls.StopCanLeaveQueued` is such a run, and
  `StopDrainsIff` says exactly when nothing is left. The recording is then labelled incomplete.
- The native validator accepts files whose symbol field the reader refuses
  (`L2FormatProperties.AcceptedFileReadsIff`, `AcceptedFileWithBadSymbol`), and refuses empty snapshots
  the writer stores (`WrittenFileAcceptedIff`, `EmptySnapshotIsRefused`).

## Model

| member | source | states |
|---|---|---|
| OrderBook.SetLevelsAt | market_engine/market_data/l2_order_book.py:203-219 | after a list of level commands each price has the quantity of the last command naming it, and unnamed prices keep theirs |
| OrderBook.SetLevelsPositive | market_engine/market_data/l2_order_book.py:213-219 | no zero quantity is ever stored: quantity zero deletes the level |
| OrderBook.SidesEqual | market_engine/market_data/l2_order_book.py:247-256 | two sides that answer every quantity query alike are the same side |
| OrderBook.L2OrderBook.constructor | market_engine/market_data/l2_order_book.py:174-177 | a new book is empty with update id 0 |
| OrderBook.L2OrderBook.Clear | market_engine/market_data/l2_order_book.py:179-182 | clearing empties both sides and resets the update id |
| OrderBook.L2OrderBook.InstallSnapshot | market_engine/market_data/l2_order_book.py:184-201 | the book becomes exactly the snapshot image, also when the audit then refuses it; it is accepted exactly when two-sided, positive and uncrossed |
| OrderBook.L2OrderBook.Apply | market_engine/market_data/l2_order_book.py:203-211 | the new book is the old one with the update applied to both sides, accepted exactly when it is sound |
| OrderBook.L2OrderBook.SetAll | market_engine/market_data/l2_order_book.py:203-219 | the loop over levels computes the side after all commands |
| OrderBook.L2OrderBook.Validate | market_engine/market_data/l2_order_book.py:258-267 | the audit accepts exactly the two-sided, positive, uncrossed books |
| Synchronizer.RetainedIsSuffix | market_engine/market_data/l2_order_book.py:370-375 | dropping stale events keeps a suffix of the buffer whose first event ends after the snapshot, and drops only events at or before it |
| Synchronizer.DepthSynchronizer.constructor | market_engine/market_data/l2_order_book.py:332-343 | starts awaiting a snapshot with an empty book and buffer |
| Synchronizer.DepthSynchronizer.ResetTo | market_engine/market_data/l2_order_book.py:349-355 | a reset empties the book, waits for a snapshot and counts itself; the buffer stays as it is when it is to be preserved and is empty otherwise |
| Synchronizer.DepthSynchronizer.IngestUpdate | market_engine/market_data/l2_order_book.py:357-362 | a live synchronizer applies the event, any other buffers it |
| Synchronizer.DepthSynchronizer.InstallSnapshot | market_engine/market_data/l2_order_book.py:364-425 | the whole installation (drop stale, audit, bridge, gap) reaches the specified state, outcome or error |
| Synchronizer.DepthSynchronizer.DropStale | market_engine/market_data/l2_order_book.py:372-375 | the loop removes exactly the stale prefix and counts it |
| Synchronizer.DepthSynchronizer.ApplyAll | market_engine/market_data/l2_order_book.py:405-425 | the bridging loop applies the retained events in order and on a gap rebuilds the buffer in order |
| Synchronizer.DepthSynchronizer.Enqueue | market_engine/market_data/l2_order_book.py:427-435 | an event is appended; a full buffer or an event out of order raises and changes the state as the code does |
| Synchronizer.DepthSynchronizer.ApplyOne | market_engine/market_data/l2_order_book.py:437-450 | stale events are ignored, a hole puts the event in the buffer and the state in gap, anything else is applied |
| SynchronizerProperties.ApplyFaithful | market_engine/market_data/l2_order_book.py:203-211 | applying a faithful delta that reaches the local id turns the exchange book at the old id into the exchange book at the new id |
| SynchronizerProperties.StepKeepsBuffer | market_engine/market_data/l2_order_book.py:349-450 | every call keeps the buffer ordered and within capacity and empty while live; the stale-events error never occurs |
| SynchronizerProperties.StepTracks | market_engine/market_data/l2_order_book.py:349-450 | every call with faithful arguments keeps the book cleared or equal to the exchange book at its id, and never raises for an invalid book |
| SynchronizerProperties.RunTracksExchange | market_engine/market_data/l2_order_book.py:349-450 | the same over every sequence of calls from every good state |
| SynchronizerProperties.SynchronizerTracksExchange | market_engine/market_data/l2_order_book.py:329-450 | over every run with faithful deltas and snapshots the book is cleared or equals the exchange book at its id; live implies a non-empty book and an empty buffer; the only errors are those of the buffer |
| SynchronizerProperties.InstallKeepsBuffer | market_engine/market_data/l2_order_book.py:364-425 | a snapshot installation keeps the buffer invariant, whatever the snapshot |
| SynchronizerProperties.PendingSynchronizes | market_engine/market_data/l2_order_book.py:405-425 | bridging synchronizes exactly when the events reach the local id and are contiguous, and then ends at the exchange book of the last event |
| SynchronizerProperties.BridgeSucceedsIff | market_engine/market_data/l2_order_book.py:364-425 | a snapshot synchronizes exactly when the retained events are non-empty, the first spans the snapshot and they are contiguous; then the book is the exchange book at the last buffered id |
| SynchronizerBuffer.CallBuffers | market_engine/market_data/l2_order_book.py:349-450 | one call takes out of the buffer exactly the updates it discards (by a clearing reset, a snapshot that contains them, a bridge that takes them, or a bridge that raises) and appends exactly the one it queues |
| SynchronizerBuffer.InstallTakes | market_engine/market_data/l2_order_book.py:364-425 | an installation takes a prefix of the buffer: the stale updates and those the bridge took |
| SynchronizerBuffer.StaleIsCounted | market_engine/market_data/l2_order_book.py:370-376 | the number reported as stale is the number of buffered updates the snapshot contains |
| SynchronizerBuffer.RefusedQueueing | market_engine/market_data/l2_order_book.py:427-435 | an update that cannot be queued, for a full buffer or its order, raises and leaves the state in gap and all else alone |
| SynchronizerBuffer.BufferIsWhatIsHeld | market_engine/market_data/l2_order_book.py:329-450 | after every sequence of calls the buffer is exactly the updates queued since the last clearing reset that no snapshot contained and no bridge took since |
| NativeSynchronizer.DrainBuffer | native/include/market_engine/market_data/L2Synchronizer.hpp:111-128 | the bridging loop takes events off the buffer until it is empty, a gap shows or an error is raised, as specified |
| NativeSynchronizer.BridgesCompared | native/include/market_engine/market_data/L2Synchronizer.hpp:111-128 | without a gap both bridges end alike; at a gap the native one raises and loses the event when a later event follows, and otherwise moves the event behind the rest |
| NativeSynchronizer.TwinsAgreeIff | native/include/market_engine/market_data/L2Synchronizer.hpp:75-129 | a bridge that returns in Python gives the same state and result natively exactly when it meets no gap or only copies of one event remain from the gap on |
| NativeSynchronizer.NativeRaisesIff | native/include/market_engine/market_data/L2Synchronizer.hpp:144-168 | the native bridge raises for out-of-order events exactly when an event of a greater id is retained behind the one that shows a gap |
| NativeSynchronizer.NativeBridgeRaises | native/include/market_engine/market_data/L2Synchronizer.hpp:111-168 | a concrete buffer with a hole: one bridge returns the gap with both later events kept, the native one raises and has lost the first of them |
| Recording.L2Writer.constructor | market_engine/recording/l2.py:302-371 | a new recording has no events, no checkpoints and zero counters |
| Recording.L2Writer.Write | market_engine/recording/l2.py:373-389 | an event is appended and counted by kind, or refused with nothing changed when a side has too many levels |
| Recording.L2Writer.WriteCheckpoint | market_engine/recording/l2.py:391-410 | a checkpoint is stored at the current event count exactly when its fields are positive and the index grew |
| Recording.FindFinds | market_engine/cli/verify_l2_replay.py:34-46 | with growing indices the checkpoint lookup finds the one checkpoint of an index |
| Recording.VerifyRecording | market_engine/cli/verify_l2_replay.py:34-100 | the replay loop accepts exactly the recordings whose replay raises nothing, matches every checkpoint and ends at the published id and hash |
| Recording.ReplayErrorStays | market_engine/cli/verify_l2_replay.py:48-90 | a replay that fails on a prefix fails on the whole recording |
| Recording.ReplayAcceptsIffAllHold | market_engine/cli/verify_l2_replay.py:48-90 | replay of a prefix succeeds exactly when each checkpoint in it names the id and hash of the book rebuilt from the events before it |
| Recording.HoldsStays | market_engine/cli/verify_l2_replay.py:74-86 | what is recorded after a checkpoint does not change whether it holds |
| Capture.SymbolCapture.constructor | market_engine/market_data/l2_capture.py:294-316 | a new capture starts with an empty synchronizer and recording |
| Capture.SymbolCapture.Connection | market_engine/market_data/l2_capture.py:318-327 | a connection change is recorded as a boundary before the synchronizer is reset |
| Capture.SymbolCapture.MarkGap | market_engine/market_data/l2_capture.py:402-408 | a gap is recorded as a boundary, counted, and the synchronizer restarts with the events it still holds |
| Capture.SymbolCapture.Record | market_engine/market_data/l2_capture.py:329-340 | an applied event is written, and the checkpoint every interval takes id and hash of the synchronizer book |
| Capture.SymbolCapture.TrySnapshot | market_engine/market_data/l2_capture.py:342-371 | one snapshot attempt: retry boundary, gap, pending or bridged, with what is recorded in each case |
| Capture.SymbolCapture.RecordEach | market_engine/market_data/l2_capture.py:369-370 | the bridged events are recorded one by one against the book after the whole bridge |
| Capture.SymbolCapture.TrySynchronize | market_engine/market_data/l2_capture.py:373-395 | nothing without buffered events; a pending snapshot is tried before any is fetched |
| Capture.SymbolCapture.TryFetches | market_engine/market_data/l2_capture.py:385-395 | fetches are tried up to the limit until one synchronizes or must wait |
| Capture.SymbolCapture.Depth | market_engine/market_data/l2_capture.py:397-411 | one depth event: ignored, recorded, or buffered and followed by an attempt to synchronize |
| Capture.SymbolCapture.OneTrade | market_engine/market_data/l2_capture.py:413-418 | a trade is recorded while live and counted as discarded otherwise |
| CaptureBuffer.GapKeepsBuffer | market_engine/market_data/l2_capture.py:402-408 | marking a gap keeps every buffered update, forgets book and pending snapshot, and records the boundary |
| CaptureBuffer.ConnectionClears | market_engine/market_data/l2_capture.py:318-327 | a connection change leaves an empty buffer and book, no pending snapshot, and the boundary with its reason |
| CaptureBuffer.StepCalls | market_engine/market_data/l2_capture.py:342-418 | a step calls the synchronizer with exactly what arrived; besides it only installs snapshots and resets that preserve the buffer |
| CaptureBuffer.CaptureBufferIsHeld | market_engine/market_data/l2_capture.py:293-418 | over every run the buffer is exactly the updates that arrived, were queued, and since then were neither cut off by a connection change nor contained in a snapshot or a bridge |
| CaptureBuffer.HoleIsBridged | market_engine/market_data/l2_capture.py:385-411 | a live capture that meets a hole and fetches a sound snapshot the update spans is live at that update, with gap, snapshot and update recorded in this order; it raises exactly when the checkpoint due is refused |
| CaptureBuffer.SnapshotWaits | market_engine/market_data/l2_capture.py:342-371 | a sound snapshot that contains all that is buffered is kept for later and nothing is recorded |
| CaptureBuffer.PendingBridges | market_engine/market_data/l2_capture.py:373-395 | a capture that waits with a snapshot uses it for the next update that spans it, whatever a fetch would bring, and is live at that update with both recorded |
| CaptureBuffer.OldSnapshotsExhaust | market_engine/market_data/l2_capture.py:342-395 | each fetched snapshot that is too old leaves one retry boundary and nothing else; when the attempts or the answers run out on them the capture raises with its buffer kept |
| CaptureBuffer.StepCounts | market_engine/market_data/l2_capture.py:318-418 | a step records a trade that arrives while live and counts any other, records a connection change with its reason, and a depth event does neither |
| CaptureBuffer.DepthReturns | market_engine/market_data/l2_capture.py:373-411 | a depth event that returns says whether the capture is live and has recorded something for it |
| CaptureBuffer.CaptureCounts | market_engine/market_data/l2_capture.py:318-418 | over every run the counters of gaps and retries and the resets are the numbers of recorded boundaries, the recorded trades are those that arrived while live, in order, and the others are counted |
| CaptureProperties.RecordAllReplays | market_engine/market_data/l2_capture.py:329-371 | recording a bridged batch extends the replay to the synchronizer book; all checkpoints hold exactly when none fell before the last event of the batch |
| CaptureProperties.RecordOneReplays | market_engine/market_data/l2_capture.py:329-340 | recording one live event extends the replay by it, and a checkpoint holds exactly when the rebuilt book has the id and hash of the live one |
| CaptureProperties.RecordAllStops | market_engine/market_data/l2_capture.py:329-371 | when the writer refuses an update or a checkpoint of a bridged batch, what was written replays without error, reaches the live book exactly when the whole batch was written, and its checkpoints hold exactly when none fell inside the batch |
| CaptureProperties.BridgeStops | market_engine/market_data/l2_capture.py:342-371 | the same for the snapshot attempt the batch belongs to |
| CaptureProperties.InstallStops | market_engine/market_data/l2_capture.py:342-371 | an attempt whose bridge meets an unsound book records nothing; replay differs from the live book exactly when the bridge had begun |
| CaptureProperties.IngestStops | market_engine/market_data/l2_capture.py:397-411 | a live update that makes the book unsound is not recorded: what was recorded replays without error, to the book before it |
| CaptureProperties.InstallAndRecordReplays | market_engine/market_data/l2_capture.py:342-371 | what a snapshot attempt leaves in every outcome, errors included: a recording that replays without error, to the visible book unless the attempt lost something |
| CaptureProperties.AttemptsReplay | market_engine/market_data/l2_capture.py:385-395 | so does any number of attempts, errors included; success leaves the capture live |
| CaptureProperties.SynchronizeReplays | market_engine/market_data/l2_capture.py:373-395 | so does a call of synchronize, whether it returns or raises |
| CaptureProperties.OnDepthReplays | market_engine/market_data/l2_capture.py:397-411 | so does every depth event, whether it returns or raises |
| CaptureProperties.ConnectionReplays | market_engine/market_data/l2_capture.py:318-327 | so does every connection change |
| CaptureProperties.TradeReplays | market_engine/market_data/l2_capture.py:413-418 | so does every trade |
| CaptureProperties.StepReplays | market_engine/market_data/l2_capture.py:318-418 | after every step, raising ones included, replaying the recording hits no gap and no other error; it gives the live book when live and an empty book otherwise, except exactly after a raising step that took something into the book it did not record |
| CaptureProperties.RunReplays | market_engine/market_data/l2_capture.py:318-418 | the same over every run up to and including the first step that stops it, and the checkpoints written hold exactly when each bridged batch fits its interval |
| CaptureProperties.CaptureReplaysIff | market_engine/market_data/l2_capture.py:294-418 | for every capture run from the start, also one a step stops: the recording rebuilds a book without error, the visible one exactly when the stopping step lost nothing, and replay accepts all checkpoints exactly when every batch fits |
| CaptureProperties.ReturningRunFits | market_engine/market_data/l2_capture.py:294-418 | in a run in which no step raises every bridged batch fits its checkpoint interval |
| CaptureProperties.ReturningCaptureReplays | market_engine/market_data/l2_capture.py:294-418 | if no step raises, replay accepts the recording with all its checkpoints and ends at the visible book |
| CaptureLosses.InstallErrorIff | market_engine/market_data/l2_order_book.py:364-425 | an installation that raises leaves the synchronizer live exactly when the snapshot was sound and the first retained update spanned it |
| CaptureLosses.AttemptLosesIff | market_engine/market_data/l2_capture.py:342-371 | a snapshot attempt loses something exactly when its bridge begins, meets no gap, and is not applied and stored in full up to the last checkpoint |
| CaptureLosses.DepthLosesIff | market_engine/market_data/l2_capture.py:397-411 | a depth event loses something exactly when it is a live update, neither stale nor a hole, that makes the book unsound or is too large, or when one of the snapshot attempts it causes does |
| CaptureLosses.StepLosesIff | market_engine/market_data/l2_capture.py:318-418 | replay gives the visible book after a step exactly when, by the state before it, the step loses nothing |
| CaptureLosses.CaptureLosesIff | market_engine/market_data/l2_capture.py:294-418 | over every run from the start the recording replays to the visible book exactly unless its last step loses something |
| CaptureExchange.CaptureRunTracks | market_engine/market_data/l2_capture.py:294-418 | with faithful deltas and snapshots every run keeps the synchronizer on the exchange, and only the writer can raise |
| CaptureExchange.CaptureRebuildsExchange | market_engine/market_data/l2_capture.py:294-418 | with faithful deltas and snapshots the recorded stream rebuilds the exchange book at the live id, or an empty book when not live, exactly unless a write error stopped the run and lost something; it never fails to replay |
| CaptureExchange.MidBatchCheckpointIsRefused | market_engine/market_data/l2_capture.py:329-371 | a concrete capture whose checkpoint in the middle of a bridged batch does not match its replay |
| CaptureFinish.FinishCapture | market_engine/market_data/l2_capture.py:518-531 | the stop boundary, the checkpoint of the uncleared book and the label are written; the label says complete exactly for a clean shutdown without dropped or malformed messages whose recording holds a snapshot, an update and a checkpoint and whose final id and hash are positive |
| CaptureFinish.CountIff | market_engine/recording/l2.py:373-389 | the counters of snapshots and updates are positive exactly when one was written |
| CaptureFinish.CompleteIff | market_engine/recording/l2.py:454-464 | a finished recording is labelled complete exactly for a clean shutdown, no dropped and no malformed message, some snapshot and some update among the events, a checkpoint, and positive final id and hash |
| CaptureComplete.FinishWrites | market_engine/market_data/l2_capture.py:518-531 | a finish appends the stop boundary, preceded by an overflow boundary exactly when messages were dropped, and, when there is a book, one checkpoint at the end that names its id and hash |
| CaptureComplete.FinishRaisesIff | market_engine/market_data/l2_capture.py:518-531 | a finish raises exactly when there is a book whose fingerprint is zero or the events exceed 64 bits |
| CaptureComplete.OverflowIsNeverComplete | market_engine/market_data/l2_capture.py:518-531 | a finished capture holds an overflow boundary exactly when messages were dropped, and then is never labelled complete; its one stop boundary is its last event |
| CaptureFinish.FinalCheckpointIsRefused | market_engine/market_data/l2_capture.py:524-530 | with any book synchronized the final checkpoint fails replay, which clears its book on the stop boundary before it |
| CaptureFinish.CompleteRecordingIsRefused | market_engine/recording/l2.py:412-475 | so no recording labelled complete passes the replay verification |
| CaptureFinish.FinishedVerifiesIff | market_engine/cli/verify_l2_replay.py:34-100 | for any hash, a finished capture, also one stopped by an error, verifies exactly when it ended without a book, the empty book hashes to the stored zero, and every batch fitted |
| CaptureFinish.NoFinishedCaptureVerifies | market_engine/market_data/l2_capture.py:504-541 | with the FNV-1a fingerprint of the code no finished recording of any capture passes the replay verification |
| CaptureFinish.UnsoundUpdateIsLost | market_engine/market_data/l2_capture.py:397-411 | a concrete live update that takes the only ask away: it raises, is in the book and not in the recording, which replays to the book before it |
| CaptureFinish.CompleteRecordingExists | market_engine/recording/l2.py:412-475 | a concrete capture of one snapshot and one update finishes with data_complete whenever the fingerprint of its book is positive |
| CaptureFinish.CompleteRecordingExistsAndIsRefused | market_engine/recording/l2.py:412-475 | with the FNV-1a fingerprint that recording is complete and the replay verification refuses it |
| SpscQueue.StepKeepsInvariant | native/include/market_engine/concurrency/SpscRingBuffer.hpp:33-73 | every load, slot write and store of either endpoint keeps the counters, the unread slots and both observations consistent |
| SpscQueue.FreshSlot | native/include/market_engine/concurrency/SpscRingBuffer.hpp:37-45 | the slot the producer writes is none of the unread ones, with indices wrapped at 2^64 and masked |
| SpscQueue.RunKeepsInvariant | native/include/market_engine/concurrency/SpscRingBuffer.hpp:33-73 | the invariant holds in every state of every interleaving |
| SpscQueue.FifoUnderEveryInterleaving | native/include/market_engine/concurrency/SpscRingBuffer.hpp:33-73 | under every interleaving with stale but monotone loads: values handed out are a prefix of those accepted, in order, no slot is overwritten or read half-written, at most Capacity are outstanding |
| SpscQueue.RefusedOnlyWhenFull | native/include/market_engine/concurrency/SpscRingBuffer.hpp:36-41 | a push is refused exactly when by the last observed head all slots are taken |
| SpscQueue.RefinesFifo | native/include/market_engine/concurrency/SpscRingBuffer.hpp:33-94 | each step refines a queue: the tail store appends, the head store removes what it hands out, no other step is visible |
| SpscCalls.PushCall | native/include/market_engine/concurrency/SpscRingBuffer.hpp:33-47 | a push whose load of the head leaves a slot free runs to its end, appends exactly its value and publishes it |
| SpscCalls.RefusedCall | native/include/market_engine/concurrency/SpscRingBuffer.hpp:36-41 | a push whose load leaves no slot free is refused and changes nothing but what it has seen |
| SpscCalls.CopyIsWhole | native/include/market_engine/concurrency/SpscRingBuffer.hpp:60-66 | each copy of a consume reads an intact slot, which holds the next value pushed |
| SpscCalls.ConsumeCall | native/include/market_engine/concurrency/SpscRingBuffer.hpp:49-73 | a consume hands out the oldest values in order: as many as its load of the tail shows, up to its maximum |
| RingBuffer.WindowExtends | native/include/market_engine/concurrency/SpscRingBuffer.hpp:42-46 | writing the slot at the tail extends the queued window by the value |
| RingBuffer.WindowAdvances | native/include/market_engine/concurrency/SpscRingBuffer.hpp:64-72 | advancing the head drops the oldest values |
| RingBuffer.SPSCRingBuffer.constructor | native/include/market_engine/concurrency/SpscRingBuffer.hpp:21-22 | a new buffer is empty |
| RingBuffer.SPSCRingBuffer.Push | native/include/market_engine/concurrency/SpscRingBuffer.hpp:33-46 | push appends exactly when fewer than Capacity values are queued |
| RingBuffer.SPSCRingBuffer.CopyOut | native/include/market_engine/concurrency/SpscRingBuffer.hpp:64-66 | the copy loop copies the oldest values in order and nothing else |
| RingBuffer.SPSCRingBuffer.ConsumeBatch | native/include/market_engine/concurrency/SpscRingBuffer.hpp:52-73 | hands out the oldest values up to the maximum, removes exactly those and leaves the rest of the destination alone |
| RingBuffer.SPSCRingBuffer.Reset | native/include/market_engine/concurrency/SpscRingBuffer.hpp:89-92 | reset empties the buffer |
| Recorder.StepKeepsInvariant | native/include/market_engine/recording/TopOfBookRecorder.hpp:143-215 | every step of record, the writer loop and stop keeps conservation, the published ids and the control order |
| Recorder.StepConserves | native/include/market_engine/recording/TopOfBookRecorder.hpp:361-398 | a step that damages no stream keeps pushed = written + in the writer's hands + queued |
| Recorder.StepPublishes | native/include/market_engine/recording/TopOfBookRecorder.hpp:143-171 | the first and last exchange ids published are those of the pushed entries |
| Recorder.RunKeepsInvariant | native/include/market_engine/recording/TopOfBookRecorder.hpp:143-215 | the invariant in every state of every interleaving |
| Recorder.PushedIsConserved | native/include/market_engine/recording/TopOfBookRecorder.hpp:361-398 | until a write error: pushed entries are the written ones, then those in flight, then the queued ones, and both files hold exactly the written ones in order |
| Recorder.DataCompleteIff | native/include/market_engine/recording/TopOfBookRecorder.hpp:436-441 | a finished recording is labelled complete exactly when nothing was dropped, no write failed and nothing stayed queued; then the file is exactly the accepted records in order with matching first and last id |
| RecorderCalls.RecordCall | native/include/market_engine/recording/TopOfBookRecorder.hpp:143-171 | a record that finds room adds one entry at the end of the queue, counts it, and publishes its identifier unless it is zero, as the first one only if there was none |
| RecorderCalls.DroppedCall | native/include/market_engine/recording/TopOfBookRecorder.hpp:151-158 | a record that finds the queue full counts one drop and changes nothing else |
| RecorderCalls.WriteCall | native/include/market_engine/recording/TopOfBookRecorder.hpp:367-391 | a batch that can be written goes from the front of the queue to the end of both files, entry by entry |
| RecorderCalls.FailedCall | native/include/market_engine/recording/TopOfBookRecorder.hpp:382-386 | a batch that cannot be written stops the recorder with an error counted |
| RecorderCalls.EmptyCall | native/include/market_engine/recording/TopOfBookRecorder.hpp:393-396 | a writer that finds nothing goes on exactly while the recorder is active |
| RecorderCalls.CloseCall | native/include/market_engine/recording/TopOfBookRecorder.hpp:190-215 | closing labels the recording complete exactly when both streams flushed, nothing was dropped, no error counted and everything accepted was written |
| RecorderCalls.QueueCanDrain | native/include/market_engine/recording/TopOfBookRecorder.hpp:361-398 | from every sound stopped state whose writes succeed the writer can write all that is queued, in order, and end |
| RecorderCalls.OfferedIsPushedOrDropped | native/include/market_engine/recording/TopOfBookRecorder.hpp:143-171 | over every run, what was offered is queued, dropped or in hand; without a drop the queue took exactly what was offered, in order |
| RecorderCalls.CompleteHoldsEverything | native/include/market_engine/recording/TopOfBookRecorder.hpp:436-441 | over every run, a recording labelled complete holds every entry ever offered, in order, with the first and last identifier among them |
| RecorderCalls.StopDrainsIff | native/include/market_engine/recording/TopOfBookRecorder.hpp:188-194 | stopping is said to drain the writer: without a write error nothing stays queued exactly when the last look of the writer left nothing and no entry was queued before it looked at the active flag |
| RecorderCalls.StopCanLeaveQueued | native/include/market_engine/recording/TopOfBookRecorder.hpp:367-395 | a concrete run in which an accepted entry is never written although no write failed; the label says incomplete |
| RecorderCalls.ErrorsOnce | native/include/market_engine/recording/TopOfBookRecorder.hpp:351-357 | over every run at most one write error is counted, and once the writer has ended the recorder is not active |
| Listing.ListedIsListing | market_engine/market_data/l2_order_book.py:235-245 | listing a side by best price first gives exactly its levels in strict order |
| Listing.ListingIsUnique | market_engine/market_data/l2_order_book.py:235-245 | a side has only one strictly ordered listing |
| Sorting.SortSorts | market_engine/execution/simulator.py:294-295 | the pending lists are sorted by time and identifier and keep the same elements |
| Sorting.SortedStays | market_engine/execution/simulator.py:294-295 | sorting a sorted list changes nothing, so ties keep their order |
| Simulation.OneControlShrinks | market_engine/execution/simulator.py:395-430 | each processed control shortens what is still pending, so the control loop ends |
| Simulator.ExecutionSimulator.constructor | market_engine/execution/simulator.py:271-286 | a new simulator has nothing scheduled, no position and an empty book |
| Simulator.ExecutionSimulator.Submit | market_engine/execution/simulator.py:288-295 | an order is scheduled in time order, or refused unchanged when its identifier is known; the simulator invariant is kept |
| Simulator.ExecutionSimulator.Cancel | market_engine/execution/simulator.py:297-303 | a cancel is scheduled at its arrival, or refused when the arrival overflows 64 bits; the simulator invariant is kept |
| Simulator.ExecutionSimulator.Run | market_engine/execution/simulator.py:307-370 | a run processes every event, expires what is left and returns the marked equity, with every order settled and all accounts right; it never asks an empty side for its best price; a second run is refused with nothing changed |
| Simulator.ExecutionSimulator.ProcessControls | market_engine/execution/simulator.py:395-430 | the merge loop over both pending queues reaches the specified state or error, and terminates |
| Simulator.ExecutionSimulator.ProcessOneControl | market_engine/execution/simulator.py:422-430 | expiries at the arrival, then the order, which wins ties, or the cancel |
| Simulator.ExecutionSimulator.ActivateNextRequest | market_engine/execution/simulator.py:432-476 | the next request becomes an order with its expiry |
| Simulator.ExecutionSimulator.Activate | market_engine/execution/simulator.py:438-476 | it is refused, executed or left to rest by the specified checks in their order |
| Simulator.ExecutionSimulator.RestOrder | market_engine/execution/simulator.py:463-476 | a passive order queues behind the share of the displayed quantity and its own side at that price |
| Simulator.ExecutionSimulator.OwnQueue | market_engine/execution/simulator.py:465-473 | the sum of what the own resting orders at that side and price have left |
| Simulator.ExecutionSimulator.ExecuteTaker | market_engine/execution/simulator.py:480-514 | the walk over the other side in price priority, and the outcome by what is left |
| Simulator.ExecutionSimulator.WalkLevels | market_engine/execution/simulator.py:489-506 | the loop over levels fills and shadows exactly what the specified walk takes |
| Simulator.ExecutionSimulator.RecordFill | market_engine/execution/simulator.py:619-656 | position, cash, fees, fills and the order change together, or the order is rejected by the position limit |
| Simulator.ExecutionSimulator.RefreshConsumedLiquidity | market_engine/execution/simulator.py:516-524 | exactly the listed levels become available again |
| Simulator.ExecutionSimulator.EligibleOrders | market_engine/execution/simulator.py:534-543 | the resting orders of the other side at the trade price |
| Simulator.ExecutionSimulator.ReachEach | market_engine/execution/simulator.py:545-562 | a trade reaches the queued orders one by one with the specified queue arithmetic |
| Simulator.ExecutionSimulator.ProcessTrade | market_engine/execution/simulator.py:528-567 | a trade fills and settles the passive orders as specified |
| Simulator.ExecutionSimulator.FindDecreases | market_engine/execution/simulator.py:575-583 | the displayed decreases per level of one update |
| Simulator.ExecutionSimulator.DepleteOrder | market_engine/execution/simulator.py:589-612 | a decrease first moves the queue position, and its whole-unit excess fills the order |
| Simulator.ExecutionSimulator.DepleteEach | market_engine/execution/simulator.py:589-612 | the same for every active order in turn |
| Simulator.ExecutionSimulator.ProcessDepthDepletion | market_engine/execution/simulator.py:571-617 | an update's decreases reach the active orders under the configured queue model |
| Simulator.ExecutionSimulator.ProcessNextCancel | market_engine/execution/simulator.py:675-706 | a resting order is cancelled and leaves the active list, a request still to come becomes a cancelled order, any other cancel only leaves its list |
| Simulator.ExecutionSimulator.CancelPending | market_engine/execution/simulator.py:686-706 | a request cancelled before its arrival leaves the pending list and becomes a cancelled order |
| Simulator.ExecutionSimulator.ExpireOrders | market_engine/execution/simulator.py:708-717 | exactly the due active orders expire and leave the active list |
| Simulator.ExecutionSimulator.FinalizePendingRequests | market_engine/execution/simulator.py:719-727 | requests that never arrived become expired orders |
| Simulator.ExecutionSimulator.CancelAll | market_engine/execution/simulator.py:729-736 | every active resting order is cancelled with the reason |
| Simulator.ExecutionSimulator.CheckKillSwitch | market_engine/execution/simulator.py:742-751 | the switch trips at the loss limit and cancels everything active |
| Simulator.ExecutionSimulator.UpdateMid | market_engine/execution/simulator.py:658-662 | the mid price is taken from the best prices of a synchronized book |
| Simulator.ExecutionSimulator.OnDepth | market_engine/execution/simulator.py:340-349 | a depth event is ignored when stale, raises on a hole, and otherwise depletes, applies, refreshes and marks |
| Simulator.ExecutionSimulator.OnEvent | market_engine/execution/simulator.py:321-355 | controls before the event, expiries, the event, controls up to it, expiries, kill switch |
| SimulationAccounting.RecordFillBalances | market_engine/execution/simulator.py:619-656 | a fill keeps the ledger balanced: position the signed sum of fills within the limit, cash minus notional minus fees |
| SimulationAccounting.RecordFillAccounts | market_engine/execution/simulator.py:619-656 | each order's filled quantity stays the sum of its fills and within its request, at an acceptable price and the right fee |
| SimulationAccounting.WalkAccounts | market_engine/execution/simulator.py:480-514 | a taker walk keeps all accounts |
| SimulationAccounting.TradeEachAccounts | market_engine/execution/simulator.py:545-562 | a trade keeps all accounts |
| SimulationAccounting.DepleteEachAccounts | market_engine/execution/simulator.py:589-612 | a depth depletion keeps all accounts |
| SimulationAccounting.ActivateAccounted | market_engine/execution/simulator.py:432-476 | activating an order keeps all accounts |
| SimulationAccounting.CancelAccounted | market_engine/execution/simulator.py:675-706 | a cancel keeps all accounts |
| SimulationAccounting.PendingAccounted | market_engine/execution/simulator.py:719-727 | finalising keeps all accounts |
| SimulationAccounting.MarketEventAccounted | market_engine/execution/simulator.py:330-351 | every market event keeps all accounts |
| Greedy.TakesTotal | market_engine/execution/simulator.py:491-506 | greedy taking is feasible and totals the smaller of the wanted and the available quantity |
| Greedy.GreedyIsOptimal | market_engine/execution/simulator.py:491-506 | no feasible allocation of the same total costs less when levels are visited cheapest first |
| SimulationTaker.WalkIsGreedy | market_engine/execution/simulator.py:488-506 | the walk fills exactly the greedy allocation over the levels within the limit, and no fill on the way hits the position limit |
| SimulationTaker.ReachableIsWithinLimit | market_engine/execution/simulator.py:491-498 | stopping at the first level beyond the limit loses no level within it |
| SimulationTaker.SweepLevelsAre | market_engine/execution/simulator.py:488-498 | the swept levels are exactly the other side's levels within the limit, in price priority |
| SimulationTaker.ExecuteTakerIsGreedy | market_engine/execution/simulator.py:480-514 | the fills and the final order of a taker are those of the greedy allocation |
| SimulationTaker.SweepIsOptimal | market_engine/execution/simulator.py:480-514 | a sweep fills exactly min(requested, available within the limit), never beyond the limit, and at the lowest cost or highest proceeds among all allocations of that total |
| SimulationLiquidity.TakeLevelLiquid | market_engine/execution/simulator.py:499-506 | one taker fill adds to the level's shadow exactly what was taken and never more than displayed |
| SimulationLiquidity.WalkLiquid | market_engine/execution/simulator.py:488-506 | over a walk consumed liquidity stays the taker fills since the last refresh and within the display |
| SimulationLiquidity.RefreshLiquid | market_engine/execution/simulator.py:516-524 | only a refreshed level starts afresh; every other keeps its shadow |
| SimulationLiquidity.TradeMakesOnly | market_engine/execution/simulator.py:528-567 | passive fills take nothing from displayed liquidity |
| SimulationLiquidity.ActivateLiquid | market_engine/execution/simulator.py:432-476 | activating an order keeps the no-reuse accounting |
| SimulationLiquidity.MarketEventLiquid | market_engine/execution/simulator.py:330-351 | every market event keeps the no-reuse accounting |
| SimulationLifecycle.ExpireInOrder | market_engine/execution/simulator.py:708-717 | expiry keeps the desk in order; the final expiry leaves nothing active |
| SimulationLifecycle.CancelAllInOrder | market_engine/execution/simulator.py:729-736 | cancelling everything keeps the desk in order |
| SimulationLifecycle.SettledInOrder | market_engine/execution/simulator.py:563-567 | after passive fills exactly the still resting orders stay active |
| SimulationLifecycle.ActivateNextLives | market_engine/execution/simulator.py:432-476 | an activated request moves from pending to exactly one order |
| SimulationLifecycle.CancelLives | market_engine/execution/simulator.py:675-706 | a cancel keeps one record per submitted order |
| SimulationLifecycle.MarketEventLives | market_engine/execution/simulator.py:330-351 | a market event keeps the desk in order |
| SimulationRuns.FreshInvariant | market_engine/execution/simulator.py:271-286 | the simulator invariant holds initially |
| SimulationRuns.SubmitKeeps | market_engine/execution/simulator.py:288-295 | submitting keeps it and adds exactly that identifier |
| SimulationRuns.SubmitCancelKeeps | market_engine/execution/simulator.py:297-303 | scheduling a cancel keeps it |
| SimulationRuns.OneControlKeeps | market_engine/execution/simulator.py:426-430 | one control keeps it and consumes exactly its request or cancel |
| SimulationRuns.NextIsLeast | market_engine/execution/simulator.py:400-420 | the control chosen is the least pending one by arrival, order before cancel, identifier |
| SimulationRuns.ControlsInOrder | market_engine/execution/simulator.py:395-430 | one pass executes controls in merged order, all of them ready, and leaves none that is ready |
| SimulationRuns.MarketEventKeeps | market_engine/execution/simulator.py:330-351 | a market event keeps the invariant and never asks an empty side for its best price |
| SimulationRuns.HandleEventKeeps | market_engine/execution/simulator.py:321-355 | controls that arrive before the event run before it, those that run after it all arrive exactly with it, in one merged order, and all others stay pending |
| SimulationRuns.LatePassIsAtEvent | market_engine/execution/simulator.py:321-355 | no control that arrives before an event is left for the pass after it |
| SimulationRuns.ControlsRunInMergedOrder | market_engine/execution/simulator.py:321-358 | over the whole recording controls execute in one merged order |
| SimulationRuns.SimulationEnds | market_engine/execution/simulator.py:307-370 | no simulation asks an empty side for its best price; at the end each submitted order has exactly one record, none pending or open, with all accounts and the liquidity accounting intact |
| SimulationReplay.EventReplays | market_engine/execution/simulator.py:330-351 | the simulator takes an event into its book as the replay does, with the same error |
| SimulationReplay.EventMiddle | market_engine/execution/simulator.py:330-351 | a boundary forgets the middle, a snapshot or an applied update sets it to that of the new book, nothing else touches it |
| SimulationReplay.SimulatedMarketIsRebuilt | market_engine/execution/simulator.py:321-351 | after any recording it handles the simulator holds the book the recorded events rebuild, whatever orders were scheduled; it raises for a hole or an unsound book only where the replay does |
| SimulationOrders.CancelCancels | market_engine/execution/simulator.py:675-684 | a cancel that meets a resting order sets its record to Cancelled and takes it out of the active list; every other record, the other active orders in their order, the ledger and the requests stay |
| SimulationOrders.CancelBeforeArrival | market_engine/execution/simulator.py:685-706 | a cancel that meets a request still to come takes it away and records it as Cancelled with nothing filled; it raises exactly when the times of that record overflow |
| SimulationOrders.CancelOfNothing | market_engine/execution/simulator.py:675-706 | any other cancel is only taken off the list |
| SimulationOrders.ClockExpires | market_engine/execution/simulator.py:708-717 | when the clock reaches a time exactly the active orders whose time to live has run out by then leave, as Expired |
| SimulationOrders.OperateLeavesFinal | market_engine/execution/simulator.py:330-436 | no operation changes the record of an order that has left the book or books a fill of it |
| SimulationOrders.SimulationLeavesFinal | market_engine/execution/simulator.py:307-370 | nor does any simulation, to its end |
| SimulationOrders.CancelledNeverFills | market_engine/execution/simulator.py:675-684 | from the moment a cancel meets its order, no fill of that order is booked in any run that follows and its record stays Cancelled |
| SimulationOrders.CancelledToTheEnd | market_engine/execution/simulator.py:307-370 | the same for a cancel in the middle of a recording, to the end of the simulation |
| SimulationArrivals.SubmitIs | market_engine/execution/simulator.py:288-295 | a submitted order joins the pending ones unless its identifier is known on the desk or among them |
| SimulationArrivals.SubmitCancelIs | market_engine/execution/simulator.py:297-303 | a cancel is scheduled its latency after the decision, or raises when that exceeds 64 bits |
| SimulationArrivals.OperateOnTime | market_engine/execution/simulator.py:372-389 | no operation changes the times of an order: arrival is decision plus both latencies, expiry arrival plus time to live |
| SimulationArrivals.SimulationOnTime | market_engine/execution/simulator.py:372-389 | so at the end of every simulation each order is on record with those times |
| SimulationArrivals.OrderIsRefused | market_engine/execution/simulator.py:438-449 | an arriving order is refused for a killed simulator, a position past the limit or a missing book, looked at in this order, and nothing else changes |
| SimulationArrivals.OrderRests | market_engine/execution/simulator.py:454-476 | a limit order that meets no level of the other side rests: last among the active orders, behind a share of the display and what the orders of its side and price have left, with nothing booked |
| SimulationArrivals.OrderTakes | market_engine/execution/simulator.py:450-514 | any other order takes: it is not active, and its status and reason say how much of it was filled |
| SimulationArrivals.OwnQueueIs | market_engine/execution/simulator.py:466-473 | the own queue an order joins is what the orders have left that a trade at its level would reach |
| SimulationArrivals.SweptLevels | market_engine/execution/simulator.py:488-498 | the levels an order may sweep are those of the other side, for a limit order the ones at its price or better |
| SimulationMoney.FeeIs | market_engine/execution/simulator.py:619-656 | a fill that rested bears the maker rate and a fill that took the taker rate, in basis points of price times quantity |
| SimulationMoney.FillIsRefused | market_engine/execution/simulator.py:619-635 | a fill past the position limit books nothing and leaves its reason on the order |
| SimulationMoney.LedgerInUnits | market_engine/execution/simulator.py:619-656 | in whole units: the position is bought less sold, cash is received less paid less fees, and the fees are the maker rate on what rested and the taker rate on what took |
| SimulationMoney.EquityIsGains | market_engine/execution/simulator.py:742-747 | the equity the kill switch looks at is what each fill has gained at the middle, less the fees |
| SimulationMoney.EquityWithoutMiddle | market_engine/execution/simulator.py:742-747 | without a middle the position counts for nothing |
| SimulationMoney.MiddleIs | market_engine/execution/simulator.py:658-662 | the middle is as far above the best bid as below the best ask |
| SimulationMoney.OperateBooks | market_engine/execution/simulator.py:330-436 | an arriving order books only its own taker fills at its arrival, a market event only maker fills at its receipt, anything else nothing |
| SimulationDecreases.DecreasesAre | market_engine/execution/simulator.py:575-583 | the decreases of an update are exactly the levels listed with less than was displayed, each with its difference to the last such quantity |
| SimulationDecreases.NothingWithoutDecrease | market_engine/execution/simulator.py:589-595 | a level that did not shrink reaches nobody |
| SimulationDecreases.DepletionIs | market_engine/execution/simulator.py:584-593 | the optimistic model uses the whole decrease, the pro rata model its fraction |
| SimulationDecreases.TradeModelIgnoresDepth | market_engine/execution/simulator.py:573-574 | the trade-only model uses none of it |
| SimulationKill.KillSwitchTrips | market_engine/execution/simulator.py:742-751 | the switch is set exactly when marked equity has fallen to the loss limit, cancels every active order and changes no ledger |
| SimulationKill.OneControlFreezes | market_engine/execution/simulator.py:426-430 | after the switch a control books no fill and rejects what it activates |
| SimulationKill.MarketEventFreezes | market_engine/execution/simulator.py:330-351 | after the switch a market event books no fill |
| SimulationKill.KillSwitchStopsFills | market_engine/execution/simulator.py:307-358 | after the switch no fill is appended for the rest of the recording and every activated order is rejected |
| SimulationKill.KillSwitchStopsSimulation | market_engine/execution/simulator.py:307-370 | the same to the end of the simulation, final expiry included: no fill is appended and every later order is rejected, cancelled before arrival or expired unreached |
| SimulationQueue.StepReaches | market_engine/execution/simulator.py:545-562 | one order reached by a trade or decrease moves up by its size and books its share, or nothing when the position limit refuses it |
| SimulationQueue.EachReaches | market_engine/execution/simulator.py:545-617 | a trade or decrease reaches every order of its list, each booking what the position limit lets it have after the ones before |
| SimulationQueue.LevelShares | market_engine/execution/simulator.py:545-617 | the orders queued at a level share at most what the event brings there |
| SimulationQueue.AllBookedIff | market_engine/execution/simulator.py:551-562 | every share of a trade or decrease is booked exactly when each running total of the shares keeps the position in its limit |
| SimulationQueue.OneSideBookedIff | market_engine/execution/simulator.py:551-562 | on one side of the book every share is booked exactly when the limit allows their total |
| SimulationQueue.PairStaysBehindIff | market_engine/execution/simulator.py:545-617 | a pair keeps its queue order after a trade or decrease exactly when the event does not reach the earlier order, fills it, or leaves the later one beyond what the earlier one has left |
| SimulationQueue.WholeStaysBehind | market_engine/execution/simulator.py:545-562 | with whole units an order whose share was booked stays in front of those behind it |
| SimulationQueue.SweptInQueueIff | market_engine/execution/simulator.py:545-617 | after an event all queues are in order exactly when each reached pair of a level meets that condition or the later order is filled |
| SimulationQueue.AllBookedKeeps | market_engine/execution/simulator.py:545-617 | with whole units and every share booked the condition holds of every pair |
| SimulationQueueRuns.TradeQueueIs | market_engine/execution/simulator.py:533-544 | a trade reaches all resting orders of its level, in the order they arrived |
| SimulationQueueRuns.TradeKeepsIff | market_engine/execution/simulator.py:528-567 | the queues of the simulator are in order after a trade exactly when the condition holds of its orders, shares and position before it |
| SimulationQueueRuns.TradeFillsAtMostItself | market_engine/execution/simulator.py:528-567 | one trade fills the orders queued at its level for at most its own quantity in total |
| SimulationQueueRuns.DepletionKeepsIff | market_engine/execution/simulator.py:571-617 | the queues are in order after the displayed decreases of an update exactly when the condition holds before them |
| SimulationQueueRuns.DepletionFillsAtMostItself | market_engine/execution/simulator.py:571-617 | one depth decrease fills the orders queued at its level for at most the modelled decrease |
| SimulationQueueRuns.RestKeepsIff | market_engine/execution/simulator.py:463-476 | an order that comes to rest leaves the queues in order exactly when its computed position is no earlier than the end of every order of its level |
| SimulationQueueRuns.ThinnedKeeps | market_engine/execution/simulator.py:658-717 | whatever only takes orders out of the active list keeps the queues in order |
| SimulationQueueRuns.ExpireThins | market_engine/execution/simulator.py:708-717 | expiry only takes orders out of the active list |
| SimulationQueueRuns.CancelThins | market_engine/execution/simulator.py:675-706 | a cancel only takes orders out of the active list |
| SimulationQueueRuns.OperateKeepsIff | market_engine/execution/simulator.py:395-751 | each operation of the simulator keeps its invariant and the order of arrival, and the queues in order exactly when a condition on the state before it holds; only trades, decreases and arriving orders have one |
| SimulationQueueRuns.RunInOrderIff | market_engine/execution/simulator.py:395-751 | over every sequence of trades, depth updates, cancels, expiries, arrivals and risk checks the queues are in order in every state exactly when every operation meets its condition |
| SimulationQueueRuns.WholeRunInOrder | market_engine/execution/simulator.py:395-751 | with whole units the relation survives every such sequence in which the position limit allows the total of each trade and each running total of the decreases, and orders join behind their level |
| SimulationQueueRecordings.RecordingPerforms | market_engine/execution/simulator.py:307-358 | handling a recording is such a sequence of operations, with the same state or error |
| SimulationQueueRecordings.SimulationInOrderIff | market_engine/execution/simulator.py:307-370 | so over a whole recording the queues are in order in every state exactly when every operation meets its condition, and they are empty at the end |
| SimulationQueueRecordings.WholeRecordingInOrder | market_engine/execution/simulator.py:307-358 | with whole units they stay in order throughout a recording whose operations are all allowed |
| SimulationQueueExamples.RefusedShareBreaksTheQueue | market_engine/execution/simulator.py:551-562 | a concrete sound state with whole units: a trade with refused shares leaves two orders both at the front |
| SimulationQueueExamples.LateOrderJoinsTooEarly | market_engine/execution/simulator.py:463-476 | a concrete sound state in which orders queue behind the whole displayed quantity: it has shrunk from 5 to nothing, so a new order rests in front of the end of an older one |
| NativeBook.LowerBoundIsUnique | native/include/market_engine/order_book/L2OrderBook.hpp:291-311 | the partition point of a side by a price is unique |
| NativeBook.PlacedIsOrdered | native/include/market_engine/order_book/L2OrderBook.hpp:313-333 | erasing, overwriting or inserting at the lower bound keeps the strict order |
| NativeBook.FoundAtLowerBound | native/include/market_engine/order_book/L2OrderBook.hpp:257-263 | the level found by binary search is the map's entry for that price |
| NativeBook.ValidLoadsCompletely | native/include/market_engine/order_book/L2OrderBook.hpp:77-82 | loading stops early exactly when some price is not positive |
| NativeBook.MixedAllAppends | native/include/market_engine/order_book/L2OrderBook.hpp:23-36 | hashing a concatenation is hashing its parts in turn |
| NativeBook.Mix | native/include/market_engine/order_book/L2OrderBook.hpp:23-36 | the byte loop computes the FNV-1a state |
| NativeBook.MixLevels | native/include/market_engine/order_book/L2OrderBook.hpp:47-50 | the loop over levels mixes price then quantity of each |
| NativeBook.ComputeHash | native/include/market_engine/order_book/L2OrderBook.hpp:38-57 | the state hash is FNV-1a over id, counts and levels in little-endian order |
| NativeBook.CheckUpdate | native/include/market_engine/order_book/L2Types.hpp:166-179 | an update is refused exactly for a bad id range or a price that is not positive |
| NativeBook.MapOrderBook.InstallSnapshot | native/include/market_engine/order_book/L2OrderBook.hpp:72-85 | clears first; a zero id leaves the book empty, a bad price leaves the levels stored before it, anything else stores the image and audits every level |
| NativeBook.MapOrderBook.Apply | native/include/market_engine/order_book/L2OrderBook.hpp:88-102 | refused unchanged for a bad id range or price; otherwise all levels are applied and the top of the book is checked |
| NativeBook.MapOrderBook.Validate | native/include/market_engine/order_book/L2OrderBook.hpp:133-145 | the full audit reports the top of the book first and then any empty level |
| NativeBook.MapOrderBook.StateHash | native/include/market_engine/order_book/L2OrderBook.hpp:116-120 | the hash of the sides in iteration order |
| NativeBook.FlatOrderBook.FindLevel | native/include/market_engine/order_book/L2OrderBook.hpp:291-311 | binary search returns the number of levels strictly before the price |
| NativeBook.FlatOrderBook.UpdateLevel | native/include/market_engine/order_book/L2OrderBook.hpp:313-333 | erase, overwrite or insert at the lower bound |
| NativeBook.FlatOrderBook.Load | native/include/market_engine/order_book/L2OrderBook.hpp:335-344 | normalising keeps the side strictly ordered and stops at a price that is not positive |
| NativeBook.FlatOrderBook.InstallSnapshot | native/include/market_engine/order_book/L2OrderBook.hpp:201-211 | clears first; a side with a bad price is not stored at all; otherwise the image is stored in strict order and audited |
| NativeBook.FlatOrderBook.Apply | native/include/market_engine/order_book/L2OrderBook.hpp:213-226 | refused unchanged for a bad id range or price; otherwise all levels are placed, both sides stay strictly ordered and the top of the book is checked |
| NativeBook.FlatOrderBook.ValidateSide | native/include/market_engine/order_book/L2OrderBook.hpp:353-368 | the side audit reports the first empty or unordered level |
| NativeBook.FlatOrderBook.Validate | native/include/market_engine/order_book/L2OrderBook.hpp:280-284 | the full audit reports the top of the book first and then the first empty or unordered level |
| NativeBook.FlatOrderBook.QuantityOf | native/include/market_engine/order_book/L2OrderBook.hpp:257-263 | the quantity at a price equals the map's |
| NativeBook.FlatOrderBook.StateHash | native/include/market_engine/order_book/L2OrderBook.hpp:265-267 | the hash of the vectors as they are |
| NativeBookProperties.PlacedListsSetLevel | native/include/market_engine/order_book/L2OrderBook.hpp:313-333 | updating the sorted vector is updating the map it lists |
| NativeBookProperties.LoadsAgree | native/include/market_engine/order_book/L2OrderBook.hpp:201-226 | loading a list of levels keeps vector and map the same side and stops at the same level |
| NativeBookProperties.TopCheckIsFullAudit | native/include/market_engine/order_book/L2OrderBook.hpp:269-284 | on corresponding books the constant-time check reports exactly what either full audit reports |
| NativeBookProperties.FlatAuditIff | native/include/market_engine/order_book/L2OrderBook.hpp:269-284 | of any flat book the full audit accepts exactly the two-sided, uncrossed one without empty levels and with both sides in strict order |
| NativeBookProperties.ApplyAgrees | native/include/market_engine/order_book/L2OrderBook.hpp:213-226 | an update keeps the books corresponding, with the same error |
| NativeBookProperties.EmptyIffNetsToNothing | native/include/market_engine/order_book/L2OrderBook.hpp:72-85 | level commands leave an empty side exactly when the last command for every named price deletes it |
| NativeBookProperties.InstallAgreesIff | native/include/market_engine/order_book/L2OrderBook.hpp:201-211 | both books refuse the same snapshots with the same error, and hold the same levels afterwards exactly when the levels before the first bad price net to nothing |
| NativeBookProperties.RefusedSnapshotSplitsTheBooks | native/include/market_engine/order_book/L2OrderBook.hpp:72-85 | a concrete refused snapshot after which the map book keeps a level and the flat book none |
| NativeBookProperties.HashesAgree | native/include/market_engine/order_book/L2OrderBook.hpp:116-120 | corresponding books have the same state hash: the vectors are the unique ordered listing of the maps |
| HashEncoding.BookBytesAre | market_engine/market_data/l2_order_book.py:285-293 | the bytes hashed are, in eight bytes each, the id, the number of bids, price and quantity of each bid, the number of asks, price and quantity of each ask |
| HashEncoding.BookBytesAreInjective | market_engine/market_data/l2_order_book.py:285-293 | two books are hashed over the same bytes only when they are the same book |
| Offsets.LittleEndianAt | market_engine/market_data/l2_order_book.py:287-293 | byte i of a number is its digit of weight 256 to the i |
| HashEncoding.KnownHashes | market_engine/market_data/l2_order_book.py:277-283 | the hash of no bytes and of one known byte are the published values of 64-bit FNV-1a |
| NativeBookProperties.FlatRefinesMap | native/include/market_engine/order_book/L2OrderBook.hpp:60-371 | for every history of residue-free commands both books report the same errors and state hashes after each command |
| NativeBookProperties.SameThroughoutIff | native/include/market_engine/order_book/L2OrderBook.hpp:60-371 | over every history both books hold the same levels and report the same errors at every point exactly when no snapshot in it leaves a residue |
| NativeBookProperties.BooksReunite | native/include/market_engine/order_book/L2OrderBook.hpp:72-85 | whatever the books held, they agree again from the next clear or residue-free snapshot on |
| NativeBookProperties.TopCheckSuffices | native/include/market_engine/order_book/L2OrderBook.hpp:219-225 | after every history, refused snapshots included, the flat sides are strictly ordered without empty levels and the constant-time check equals the full audit |
| NativeBookProperties.PythonApplyAgrees | market_engine/market_data/l2_order_book.py:203-211 | the native reference and the Python book accept the same updates and reach the same state |
| NativeBookProperties.PythonInstallAgrees | market_engine/market_data/l2_order_book.py:184-201 | and the same snapshots |
| NativeBookProperties.OneByteChangesHash | market_engine/market_data/l2_order_book.py:269-294 | two books whose hashed encodings differ in exactly one byte never share a state hash |
| NativeBookProperties.MixParity | market_engine/market_data/l2_order_book.py:275-284 | each odd byte flips the parity of the hash state |
| NativeBookProperties.EmptyHashIsOdd | market_engine/market_data/l2_order_book.py:269-294 | the empty book does not have the fingerprint zero |
| Crc32.BitStepsAreLinear | native/include/market_engine/recording/L2BinaryFormat.hpp:73-83 | bit steps of the checksum distribute over exclusive or |
| Crc32.BitStepsAreInjective | native/include/market_engine/recording/L2BinaryFormat.hpp:73-83 | bit steps lose no 32-bit state |
| Crc32.TableDrivenAgrees | native/include/market_engine/recording/L2BinaryFormat.hpp:73-83 | the bitwise loop and the table-driven form of section 8 of RFC 1952, its table filled by the same bit steps, give the same value on every payload |
| Crc32.AbsorbAsNumber | native/include/market_engine/recording/L2BinaryFormat.hpp:73-83 | absorbing bytes one by one is absorbing their little-endian number at once |
| Crc32.AbsorbingKeepsDifference | native/include/market_engine/recording/L2BinaryFormat.hpp:73-83 | equal bytes never merge two different states |
| Crc32.BurstChangesCrc | native/include/market_engine/recording/L2BinaryFormat.hpp:73-83 | a change confined to at most four consecutive bytes always changes the checksum |
| CrcPolynomial.GeneratorIs | native/include/market_engine/recording/L2BinaryFormat.hpp:73-83 | the powers of the generator listed for the checksum of RFC 1952, as one number |
| CrcPolynomial.ConstantIs | native/include/market_engine/recording/L2BinaryFormat.hpp:73-83 | the constant of the bitwise loop is that generator without its highest power, reflected |
| CrcPolynomial.StepReflects | native/include/market_engine/recording/L2BinaryFormat.hpp:73-83 | one step of the loop is one step of the division |
| CrcPolynomial.CrcIsRemainder | native/include/market_engine/recording/L2BinaryFormat.hpp:73-83 | on every payload the complement of the checksum, reflected, is the remainder of the message polynomial (each byte low bit first, the all-ones register in front) on division by the generator |
| CrcPolynomial.RemainderIsUnique | native/include/market_engine/recording/L2BinaryFormat.hpp:73-83 | there is only one such remainder of degree below 32 |
| CrcPolynomial.CrcIff | native/include/market_engine/recording/L2BinaryFormat.hpp:73-83 | so a value is the checksum of a payload exactly when that holds of it |
| CrcPolynomial.Compute | native/include/market_engine/recording/L2BinaryFormat.hpp:73-83 | the loop over bytes and bits returns the checksum, and its complement, reflected, is the remainder of the message polynomial |
| Layouts.UnpackInvertsPack | market_engine/recording/l2.py:32-38 | unpacking returns the packed fields |
| Layouts.PackInvertsUnpack | market_engine/recording/l2.py:32-38 | packing the unpacked fields returns the bytes, with every field in range |
| L2Format.HeaderDecodes | market_engine/recording/l2.py:271-285 | an event header decodes from its 80 bytes |
| L2Format.HeaderEncodes | market_engine/recording/l2.py:606-620 | and every 80 bytes are the encoding of the header they decode to |
| L2Offsets.FileHeaderBytesAre | native/include/market_engine/recording/L2BinaryFormat.hpp:31-42 | the 128 bytes a recording starts with, field by field: magic, version, the three sizes, the two scales, creation time, symbol, zeros |
| L2Offsets.SnapshotBytesAre | native/include/market_engine/recording/L2BinaryFormat.hpp:44-63 | a recorded snapshot, offset by offset: type, receipt, its identifier twice, counts, size and checksum, then the bids and the asks |
| L2Offsets.DepthBytesAre | native/include/market_engine/recording/L2BinaryFormat.hpp:44-63 | the same for an update, with both times and both ends of its identifier range |
| L2Offsets.TradeBytesAre | native/include/market_engine/recording/L2BinaryFormat.hpp:44-63 | the same for a trade, with its maker flag, identifier, price and quantity |
| L2Offsets.BoundaryBytesAre | native/include/market_engine/recording/L2BinaryFormat.hpp:44-63 | the same for a boundary, whose flags number its reason from one |
| L2Format.PackLevel | market_engine/recording/l2.py:219-223 | one level is packed behind the bytes already written |
| L2Format.LevelPayload | market_engine/recording/l2.py:214-224 | the payload is the levels of both sides in order, or an error when a side has too many |
| L2Format.ReadLevelList | market_engine/recording/l2.py:574-587 | the loop decodes every level or reports a price that is not positive |
| L2Format.IterEvents | market_engine/recording/l2.py:591-689 | the reader yields exactly the specified events and error, and ends cleanly at the end of the file |
| L2FormatProperties.LevelsDecode | market_engine/recording/l2.py:574-587 | levels decode from their bytes |
| L2FormatProperties.RecordDecodes | market_engine/recording/l2.py:591-689 | a record decodes to its event wherever it stands in the file |
| L2FormatProperties.RecordsDecode | market_engine/recording/l2.py:591-689 | the records of any events decode to those events before what follows |
| L2FormatProperties.SymbolDecodes | market_engine/recording/l2.py:164-187 | the padded symbol field decodes to the symbol |
| L2FormatProperties.HeaderReads | market_engine/recording/l2.py:542-571 | the file header reads back, and the native validator accepts it |
| L2FormatProperties.FileDecodes | market_engine/recording/l2.py:227-286 | decoding the bytes written for any writable events returns exactly those events and the identity, without error |
| L2Canonical.SymbolsAre | market_engine/recording/l2.py:68 | a symbol has one to fifteen capital letters and digits |
| L2Canonical.ReadRecordEncodes | market_engine/recording/l2.py:591-689 | a record the reader accepts is, byte for byte, the record the writer makes of the decoded event |
| L2Canonical.YieldedIsEncoded | market_engine/recording/l2.py:542-689 | of any file with a readable header, the events yielded are those a writer would have stored in its first bytes, and there is no error exactly when that is the whole file |
| L2Canonical.ReadsIffWritten | market_engine/recording/l2.py:542-689 | the reader takes a file for an identity and events exactly when it is the file the writer makes of them |
| L2Canonical.AcceptedIffRead | native/include/market_engine/recording/L2BinaryFormat.hpp:108-200 | of the files with a readable header the validator accepts exactly those read without error to storable events |
| L2Validator.ValidateLevels | native/include/market_engine/recording/L2BinaryFormat.hpp:184-196 | the level loop accepts exactly positive prices, and in snapshots positive quantities |
| L2Validator.ValidateRecord | native/include/market_engine/recording/L2BinaryFormat.hpp:146-196 | a payload is accepted exactly when checksum, header fields and levels are |
| L2Validator.ValidateBuffer | native/include/market_engine/recording/L2BinaryFormat.hpp:108-200 | the validator loop stays in bounds, ends, and accepts exactly the specified buffers |
| L2FormatProperties.RecordAcceptedIff | native/include/market_engine/recording/L2BinaryFormat.hpp:119-197 | the validator accepts a written record exactly when a snapshot in it has levels, all with quantity |
| L2FormatProperties.WrittenFileAcceptedIff | native/include/market_engine/recording/L2BinaryFormat.hpp:108-200 | the validator accepts a written file exactly when all its events are storable |
| L2FormatProperties.EmptySnapshotIsRefused | native/include/market_engine/recording/L2BinaryFormat.hpp:108-200 | a written snapshot without levels reads back and is refused by the validator |
| L2FormatProperties.AcceptedRecordDecodes | native/include/market_engine/recording/L2BinaryFormat.hpp:119-197 | an accepted record decodes to an event whose encoding is that record |
| L2FormatProperties.AcceptedFileIsEncoding | native/include/market_engine/recording/L2BinaryFormat.hpp:108-200 | every accepted file with a well-formed symbol decodes and encodes back byte for byte |
| L2FormatProperties.AcceptedFileReadsIff | market_engine/recording/l2.py:173-187 | an accepted file reads without error exactly when its symbol field is well-formed |
| L2FormatProperties.AcceptedFileWithBadSymbol | market_engine/recording/l2.py:173-187 | a file header with one symbol byte replaced is accepted by the validator and refused by the reader |
| L2FormatProperties.CorruptionIsDetected | native/include/market_engine/recording/L2BinaryFormat.hpp:146-151 | after a change of at most four consecutive payload bytes the validator refuses the file, and the reader yields the earlier events and then the checksum error |
| DecimalParser.SpellsIffSplit | native/include/market_engine/order_book/L2Types.hpp:66-80 | a text is an unsigned decimal in at most one way, the way the parser splits it |
| DecimalParser.DigitsAre | native/include/market_engine/order_book/L2Types.hpp:82-90 | a digit is one of ten characters, worth its place among them |
| DecimalParser.DenotesUnique | native/include/market_engine/order_book/L2Types.hpp:59-131 | a text denotes at most one scaled integer |
| DecimalParser.ShortFraction | native/include/market_engine/order_book/L2Types.hpp:119-122 | missing decimals are padded with zeros |
| DecimalParser.LongFraction | native/include/market_engine/order_book/L2Types.hpp:104-118 | digits beyond the scale are accepted exactly when they are zero, and change nothing |
| DecimalParser.CheckIsExact | native/include/market_engine/order_book/L2Types.hpp:124-129 | the check before the multiplication refuses exactly the products that would wrap |
| DecimalParser.FromChars | native/include/market_engine/order_book/L2Types.hpp:82-90 | the integer part is accepted exactly when it is digits below 2^64 |
| DecimalParser.Decimals | native/include/market_engine/order_book/L2Types.hpp:92-102 | the supported decimals exist exactly for powers of ten |
| DecimalParser.ReadFraction | native/include/market_engine/order_book/L2Types.hpp:104-122 | the fraction loops give the padded digits, refusing significant digits beyond the scale |
| DecimalParser.ParseFixedDecimal | native/include/market_engine/order_book/L2Types.hpp:59-131 | accepts exactly unsigned decimals whose value times a power-of-ten scale is an integer below 2^64, returns that integer, and no 64-bit operation wraps |
| DecimalParser.ParsePrice | native/include/market_engine/order_book/L2Types.hpp:133-141 | accepts exactly positive prices with eight decimals below 2^63 |
| Publish.BackupMoves | market_engine/research/core.py:1285-1300 | moving a destination to its fresh temporary file backs it up and touches nothing else |
| Publish.CommitMoves | market_engine/research/core.py:1309-1311 | renaming a staged file commits the next pair and touches nothing else |
| Publish.RemovalRolls | market_engine/research/core.py:1313-1318 | rollback removes the last committed destination |
| Publish.RestoreRolls | market_engine/research/core.py:1319-1325 | rollback puts a backup back in its place |
| Publish.UncommittedLast | market_engine/research/core.py:1309-1311 | before its own rename the last pair does not look new |
| Publish.Disk.Replace | market_engine/research/core.py:1296-1310 | a rename is atomic: it happens completely or not at all |
| Publish.BackUpOne | market_engine/research/core.py:1285-1300 | one backup, undone when its rename fails; when it fails, its last operation failed, or the rename before it |
| Publish.BackUpAll | market_engine/research/core.py:1284-1300 | all existing destinations are backed up, or the first failure is reported with the backups made |
| Publish.CommitAll | market_engine/research/core.py:1309-1311 | commits in order and stops at the first failure, which is a failed operation or a repeated source |
| Publish.TryPublish | market_engine/research/core.py:1283-1311 | backs up and commits; it completes only if no operation failed, and otherwise stops at the first failure or at the refusal to overwrite |
| Publish.RollBack | market_engine/research/core.py:1312-1331 | undoes commits and backups in reverse order past every error, cleanly exactly when none of its operations failed |
| Publish.CleanUp | market_engine/research/core.py:1332-1334 | deletes the backups; it reports an error exactly when a deletion failed, and leaves the publication in place |
| Publish.PublishStaged | market_engine/research/core.py:1265-1334 | for every pattern of failing operations: all destinations new, or all as before exactly when no rollback operation failed, or else no earlier content lost; cleanup fails exactly when a deletion fails; the last pair is never visible as new without all others |
| ChronologicalSplit.SessionRowRanges | market_engine/research/core.py:406-415 | the ranges are the maximal runs of one session and tile the rows |
| ChronologicalSplit.Candidates | market_engine/research/core.py:435-444 | exactly the admissible boundary pairs with their scores |
| ChronologicalSplit.Least | market_engine/research/core.py:447 | the least candidate, the earliest on ties |
| ChronologicalSplit.RunsNameSessions | market_engine/research/core.py:458-462 | the sessions reported for consecutive ranges are exactly those of their rows |
| ChronologicalSplit.MakeChronologicalSplit | market_engine/research/core.py:418-493 | whole sessions exactly when admissible boundaries exist, then with the least score; otherwise the purged fallback, refused exactly when a part is too short; parts are ordered, disjoint, of at least 100 rows and name exactly their sessions |
| ChronologicalSplit.WholeSessionsIff | market_engine/research/core.py:431-444 | whole sessions are possible exactly when two session starts leave a hundred rows before, between and after them |
| ChronologicalSplit.BestIsNearest | market_engine/research/core.py:433-449 | a whole-session split cuts where sessions start, as near to three and four fifths of the rows as any two such cuts, and of equally near ones at the first |
| ChronologicalSplit.FallbackIs | market_engine/research/core.py:468-479 | the fallback trains on the first three fifths of the rows, validates on the next and tests on the last, both less the purge, and exists exactly when each part has a hundred rows |
| ChronologicalSplit.WholeSessionsShareNothing | market_engine/research/core.py:446-464 | a whole-session split covers all rows and no session is in two parts |
| ChronologicalSplit.EventsAtLeastRowsApart | market_engine/research/core.py:468-474 | within a session event indices grow at least as fast as rows |
| ChronologicalSplit.PurgeSeparates | market_engine/research/core.py:468-493 | with a purge of max(horizon, 25) no label window ends inside a later part and no 25-event lookback reaches an earlier one |
| Features.CumulativeIsSum | market_engine/market_data/microstructure.py:340-355 | differences of prefix sums are window sums |
| Features.VolatilityAgrees | market_engine/market_data/microstructure.py:340-355 | the offline rolling deviation is the online deviation of the latest twenty returns |
| Features.RowsAgree | market_engine/market_data/microstructure.py:391-734 | the online row over the last 26 ticks equals the offline row at that index, which is read out of columns with formulas of their own |
| Features.NoLookahead | market_engine/market_data/microstructure.py:366-370 | an offline row looks at no later tick: slices that share the last 26 ticks have the same row |
| FeatureMeaning.MicropriceLeans | market_engine/market_data/microstructure.py:411-417 | the microprice is the middle plus half the spread times the imbalance and never leaves the spread |
| FeatureMeaning.MicropriceFollowsBids | market_engine/market_data/microstructure.py:674-682 | more quantity at the bid moves it towards the ask |
| FeatureMeaning.ImbalanceIsShare | market_engine/market_data/microstructure.py:405-410 | the imbalance is one less twice the share of the asks, within -1 and 1, at the ends exactly when one side is empty |
| FeatureMeaning.SpreadIs | market_engine/market_data/microstructure.py:403 | the spread feature is the spread in basis points of the middle |
| FeatureMeaning.EventRateIs | market_engine/market_data/microstructure.py:443-452 | the event rate times the seconds passed is ten events, and zero when no time passed |
| FeatureMeaning.ReturnsAdd | market_engine/market_data/microstructure.py:328-331 | with the law of logarithms returns over consecutive stretches add up |
| FeatureMeaning.LaggedReturnIsSum | market_engine/market_data/microstructure.py:328-331 | so each lagged return is the sum of the one-event returns over its lag |
| FeatureMeaning.VolatilityIsDeviation | market_engine/market_data/microstructure.py:690-704 | the volatility is the root of the mean squared distance of the latest twenty returns from their mean |
| Features.CutPoints | market_engine/recording/top_of_book.py:530-539 | the cut points are the start, the end, the breaking boundaries and the long gaps |
| Features.GapIff | market_engine/recording/top_of_book.py:530-539 | with the wrapping 64-bit difference a segment ends where timestamps advance by more than the allowed gap, or go back by less than 2^64 minus that gap |
| Features.ContiguousSlices | market_engine/recording/top_of_book.py:514-546 | the slices tile the records and are exactly the continuity segments |
| Features.HistoryIsSegmentTail | market_engine/market_data/microstructure.py:609-657 | streaming with resets at the boundaries, the history is the last min(26, k) ticks of the current segment |
| Features.StreamMatchesOffline | market_engine/market_data/microstructure.py:391-734 | in every slice the stream emits from offset 25 on, and each row is the offline row there |
| Features.OnlineFeatureBuilder.Reset | market_engine/market_data/microstructure.py:586-590 | a reset empties the history and counts only when it held something |
| Features.OnlineFeatureBuilder.Update | market_engine/market_data/microstructure.py:609-734 | a tick with an impossible field changes nothing; any other is appended after a gap reset and emits the online row when the history is full, the row RowsAgree finds in the offline columns |
| Features.StreamAll | market_engine/cli/verify_top_of_book_replay.py:79-98 | the replay loop resets before listed indices and emits exactly the specified rows |

## Left out

- WebSocket, REST, TLS and DNS, reconnect backoff, JSON parsing, command lines and user interfaces: input and output through libraries.
- Floating-point rounding: prices, cash, fees, queue positions and features are reals, the split targets are exact fractions, logarithms and the square root are parameters.
- NaN and infinity: comparisons with them and the finiteness checks on features are not modelled.
- Markouts of fills, order metadata and the result summary of the simulator; the order of the result tuple.
- The completeness and hash gate at the start of a simulation: the events are the input.
- Simulated orders are values in a map, stored when an operation has settled them, so sharing of one order object between tables is not captured.
- The capture takes the state hash as a parameter, so its results hold for every hash; `CaptureFinish.Fingerprint` is the actual one.
- The writer's closed state, operating-system errors, SHA-256, the JSON sidecar and `read_metadata` beyond the completeness rule.
- Trimming and upper-casing of symbols before they are encoded: the model starts from the normalised symbol.
- The guards against `size_t` overflow in the validator: the bound on both level counts implies them.
- Paths of the file system are compared as names; links are not resolved, and staged files lie apart from their destinations.
- `strategy_trades`, regression, bootstrap and significance statistics: numerical code or easy consequences of the split.
- Wall-clock waits, thread start-up and shut-down of the ingestion engine: the recorder model takes from it only that one producer runs and is joined before the recorder stops.
- Simulator.ExecutionSimulator.Run: leaves the state after a raised error unspecified, and so do the methods it calls, because nothing in the repository uses a simulator after its run raised.
- Features.StreamMatchesOffline: covers validated recordings, because on other records the two paths check different things.
- NativeBookProperties.FlatRefinesMap: compares hashes only over residue-free histories, because two different books may share a hash; SameThroughoutIff is exact for the levels themselves, and BooksReunite says when they agree again.
- SpscQueue.FifoUnderEveryInterleaving: models acquire and release as loads of any value between the last observation and the current one; other reorderings of the hardware are not modelled.
