# SimDB: a verified model of Argos collection and of the pipeline runtime

SimDB collects what happens in a simulation into an SQLite database, and the Argos viewer shows it. A *collectable* is a
scalar, a contiguous container (a queue packed at the front) or a sparse container. At every simulation time that
collects, each collectable may stage its value or be closed; an asynchronous pipeline turns this into one compressed row
of wire records a time, sending full snapshots every so often (the *heartbeat*) and deltas between them; the Python
viewer parses the rows and rebuilds the values, usually from the last few rows only.

This project models that path from the entry-point call to the query answer, and the threads that carry it, and proves:

- **From call to query** (`EndToEnd`). A query returns for every tick the value that was set last, if and only if it
  starts at a row and no close that would show is lost, at heartbeat 1 or with one set of a collectable a time and at
  most 255 bins. `EndToEnd.Serve` is the same through all objects, from entry points and linked checkpointers to the
  viewer.
- **Lookback** (`Lookback`). Replaying only the last heartbeat rows gives the same values as replaying everything.
- **The codec** (`Runs`, `Limits`). The viewer holds the right value after every window of every run, and the exact
  inputs, down to the bytes, on which that is so.
- **The heartbeat** (`Heartbeat`, `Sending`): how old a FULL can be, and exactly which records every window sends.
- **The deltas** (`ContigDeltas`, `SparseDeltas`) and **the byte format** (`Wire`).
- **The linked checkpoint chain** (`Checkpointer`, `Refinement`, `Trimming`): the pointer structure does what the
  value-level chain of `Chain` does, over whole runs, and trimming it is unobservable.
- **The runtime**: conservation and order through any number of stages in every interleaving (`PipelineFlow`), flush
  and teardown to quiescence (`Runtime`), what a flush beside polling threads still promises (`FlushRace`), the pause
  handshake and its calls (`PauseHandshake`, `PauseCalls`) and why it makes a flush right (`PausedFlush`), retrying
  nested transactions (`Transactions`), thread merging (`ThreadMerger`), and the order-preserving text of 64-bit times
  (`DecimalText`).
- **The schema round trip** (`SchemaStore`, `SchemaRows`): which schemas come back equal when a database is opened again.

## Layout

| files | what they hold |
|---|---|
| Bytes, Records, Units | bytes, wire records, what a record does to a viewer's cell, compound records as single steps |
| ContigDeltas, SparseDeltas | the two change classifiers: specification, the loops, what the deltas mean |
| Wire, Encoder | printing and parsing records; the growing buffer that the encoders append to |
| Chain, Checkpointer, Refinement, Trimming | heartbeat rules and checkpoint chain on values; the linked class and its runs; trimming |
| Runs, Heartbeat, Sending, Sendable, Limits | whole runs of one collectable and what holds of all of them |
| Database, Lookback | all collectables together, rows, starting late |
| Viewer, BlobIterator, Retriever | the handler, parser and queries of the Python viewer, as imperative code |
| Collector, Stager, EndToEnd | entry points and ledgers, the first pipeline stage, the theorem across everything |
| PipelineFlow, Loads, Runtime, FlushRace, PauseHandshake, PauseCalls, PausedFlush, Transactions, ThreadMerger, DecimalText | the pipeline runtime and the text encoding |
| SchemaText, SchemaRows, SchemaStore | splitting and joining, the rows that keep a schema, the table class and both ends |

Specifications are functions; what the source does with loops, fields and pointers is a method or class proved against
them. `None`, `Bad`, `false` or an `Outcome` stands for the source's exceptions and failed assertions. `hide` statements
keep a definition out of a proof that does not need it.

## Results that are not what one might expect

- A delta is taken against the previous checkpoint, not the last one sent, so with a heartbeat above 1 staging a
  collectable twice in a window can leave the viewer wrong (`Limits.RestagingExact`). At present `setHeartbeat` ignores
  values above 1 (ArgosCollector.hpp:114-129); the model is for any heartbeat.
- Counts of MULTI_SWAP and MULTI_REMOVE and the departures of MIMO are one byte without a guard. With a heartbeat above 1
  containers above 255 bins can break the viewer (`Limits.SingleStageExact`).
- A sparse bin that changes to no bytes cannot be expressed by a delta: an assertion of the encoder fails on ADD and SWAP,
  and MULTI_SWAP sends bytes that do not parse (`SparseDeltas.SparseDeltaCorrect`, `SparseDeltas.EmptyBinAdded`,
  `Sendable.EmptyBinFate`).
- Setting a sparse container to one without any bin is a close, so that it shows as None and not as empty
  (`Collector.EmptySetCloses`).
- Setting and closing a collectable at the same time drops the close for good (`Collector.CloseExact`,
  `Collector.CloseIsLost`).
- `UnpackTicks` with a first tick before the first row returns nothing for any tick (`Retriever.UnpackTicksExact`,
  `Retriever.EarlyTickFails`).
- A flush beside polling threads can miss items and put rows in the wrong order (`FlushRace.FreeFlushExact`,
  `FlushRace.QuietFlushExact`, `FlushRace.Overtaken`); with all threads paused, as `scopedDisableAll` leaves them, it is
  right (`PausedFlush.PausedFlushIsRight`).
- Merging the threads of an app with two pipelines leaves the earlier one without threads
  (`ThreadMerger.ServedExactly`, `ThreadMerger.FirstPipelineUnserved`), and merging apps with database stages only fails an
  assertion (`ThreadMerger.IntervalsExact`, `ThreadMerger.OnlyDatabaseFails`). Merged threads poll every 100 ms, whatever
  interval their stages agreed on (`ThreadMerger.MergedIntervalExact`, `ThreadMerger.IntervalIsLost`).
- The scan for a MIMO counts to 65535 in 16 bits and does not end on a baseline of 65535 bins without a match
  (`ContigDeltas.ScanStopsExact`, `ContigDeltas.ScanNeverStops`, `Limits.ScansEndExact`).
- Two equal snapshots in the first window are sent as CARRY, without any FULL, above heartbeat 1
  (`Limits.HeartbeatExact`).
- A schema with a vertical bar in an indexed name, such as `[a|b]`, cannot be read back from its rows
  (`SchemaRows.SchemaRoundTrip`, `SchemaRows.BracketsAreLost`), nor could one with an index on no column, which SQLite
  refuses before the rows are written. The UNIQUE mark of a column is never kept, which `operator==` does not notice.

## Model

| member | source | states |
|---|---|---|
| EndToEnd.QueriesAnswerCalls | python/argos/viewer/model/data_retriever.py:366-394 | From entry-point call to query answer: for well-typed calls in time order, sets of values without bytes included, at heartbeat 1 or with each collectable set at most once a time and containers of at most 255 bins, and any increasing ticks, the query over the rows the stager writes returns at each tick the value set last, the closed value after a close and nothing before the first value, if and only if a row lies at or before the first tick and at no tick a close of anything but an empty queue is lost, or there is no value up to the last tick |
| EndToEnd.SetIsAnswered | python/argos/viewer/model/data_retriever.py:366-394 | If the last call on a collectable at or before a tick set a value with bytes, the answer at that tick is exactly that value |
| EndToEnd.Serve | include/simdb/apps/argos/ArgosCollector.hpp:432-518 | The same through the objects as the source has them: entry points, collector, stager with its linked checkpointers, encoders, parser, handler and query; the table is exactly the value-level one, no assertion of any of them fails, and each answer is what the caller meant under exactly that condition |
| EndToEnd.MakeCalls | include/simdb/apps/argos/EntryPoint.hpp:33-84 | Driving the entry points through any calls in time order and tearing down hands the pipeline exactly the ledgers of the calls |
| EndToEnd.MakeCall | include/simdb/apps/argos/EntryPoint.hpp:33-84 | One call on one of several entry points of a collector, a set of a value without bytes included, is one step of the front end |
| EndToEnd.RunPipeline | include/simdb/apps/argos/ArgosCollector.hpp:432-518 | On the ledgers of well-typed calls whose scans end, the stager fails no assertion and writes exactly the table |
| EndToEnd.AllGoThrough | include/simdb/apps/argos/Checkpointer.hpp:392-404 | No size assertion of a checkpoint and no assertion of an encoder fails on well-typed ledgers |
| EndToEnd.ReachedAgainstMeant | include/simdb/apps/argos/ArgosCollector.hpp:476-482 | The value in the pipeline is the one meant if and only if no close was lost or an empty queue stayed open; both are absent together |
| EndToEnd.DatabaseValid | include/simdb/apps/argos/ArgosCollector.hpp:432-518 | Well-typed calls in time order lead, at heartbeat 1 or with one set of a collectable a time and containers of at most 255 bins, to a database that the lookback and query theorems apply to |
| EndToEnd.ValueIsReached | include/simdb/apps/argos/ArgosCollector.hpp:772-799 | The value of a collectable at time t is what the calls at or before t, and no later ones, left in the pipeline |
| EndToEnd.LedgersUpTo | include/simdb/apps/argos/ArgosCollector.hpp:772-799 | The calls up to a time leave exactly the ledgers up to that time; later calls never touch them |
| Collector.LedgersInOrder | include/simdb/apps/argos/ArgosCollector.hpp:772-799 | Calls in time order never fail the monotonic-time assertion; ledgers are numbered 1, 2, 3, ... and their times strictly increase |
| Collector.CloseExact | include/simdb/apps/argos/ArgosCollector.hpp:441-482 | The pipeline holds what the caller meant if and only if the collectable was not last closed at the very time it was last set; then the close is dropped and the pipeline keeps what was last set, however often it is closed again |
| Collector.LastCallDecides | include/simdb/apps/argos/EntryPoint.hpp:52-85 | The last call on a collectable decides what it is meant to be: a set of a scalar with bytes, a queue with bins or a sparse container with bins means that value; a set of anything else, or a close, means closed, or never there if no value was ever set |
| Collector.CloseIsLost | include/simdb/apps/argos/ArgosCollector.hpp:476-482 | The concrete calls: set and closed at time 0, be it by a set of a value without bytes; closed for the caller and open for the pipeline |
| Collector.EmptySetCloses | include/simdb/apps/argos/EntryPoint.hpp:76-84 | Setting a sparse container to one without any bin closes it: it shows as None from then on and not as slots without bins |
| Collector.AllTrack | include/simdb/apps/argos/EntryPoint.hpp:33-84 | The entry point is open exactly while the caller meant the collectable to be open, and a ledger holds a record of it exactly if it was last set at the ledger's time |
| Collector.ArgosCollector.CheckTimeAdvanced | include/simdb/apps/argos/ArgosCollector.hpp:772-799 | Starts a ledger, hands the old one to the pipeline, keeps it, or fails on time going back, as AtTime says |
| Collector.ArgosCollector.Stage | include/simdb/apps/argos/ArgosCollector.hpp:297-316 | Appends the value to the records of the ledger of the current time, which are none if time has moved on, and fails exactly if time goes back |
| Collector.ArgosCollector.CloseRecord | include/simdb/apps/argos/ArgosCollector.hpp:318-323 | Notes the close in the ledger of the current time |
| Collector.ArgosCollector.PreTeardown | include/simdb/apps/argos/ArgosCollector.hpp:332-338 | Hands a last ledger that holds anything to the pipeline |
| Collector.EntryPoint.CloseRecord | include/simdb/apps/argos/EntryPoint.hpp:33-40 | Only an open entry point passes a close on, into the closed IDs of the ledger of the current time; a closed one changes nothing |
| Collector.EntryPoint.SetValueBytes | include/simdb/apps/argos/EntryPoint.hpp:52-85 | A scalar without bytes, a queue without bins and a sparse container without bins close the entry point, and nothing else does; any other value opens it and becomes the newest record of the ledger of that time, a new one if time has moved on, behind the records that were there |
| Stager.PipelineStager.StageRecords | include/simdb/apps/argos/ArgosCollector.hpp:445-474 | Each record becomes a checkpoint of its linked checkpointer, in order, the others untouched, and the collectables with one are remembered; fails exactly if a size assertion does |
| Stager.PipelineStager.CloseRecords | include/simdb/apps/argos/ArgosCollector.hpp:476-482 | A close reaches the checkpointer exactly if the collectable has no checkpoint in the same ledger |
| Stager.PipelineStager.EncodeWindow | include/simdb/apps/argos/ArgosCollector.hpp:484-512 | Encodes every linked checkpointer once; the blob is the printed records of the window and every checkpointer is one step further in its run; fails exactly if an assertion on what is sent does |
| Stager.PipelineStager.RunOne | include/simdb/apps/argos/ArgosCollector.hpp:437-515 | One ledger more: checkpointers and rows are those of the run with that ledger; a window that sends nothing leaves no row; fails exactly if an assertion does |
| Stager.PipelineStager.Run | include/simdb/apps/argos/ArgosCollector.hpp:432-518 | Empties the input queue; the output is exactly the table of all ledgers so far; cannot fail when every ledger goes through |
| Stager.PipelineStager.StillSeparate | include/simdb/apps/argos/ArgosCollector.hpp:445-452 | When one checkpointer has worked, on nodes of its own or new ones, no two checkpointers share anything and the others stand as they were |
| Stager.PipelineStager.EncodeForPipeline | include/simdb/apps/argos/Checkpointer.hpp:423-453 | One checkpointer among all does what the value-level chain does |
| Stager.AppendAll | include/simdb/apps/argos/ArgosCollector.hpp:672-688 | The records of a collectable, each in a buffer of its own, concatenated |
| ContigDeltas.CountElements | include/simdb/apps/argos/CheckpointDeltas.hpp:59-74 | Length of the front-packed occupied bins; a failed assertion above 65535 |
| ContigDeltas.PrefixMatchesAfterDepart | include/simdb/apps/argos/CheckpointDeltas.hpp:76-93 | Whether the bins left after the departures are a prefix of the new ones |
| ContigDeltas.ChangedIndices | include/simdb/apps/argos/CheckpointDeltas.hpp:115-130 | The changed indices, ascending |
| ContigDeltas.IsShiftedByOne | include/simdb/apps/argos/CheckpointDeltas.hpp:146-157 | The BOOKENDS test: all but the last bin shifted by one |
| ContigDeltas.SameSizeDelta | include/simdb/apps/argos/CheckpointDeltas.hpp:113-174 | CARRY, SWAP, BOOKENDS or MULTI_SWAP between equally long queues |
| ContigDeltas.OneStep | include/simdb/apps/argos/CheckpointDeltas.hpp:176-211 | The ARRIVE and DEPART tests |
| ContigDeltas.ScanDepartures | include/simdb/apps/argos/CheckpointDeltas.hpp:213-246 | The first departure count that the 16-bit scan accepts, as a MIMO with its arrivals, whenever the scan ends at all |
| ContigDeltas.ScanStopsExact | include/simdb/apps/argos/CheckpointDeltas.hpp:213-246 | The scan with its counter modulo 65536 ends if and only if the old queue has fewer than 65535 bins or some departure count is accepted |
| ContigDeltas.ScanNeverStops | include/simdb/apps/argos/CheckpointDeltas.hpp:213 | The concrete input: 65535 bins replaced by 256 other ones |
| ContigDeltas.ClassifyContigChange | include/simdb/apps/argos/CheckpointDeltas.hpp:99-250 | The classifier and its failed size assertions, on all inputs on which it ends |
| ContigDeltas.ClassifierStopsExact | include/simdb/apps/argos/CheckpointDeltas.hpp:99-250 | It ends if and only if the old queue does not have 65535 bins from which no delta leads to the new one |
| ContigDeltas.DeltaCorrect | include/simdb/apps/argos/CheckpointDeltas.hpp:110-249 | Applying the delta with the viewer's swap, pop-front and append to the old bins gives the new bins if and only if the departure count of a MIMO fits its byte |
| ContigDeltas.ContigDeltaCorrect | include/simdb/apps/argos/CheckpointDeltas.hpp:99-250 | The same on whole snapshots and the viewer's cell; it always holds up to 255 occupied bins |
| ContigDeltas.ContigDeltaTotal | include/simdb/apps/argos/CheckpointDeltas.hpp:99-249 | With at most 255 occupied bins now, FULL is chosen if and only if the baseline vector is empty |
| ContigDeltas.CarryExact | include/simdb/apps/argos/CheckpointDeltas.hpp:132-136 | Between equally long queues CARRY is chosen if and only if they are equal |
| ContigDeltas.SwapExact | include/simdb/apps/argos/CheckpointDeltas.hpp:138-144 | SWAP is chosen if and only if exactly one bin changed, and names that bin and its new bytes |
| ContigDeltas.ShiftExact | include/simdb/apps/argos/CheckpointDeltas.hpp:146-174 | With more than one change, BOOKENDS with the new last bin if and only if the queue moved on by one, and otherwise a MULTI_SWAP of exactly the changed bins in ascending order |
| ContigDeltas.MimoIsOptimal | include/simdb/apps/argos/CheckpointDeltas.hpp:213-246 | A MIMO keeps the longest possible overlap, so it transmits as few bins as any shift can; the skipped combinations hide none |
| ContigDeltas.DepartOverflow | include/simdb/apps/argos/CheckpointDeltas.hpp:238 | 256 bins replaced by one: the departure count is stored as 0 |
| ContigDeltas.PopFrontFacts | python/argos/viewer/model/blob_handlers.py:156-160 | n departures drop the first n bins, or fail on a shorter list |
| ContigDeltas.AppendFacts | python/argos/viewer/model/blob_handlers.py:150-154 | Arrivals append, or fail above the capacity |
| ContigDeltas.SwapBinsFacts | python/argos/viewer/model/blob_handlers.py:143-148 | Swaps that cover every differing index turn one list into the other |
| SparseDeltas.CountElements | include/simdb/apps/argos/CheckpointDeltas.hpp:289-301 | Number of bins that hold bytes; a failed assertion above 65535 |
| SparseDeltas.Differences | include/simdb/apps/argos/CheckpointDeltas.hpp:448-472 | Exactly the changed, removed and added indices, ascending |
| SparseDeltas.OnlyRemoved | include/simdb/apps/argos/CheckpointDeltas.hpp:404-440 | The removed indices, if nothing else changed |
| SparseDeltas.OnlyAdded | include/simdb/apps/argos/CheckpointDeltas.hpp:365-402 | The added indices, if nothing else changed |
| SparseDeltas.ClassifySameCount | include/simdb/apps/argos/CheckpointDeltas.hpp:448-523 | The branch for equally many bins, dead tests included |
| SparseDeltas.ClassifySparseChange | include/simdb/apps/argos/CheckpointDeltas.hpp:307-524 | The classifier and its failed size assertions |
| SparseDeltas.SparseDeltaCorrect | include/simdb/apps/argos/CheckpointDeltas.hpp:307-524 | Applying the delta to the old slots gives the new ones if and only if every changed or added bin holds bytes |
| SparseDeltas.EmptyBinAdded | include/simdb/apps/argos/CheckpointDeltas.hpp:307-524 | The concrete input: a bin without bytes that appears is classified as ADD with nothing to add |
| Sendable.EmptyBinFate | include/simdb/apps/argos/Checkpoint.hpp:585-628 | What the code does when a delta would need an empty bin: the payload assertion of ADD and SWAP fails, so nothing is sent; a MULTI_SWAP is sent and the format cannot carry it |
| SparseDeltas.SparseDeltaByDifference | include/simdb/apps/argos/CheckpointDeltas.hpp:442-523 | With no empty bins the counts decide nothing: the choice is by what changed alone, so the ADD, REMOVE and MULTI_REMOVE tests for equal counts and the last FULL are dead |
| SparseDeltas.FullSparseCorrect | include/simdb/apps/argos/Checkpoint.hpp:554-566 | A full snapshot rebuilds the slots whatever the viewer held |
| Wire.RecordRoundTrip | python/argos/viewer/model/blob_iterator.py:84-218 | A record survives printing and parsing if and only if the format can carry it: action allowed for the kind, bins of its width, counts within their field |
| Wire.BlobRoundTrip | python/argos/viewer/model/blob_iterator.py:257-263 | A blob parses back into exactly the printed records, all input consumed, if and only if each of them is one the format can carry |
| Wire.ReadContigPrinted | python/argos/viewer/model/blob_iterator.py:119-169 | The contiguous-container parser undoes the printer and leaves the rest of the input |
| Wire.ReadSparsePrinted | python/argos/viewer/model/blob_iterator.py:171-218 | The sparse-container parser undoes the printer and leaves the rest of the input |
| Wire.ReadMimoPrinted | include/simdb/apps/argos/Checkpoint.hpp:413-420 | The two MIMO counts and the arrivals are read back |
| Wire.ReadAllFits | python/argos/viewer/model/blob_iterator.py:84-218 | Whatever the parser accepts is something the format can carry |
| Encoder.CollectedData.AppendPayload | include/simdb/apps/argos/Checkpoint.hpp:381-428 | The appends of a payload produce the printed payload |
| Encoder.CollectedData.AppendBins | include/simdb/apps/argos/Checkpoint.hpp:350-358 | Bins appended one by one, in order |
| Encoder.CollectedData.AppendEntries | include/simdb/apps/argos/Checkpoint.hpp:554-566 | Index and bytes of every bin appended, in order |
| Encoder.EncodeRecord | include/simdb/apps/argos/CollectedData.hpp:16-41 | ID, action byte and payload of one record |
| Sendable.SendsFit | include/simdb/apps/argos/Checkpoint.hpp:381-639 | Every record of every valid run is one that the format can carry, at heartbeat 1 or with containers of at most 255 bins |
| Sendable.NoAssertionFails | include/simdb/apps/argos/Checkpointer.hpp:392-404 | In a valid run no size assertion and no assertion on the bytes to be sent ever fails |
| Records.LateRecord | python/argos/viewer/model/blob_handlers.py:122-187 | One record: an unknown cell stays unknown or catches up, and catches up on a reset |
| Records.LateStart | python/argos/viewer/model/blob_handlers.py:122-187 | A viewer that starts in the middle never fails where one that saw everything does not; it knows nothing or the same, and knows it if and only if a reset has passed |
| Units.CompoundIsUnits | python/argos/viewer/model/blob_iterator.py:142-167 | Every compound record does to a cell exactly what its single handler calls do one after the other, failures included |
| Chain.AnchorIsNewest | include/simdb/apps/argos/Checkpointer.hpp:101-115 | With windows in order the anchor is the newest node at or before the window |
| Checkpointer.Checkpoint.constructor | include/simdb/apps/argos/Checkpoint.hpp:68-76 | Links the new node behind its predecessor |
| Checkpointer.DetachPrev | include/simdb/apps/argos/Checkpoint.hpp:54-61 | The list from this node on is a whole doubly linked list again |
| Checkpointer.CollectableCheckpointer.CreateCheckpoint | include/simdb/apps/argos/Checkpointer.hpp:392-404 | Fails exactly on the size assertions, else appends a data node; links, head and tail stay consistent |
| Checkpointer.CollectableCheckpointer.CloseRecord | include/simdb/apps/argos/Checkpointer.hpp:409-417 | Appends a lifecycle node; links, head and tail stay consistent |
| Checkpointer.CollectableCheckpointer.GetAnchorForWindow | include/simdb/apps/argos/Checkpointer.hpp:101-115 | The pointer walk finds the anchor that the value-level chain defines |
| Checkpointer.CollectableCheckpointer.WalkToData | include/simdb/apps/argos/Checkpointer.hpp:308-317 | The pointer walk finds the newest data checkpoint below an index |
| Checkpointer.CollectableCheckpointer.ClosedSince | include/simdb/apps/argos/Checkpoint.hpp:80-96 | Whether a close lies between a checkpoint and its baseline |
| Checkpointer.CollectableCheckpointer.GetSharedCheckpoint | include/simdb/apps/argos/Checkpointer.hpp:131-148 | The walk back from the head finds every node of the chain |
| Checkpointer.CollectableCheckpointer.RecordCidSent | include/simdb/apps/argos/Checkpointer.hpp:213-230 | Counter and times after a record has gone out |
| Checkpointer.CollectableCheckpointer.CleanupThrough | include/simdb/apps/argos/Checkpointer.hpp:362-374 | Tail moved to the anchor, older nodes dropped on FULL, the rest a consistent list |
| Checkpointer.CollectableCheckpointer.EncodeCheckpoint | include/simdb/apps/argos/Checkpoint.hpp:277-307 | The record of a checkpoint: CLOSED, FULL or the classified delta against the previous data checkpoint; asks for an ending scan only where one runs |
| Checkpointer.CollectableCheckpointer.EmitRecordClosed | include/simdb/apps/argos/Checkpointer.hpp:474-491 | CLOSED, primed with FULL when the last FULL is outside the heartbeat window |
| Checkpointer.CollectableCheckpointer.EncodeSkipped | include/simdb/apps/argos/Checkpointer.hpp:432-452 | Refresh of a collectable that skipped the window |
| Checkpointer.CollectableCheckpointer.EncodeForPipeline | include/simdb/apps/argos/Checkpointer.hpp:423-453 | The linked checkpointer sends what the value-level chain sends and ends in the state it ends in; it fails exactly on the encoder's assertions; asks for an ending scan only where one runs |
| Checkpointer.CollectableCheckpointer.EncodeAnchored | include/simdb/apps/argos/Checkpointer.hpp:494-513 | The record of this window's checkpoint: CLOSED goes through priming, anything else is noted and sent; older nodes are dropped on FULL only |
| Refinement.DriveRun | include/simdb/apps/argos/ArgosCollector.hpp:445-496 | The linked checkpointer, driven through any valid run on which its scans end, fails no assertion, sends exactly the stream of the value-level run, and on the runs of the round trip leaves the viewer on the collectable's value |
| Refinement.StageEvent | include/simdb/apps/argos/ArgosCollector.hpp:452-480 | One window's creates or close on the linked checkpointer; fails exactly on the size assertions |
| Trimming.TrimmingIsUnobservable | include/simdb/apps/argos/Checkpointer.hpp:362-374 | For any creates, closes and encodes, the encodes at increasing windows, a checkpointer that trims sends exactly what one that never drops a node sends |
| Trimming.SameEncode | include/simdb/apps/argos/Checkpoint.hpp:181-190 | One encode: what was dropped in front of a data checkpoint changes neither anchor, baseline nor record |
| Runs.WholeRunRoundTrip | include/simdb/apps/argos/Checkpointer.hpp:423-528 | After every window of every valid run, the viewer that has read everything sent so far holds exactly the collectable's value; heartbeat 1, or one snapshot a window and departure counts that fit a byte |
| Runs.WindowCorrect | include/simdb/apps/argos/Checkpointer.hpp:423-453 | What one window sends takes the viewer from the value before it to the value after it |
| Runs.StageCorrect | include/simdb/apps/argos/Checkpoint.hpp:277-307 | A staged snapshot reaches the viewer, by FULL or by a delta whose baseline the viewer holds |
| Runs.ShutCorrect | include/simdb/apps/argos/Checkpointer.hpp:474-491 | CLOSED, primed or not, leaves the viewer on the closed value |
| Runs.IdleCorrect | include/simdb/apps/argos/Checkpointer.hpp:432-452 | A refresh never changes what the viewer shows |
| Runs.RunInv | include/simdb/apps/argos/Checkpointer.hpp:101-148 | In every run the chain's windows are in order and its newest node tells the collectable's state |
| Heartbeat.HeartbeatInvariant | include/simdb/apps/argos/Checkpointer.hpp:165-230 | After each window at time t of a run at heartbeat 1, or with one snapshot a window at any heartbeat, a collectable that has held data was last sent FULL within [t - heartbeat + 1, t], and a closed one CLOSED within it |
| Heartbeat.RecordedTimesAreSent | include/simdb/apps/argos/Checkpointer.hpp:213-230 | In every run at every heartbeat the times the heartbeat rules go by are those of records really sent |
| Heartbeat.DeltaChainBounded | include/simdb/apps/argos/Checkpointer.hpp:165-168 | In every run, whatever is staged, at most heartbeat - 1 data deltas are sent between two FULLs |
| Sending.SendsExact | include/simdb/apps/argos/Checkpointer.hpp:423-528 | Every window of every valid run sends exactly what is due by what was staged and sent before: a staged snapshot goes as the delta to the one before it if there is such a delta, nothing was closed in between, fewer than heartbeat - 1 records went out since the last FULL and that is less than heartbeat old, and else as FULL; a close as CLOSED, behind a FULL if none was sent within the heartbeat; a skipped window sends nothing unless FULL or CLOSED is that old |
| Sending.FieldsKept | include/simdb/apps/argos/Checkpointer.hpp:213-230 | In every valid run the two times are those of the last window that sent FULL or CLOSED, the distance is the number of records after the last FULL, and the newest data checkpoint is the snapshot staged last |
| Sending.DeltaExists | include/simdb/apps/argos/Checkpoint.hpp:277-307 | A delta exists between equal scalars only; for a queue of at most 255 bins unless the baseline has no bin; for a sparse container without empty bins as its differences have it |
| Limits.RestagingExact | include/simdb/apps/argos/Checkpoint.hpp:310-319 | With several snapshots of a collectable in one window allowed, the bytes bring the viewer to the right value on all valid runs if and only if the heartbeat is 1 |
| Limits.SingleStageExact | include/simdb/apps/argos/Checkpoint.hpp:399-413 | With one snapshot a window they do so if and only if the heartbeat is 1, the collectable is a scalar, or its capacity is at most 255 |
| Limits.TwiceInAWindowFails | include/simdb/apps/argos/Checkpoint.hpp:310-319 | The concrete run: a snapshot staged twice is sent as CARRY of one the viewer never got |
| Limits.ManyLeaveFails | include/simdb/apps/argos/CheckpointDeltas.hpp:238 | The concrete run for queues above 255 bins |
| Limits.ManyChangeFails | include/simdb/apps/argos/Checkpoint.hpp:604-613 | The concrete run for sparse containers above 255 bins: the count byte is 0 and the viewer stops on the leftover bytes |
| Limits.ScansEndExact | include/simdb/apps/argos/CheckpointDeltas.hpp:213-246 | The checkpointer gets through every valid run of a collectable if and only if the heartbeat is at most 1, it is no queue or it holds fewer than 65535 bins; the same with one snapshot a window |
| Limits.FullQueueNeverEnds | include/simdb/apps/argos/CheckpointDeltas.hpp:213 | The concrete run: a full queue of 65535 bins replaced by 256 other ones |
| Limits.HeartbeatExact | include/simdb/apps/argos/Checkpointer.hpp:165-230 | The heartbeat invariant holds after every valid run if and only if the heartbeat is 1 |
| Limits.FirstSentAsCarry | include/simdb/apps/argos/Checkpoint.hpp:310-319 | The concrete run: two equal snapshots in the first window are sent as CARRY, and no FULL ever was |
| Limits.BytesShowRecords | python/argos/viewer/model/blob_iterator.py:257-264 | What the format can carry, it carries: bytes and records show the same |
| Database.OnlyGathered | include/simdb/apps/argos/ArgosCollector.hpp:488-512 | Of one collectable a row holds exactly its own records, whatever the order of encoding |
| Database.ApplyAllProjects | python/argos/viewer/model/blob_handlers.py:110-187 | In a mixed stream every cell is what the collectable's own records make of it |
| Lookback.RowsReplay | python/argos/viewer/model/blob_iterator.py:257-264 | Replaying the rows from any one on shows of every collectable what its own records from there on say, without a failing assertion |
| Lookback.ResetSince | include/simdb/apps/argos/Checkpointer.hpp:186-210 | Whatever a collectable has to show, the reset that shows it is in the last heartbeat rows |
| Lookback.LookbackSuffices | python/argos/viewer/model/blob_iterator.py:359-375 | Replaying from any row on that leaves at least heartbeat rows, or from the first, gives every collectable the value that a replay from the beginning gives it, which is its value, and no assertion of the viewer fails |
| Viewer.ByteBuffer.ReadByte | python/argos/viewer/model/data_deserializers.py:74-86 | Reads a byte and advances, or fails at the end |
| Viewer.ByteBuffer.ReadShort | python/argos/viewer/model/data_deserializers.py:74-86 | Reads a 16-bit integer and advances, or fails |
| Viewer.ByteBuffer.Deserialize | python/argos/viewer/model/data_deserializers.py:88-92 | Reads a fixed number of bytes and advances, or fails |
| Viewer.DataExtractionHandler.HandleClosed | python/argos/viewer/model/blob_handlers.py:122-124 | CLOSED of a scalar or sparse container: None if it was known |
| Viewer.DataExtractionHandler.HandleContigContainerClosed | python/argos/viewer/model/blob_handlers.py:132-133 | CLOSED of a queue: empty, known or not |
| Viewer.DataExtractionHandler.HandleContigContainerFullDump | python/argos/viewer/model/blob_handlers.py:138-141 | Replaces the list, or fails above the capacity |
| Viewer.DataExtractionHandler.HandleContigContainerSwap | python/argos/viewer/model/blob_handlers.py:143-148 | Overwrites one bin of a known list, or fails |
| Viewer.DataExtractionHandler.HandleContigContainerArrival | python/argos/viewer/model/blob_handlers.py:150-154 | Appends to a known list, or fails above the capacity |
| Viewer.DataExtractionHandler.HandleContigContainerDeparture | python/argos/viewer/model/blob_handlers.py:156-160 | Drops the first bin of a known list, or fails on an empty one |
| Viewer.DataExtractionHandler.HandleContigContainerBookends | python/argos/viewer/model/blob_handlers.py:162-164 | Departure, then arrival |
| Viewer.DataExtractionHandler.HandleSparseContainerExchangedBin | python/argos/viewer/model/blob_handlers.py:176-187 | Sets or clears one slot of a known container, or fails |
| Viewer.DataExtractionHandler.HandleSparseContainerFullDump | python/argos/viewer/model/blob_handlers.py:241-245 | All slots None, then one assignment a bin |
| BlobIterator.HandleScalarAction | python/argos/viewer/model/blob_iterator.py:103-117 | Parses and handles a scalar record, or fails where either would |
| BlobIterator.HandleContigContainerAction | python/argos/viewer/model/blob_iterator.py:119-169 | Parses and handles a queue record step by step, or fails where parsing or applying it whole would |
| BlobIterator.HandleSparseContainerAction | python/argos/viewer/model/blob_iterator.py:171-218 | The same for sparse containers |
| BlobIterator.HandleMimo | python/argos/viewer/model/blob_iterator.py:160-167 | Departures and arrivals one by one are the MIMO as a whole |
| BlobIterator.HandleMultiSwap | python/argos/viewer/model/blob_iterator.py:142-147 | Swaps handled while they are read are the MULTI_SWAP as a whole |
| BlobIterator.HandleMultiRemove | python/argos/viewer/model/blob_iterator.py:212-216 | Removals handled while they are read are the MULTI_REMOVE as a whole |
| BlobIterator.HandleRecord | python/argos/viewer/model/blob_iterator.py:84-101 | One record read and applied |
| BlobIterator.HandleBlob | python/argos/viewer/model/blob_iterator.py:261-263 | A blob to its end |
| BlobIterator.SnapshotTick | python/argos/viewer/model/blob_handlers.py:189-203 | One sample of every tracked and known collectable |
| BlobIterator.Iterate | python/argos/viewer/model/blob_iterator.py:257-264 | Values and samples after all rows; fails exactly if the replay does |
| Retriever.FetchIsSlice | python/argos/viewer/model/blob_iterator.py:359-375 | With p rows at or before the start and q at or before the end, the two-step SQL selection is the newest heartbeat of the p rows, or all p if there are fewer, and every row after them up to the q-th; nothing if p is 0 |
| Retriever.HistoryCurrent | python/argos/viewer/model/blob_handlers.py:189-203 | What the samples say at tick t is what the viewer holds after the last row at or before t |
| Retriever.WarmedUp | python/argos/viewer/model/data_retriever.py:304-309 | After the warm-up the viewer holds the right value at every later time |
| Retriever.RangeAnswers | python/argos/viewer/model/data_retriever.py:297-329 | At every tick of the range, bisecting what UnpackRange found gives the value |
| Retriever.RangeHolds | python/argos/viewer/model/data_retriever.py:315-326 | A range holds exactly the samples of the replay that lie in it, in order, and a point exactly the newest one at or before it |
| Retriever.UnpackTicksCorrect | python/argos/viewer/model/data_retriever.py:366-394 | From the first row on, every requested tick gets the collectable's value, and exactly the ticks without one are left out |
| Retriever.UnpackTicksExact | python/argos/viewer/model/data_retriever.py:331-339 | UnpackTicks is right if and only if the first tick is not before the first row or the collectable has no value up to the last tick |
| Retriever.EarlyTickFails | python/argos/viewer/model/data_retriever.py:331-339 | The concrete query: a value at time 5, asked for at 0 and 5, and nothing comes back |
| Retriever.TooEarlyIsEmpty | python/argos/viewer/model/blob_iterator.py:359-371 | Before the first row the warm-up is empty and nothing at all comes back |
| Retriever.CheckTicks | python/argos/viewer/model/data_retriever.py:367-369 | The assertion on the requested ticks |
| Retriever.SelectRange | python/argos/viewer/model/data_retriever.py:315-326 | The range or point selection over one collectable's samples |
| Retriever.CarryEach | python/argos/viewer/model/data_retriever.py:383-390 | The last value at or before every requested tick |
| Retriever.UnpackRange | python/argos/viewer/model/data_retriever.py:297-329 | The samples of the range for every collectable |
| Retriever.UnpackTicks | python/argos/viewer/model/data_retriever.py:366-394 | The carried samples for every collectable; fails exactly on bad ticks or a failing replay |
| PipelineFlow.Conservation | include/simdb/utils/ConcurrentQueue.hpp:28-66 | In every interleaving of producers, pops and pushes, the rows followed by everything on its way are what was produced, in order, sent through all stages, any of which may drop an item |
| PipelineFlow.RowsArePrefix | examples/SimplePipeline.hpp:83-130 | The table is at all times a prefix of that sequence |
| Loads.Drains | include/simdb/pipeline/Stage.hpp:71-86 | From wherever any interleaving has led, pops and pushes alone can bring everything through, and then the table holds all that was produced, sent through the stages, in order |
| Runtime.Pipeline.ProcessOne | examples/SimplePipeline.hpp:83-95 | One item popped, transformed and passed on or dropped by the stage, in two atomic steps; for every schedule of the threads still polling before and between them the queues and hands are exactly those of the steps in that order; nothing is lost, doubled or reordered and the work left shrinks |
| Runtime.Pipeline.ProcessAll | include/simdb/pipeline/Stage.hpp:71-86 | Until its queue is empty, with the polling threads quiet; nothing is taken from any other stage |
| Runtime.Pipeline.Flush | include/simdb/pipeline/Flusher.hpp:35-55 | With all polling threads paused or joined and nothing in their hands, ends for every list of stages in every order, with all their queues empty at once; PROCEED if and only if one of them had something; nothing is taken from a stage not named; with all stages named the table holds everything, in order |
| FlushRace.QuietFlushExact | include/simdb/pipeline/Flusher.hpp:35-55 | A flush of all stages during which the polling threads take nothing leaves the table complete and in order in all interleavings if and only if nothing they had in hand would become a row |
| FlushRace.FreeFlushExact | include/simdb/pipeline/Flusher.hpp:35-55 | A flush of all stages during which they may go on taking leaves it so in all interleavings if and only if there was nothing to flush |
| FlushRace.Overtaken | include/simdb/pipeline/Flusher.hpp:35-55 | The concrete interleaving: the flusher overtakes an item in the hand of a polling thread and the rows come out in the wrong order |
| FlushRace.FlushProgresses | include/simdb/pipeline/Flusher.hpp:35-55 | In every interleaving each step of the flusher brings it nearer to its end and no step of a polling thread adds work |
| FlushRace.FlushEnds | include/simdb/pipeline/Flusher.hpp:35-55 | Whatever the polling threads do in between, the flusher is done after a number of its own steps that the state at the start bounds |
| FlushRace.FlusherFinishes | include/simdb/pipeline/Flusher.hpp:35-55 | Left alone, the flusher is done after some steps |
| Runtime.Pipeline.RunThread | include/simdb/pipeline/PollingThread.hpp:262-287 | Rounds of processOne until a round finds nothing, beside the threads still polling; with none of them, the enabled queues are empty; nothing is taken from a disabled stage, and nothing has changed if it says so |
| Runtime.Pipeline.CloseThread | include/simdb/pipeline/PollingThread.hpp:113-137 | Closing a thread: it passes on what it has in hand and runs until it finds nothing while the others poll on; it ends, nothing is lost, doubled or reordered, nothing stays in its hands, nothing is taken from a disabled stage, and the last thread closed leaves its enabled queues empty |
| Runtime.Pipeline.PostSimLoopTeardown | include/simdb/pipeline/PipelineManager.hpp:185-218 | Teardown ends in every interleaving with the threads not yet joined, and with every stage enabled and on some thread the table holds everything, in order |
| PauseHandshake.PauseIsSafe | include/simdb/pipeline/PollingThread.hpp:135-175 | In every interleaving: no runnable executes or has an item in hand while a pause is in effect, no promise is set twice, pause() returns only with the pause in effect, and only resume or close ends it |
| PauseHandshake.PauseIsAnswered | include/simdb/pipeline/PollingThread.hpp:218-239 | While pause() waits and the runnables are disabled, the polling thread always has a step without any spurious wake-up, and every step it can take brings the acknowledgement nearer |
| PauseHandshake.PauseIsAnsweredSoon | include/simdb/pipeline/PollingThread.hpp:218-254 | With the r runnables disabled, 2r + 9 steps of the polling thread are enough for the acknowledgement, whatever else happens in between and with any spurious wake-ups |
| PauseHandshake.AcknowledgedReturns | include/simdb/pipeline/PollingThread.hpp:154-156 | Once acknowledged, pause() returns with its next step |
| PauseHandshake.NobodySleepsOn | include/simdb/pipeline/PollingThread.hpp:113-133 | A thread that is neither paused nor done is not stuck in an unnotified wait between calls, and close() never joins a stuck thread |
| PauseHandshake.CallsReturn | include/simdb/pipeline/PollingThread.hpp:162-175 | resume() returns only with the pause ended and the thread open, close() only with the thread at its end and nothing in its hand |
| PauseHandshake.PollingGoesOn | include/simdb/pipeline/PollingThread.hpp:218-287 | A thread that is open, not paused and not closing, as after open() or resume(), is brought by 6r + 9 of its steps, and three more for each spurious wake-up, to any of its r runnables, which then executes if it is enabled and has an item |
| PauseCalls.CallsTakeEffect | include/simdb/pipeline/PollingThread.hpp:93-175 | In every interleaving, whenever the main thread is between calls, the thread is open, paused and enabled exactly as the calls made so far say, with every pause acknowledged and every closed thread at its end |
| PauseCalls.CallGoesOn | include/simdb/pipeline/PollingThread.hpp:113-175 | Every step of the main thread brings its call one step nearer to its return; only a mutex that is given back with the next step, a missing acknowledgement and a thread not yet done keep it from a step |
| PauseCalls.ThreadGoesOn | include/simdb/pipeline/PollingThread.hpp:218-260 | Only a mutex that is given back with the next step, a pause, a notification on its way and its end keep the polling thread from a step |
| PauseCalls.CloseIsJoinedSoon | include/simdb/pipeline/PollingThread.hpp:113-133 | While close() joins, 6r + 7 steps of a thread with r runnables, and 4r + 3 more for each item it still pops, bring it to its end whatever else happens, and close() then returns |
| PauseCalls.SleepsOutItsTime | include/simdb/pipeline/PollingThread.hpp:240-254 | The timed wait ends exactly if a pause or the stop is asked for or its time is up, and it is up only after a wait that ended unspuriously |
| PauseCalls.RunIsThorough | include/simdb/pipeline/PollingThread.hpp:262-287 | A pass looks at every runnable once; after a pass that passed on anything another one follows, the thread sleeps only after a call of run_ that passed on nothing, and ends only after a forced one of that kind |
| PauseHandshake.Reachable | include/simdb/pipeline/PollingThread.hpp:218-260 | The invariant of mutex, acknowledgement, notification, lifetime and hand holds in every reachable state |
| PausedFlush.PausedFlushIsRight | include/simdb/pipeline/PipelineManager.hpp:161-183 | Producers, any number of polling threads with their pause handshakes and a flush together: whatever happened before, once the pauses of all threads are in effect a flush of all stages comes to its end, and then the table holds exactly what arrived, sent through the stages, in order |
| PausedFlush.AllAccounted | include/simdb/pipeline/PollingThread.hpp:262-287 | In every interleaving what is in the hand of a stage is in the hand of a thread that looks at it |
| PausedFlush.PausedHandsEmpty | include/simdb/pipeline/PollingThread.hpp:146-156 | With all threads paused there is nothing in any hand |
| PausedFlush.DeedsAreSteps | include/simdb/pipeline/PollingThread.hpp:262-287 | What handshaking threads and producers do to the queues is a run of pops and pushes of the pipeline |
| PausedFlush.ThreadMovesItems | include/simdb/pipeline/Stage.hpp:71-86 | A thread that has found a stage enabled takes the oldest item in front of it, or goes on if there is none; with an item in hand it passes on what the stage makes of it; nothing else a thread does touches the queues |
| ThreadMerger.CreateThreadsAndMergeAll | include/simdb/pipeline/ThreadMerger.hpp:136-206 | Fails exactly if not one polling interval is in use; else some app needs exactly as many threads as there are and none needs more, and the stages are dealt round-robin |
| ThreadMerger.MergeCorrect | include/simdb/pipeline/ThreadMerger.hpp:136-206 | Of the returned threads, for different apps and stages: at least one, loads that differ by at most one, no stage twice; a polled stage is on exactly one thread if its pipeline is the last of its app and on none otherwise; no two stages of one app share a thread |
| ThreadMerger.PerformMerge | include/simdb/pipeline/ThreadMerger.hpp:57-117 | The whole merge: fails exactly on the interval assertion; with one pipeline an app there are as many threads as the pipeline with most polled stages has of them; every thread has exactly its dealt stages, each once, in the order of definition, and sleeps the default interval |
| ThreadMerger.WidthIsLargest | include/simdb/pipeline/ThreadMerger.hpp:163-174 | With one pipeline an app, no pipeline has more polled stages than there are threads, and one has exactly that many |
| ThreadMerger.MergedIntervalExact | include/simdb/pipeline/ThreadMerger.hpp:170-174 | Where merging succeeds, every stage is polled as often as it asked if and only if the agreed interval is the default of 100 ms |
| ThreadMerger.IntervalIsLost | include/simdb/pipeline/ThreadMerger.hpp:170-174 | The concrete input: a stage that asked for another interval is merged and polled at the default one |
| ThreadMerger.IntervalsExact | include/simdb/pipeline/ThreadMerger.hpp:149-161 | The interval assertion holds if and only if some stage is polled and all polled stages agree |
| ThreadMerger.OnlyDatabaseFails | include/simdb/pipeline/ThreadMerger.hpp:149-161 | The concrete input: a database stage alone fails it |
| ThreadMerger.DealtOnce | include/simdb/pipeline/ThreadMerger.hpp:176-199 | No stage is dealt twice |
| ThreadMerger.LoadsAreLevel | include/simdb/pipeline/ThreadMerger.hpp:176-199 | Loads differ by at most one stage |
| ThreadMerger.OneThreadEach | include/simdb/pipeline/ThreadMerger.hpp:84-98 | Every dealt stage is on exactly one thread |
| ThreadMerger.AppIsSpread | include/simdb/pipeline/ThreadMerger.hpp:163-199 | No two stages of one app's pipeline share a thread |
| ThreadMerger.ServedExactly | include/simdb/pipeline/ThreadMerger.hpp:140-147 | A stage gets a thread if and only if its pipeline is its app's last one: the earlier pipelines of an app are never polled |
| ThreadMerger.FirstPipelineUnserved | include/simdb/pipeline/ThreadMerger.hpp:140-147 | The concrete input: of two one-stage pipelines of an app only the second is dealt |
| ThreadMerger.EnsureRelativeOrder | include/simdb/pipeline/PollingThread.hpp:60-72 | The loop keeps the thread's stages in definition order |
| ThreadMerger.ReorderIsPermutation | include/simdb/pipeline/PollingThread.hpp:60-72 | Exactly the thread's stages, each once, in the order of definition |
| Transactions.Connection.SafeTransaction | include/simdb/sqlite/Transaction.hpp:133-191 | A normal return means the body took effect exactly once, anything else that it took none; the flag is down again; nested calls issue no command. It returns if the body never throws and the database answers fine, nested or not; an outermost call returns without a limit if no answer is broken, and with limit n if at most n answers are busy; it throws only if the body throws, an answer was broken or exactly n + 1 attempts were made, and makes one attempt more than busy answers |
| Transactions.Connection.ExecuteBody | include/simdb/sqlite/Transaction.hpp:152-156 | A body of any nesting depth runs inside the open transaction, and ends otherwise than by returning exactly for a throw of its own or a failing answer |
| Transactions.Connection.Attempt | include/simdb/sqlite/Transaction.hpp:164-171 | BEGIN, body and COMMIT: the file changes exactly on a normal return, which comes unless the body throws or an answer fails |
| DecimalText.Uint64ToUtf16 | include/simdb/utils/utf16.hpp:11-18 | The digit loop writes the 20 digits |
| DecimalText.Utf16ToUint64 | include/simdb/utils/utf16.hpp:27-40 | The value modulo 2^64 of 20 digits, a failed assertion on anything else |
| DecimalText.RoundTrip | include/simdb/utils/utf16.hpp:11-40 | Decoding an encoded number gives it back and the accumulator never wraps on the way |
| DecimalText.TextOrderIsNumberOrder | include/simdb/sqlite/Query.hpp:112-135 | The texts compare as the numbers do |
| SchemaRows.SchemaRoundTrip | include/simdb/sqlite/DatabaseManager.hpp:344-521 | Reading back the rows of any schema gives equal tables in order if and only if, for every table, getTableIndexes lists only names of its columns, none with a vertical bar, and is not just one empty name |
| SchemaRows.PlainNamesExact | include/simdb/schema/SchemaDef.hpp:338-362 | With column names free of separators, opening parentheses and surrounding space, getTableIndexes returns every non-empty list as it was passed in, and the indexes survive if and only if no list is empty |
| SchemaRows.EmptyIndexIsLost | include/simdb/schema/SchemaDef.hpp:286-313 | A buildable table with an index on no column would not survive in its rows; SQLite refuses the command for that index before any row is written |
| SchemaRows.BarIsLost | include/simdb/sqlite/DatabaseManager.hpp:406-427 | Every otherwise plain column name with a vertical bar, once indexed, makes a buildable table that does not survive |
| SchemaRows.BracketsAreLost | include/simdb/sqlite/DatabaseManager.hpp:406-427 | The concrete name [a|b], which SQLite takes |
| SchemaRows.TableComesBack | include/simdb/sqlite/DatabaseManager.hpp:358-430 | Reading one table succeeds with an equal table exactly if its index lists survive |
| SchemaRows.SameTableIs | include/simdb/schema/SchemaDef.hpp:392-423 | Tables are equal exactly if name, primary key, listed indexes and the name, type and default value of every column agree |
| SchemaRows.ColumnsComeBack | include/simdb/sqlite/DatabaseManager.hpp:360-388 | Columns come back in order with name, type and default value, but never UNIQUE |
| SchemaRows.WhereOwn | include/simdb/sqlite/DatabaseManager.hpp:360-361 | The query by table name finds the rows of exactly that table, in order |
| SchemaRows.IndexesComeBack | include/simdb/sqlite/DatabaseManager.hpp:406-427 | The text of the index lists reads back to them exactly if they have no bar and are not one empty name; otherwise a table with what was read has other indexes |
| SchemaText.SplitJoin | include/simdb/sqlite/DatabaseManager.hpp:457-469 | Splitting what was joined gives the list back exactly if no element holds the separator; otherwise it gives more elements |
| SchemaText.SplitConcat | include/simdb/sqlite/DatabaseManager.hpp:411-417 | Splitting two texts around a separator gives the pieces of the one, then those of the other |
| SchemaText.CommandParses | include/simdb/schema/SchemaDef.hpp:338-362 | The two parenthesis searches never fail on a CREATE INDEX command, whatever the names, and cut out its list |
| SchemaText.ListedExact | include/simdb/schema/SchemaDef.hpp:286-313 | A non-empty list passes through a command unchanged exactly if its names have no comma, no opening parenthesis and no space around them |
| SchemaText.ListedIsPlain | include/simdb/schema/SchemaDef.hpp:338-362 | What getTableIndexes returns never has a comma, an opening parenthesis or space around it |
| SchemaStore.Reopen | include/simdb/sqlite/DatabaseManager.hpp:344-521 | Writing the rows of tables built call by call and reading them into new tables gives equal tables exactly if all indexes survive |
| SchemaStore.SerializeSchema | include/simdb/sqlite/DatabaseManager.hpp:445-521 | Writes exactly the rows of the tables |
| SchemaStore.ReconstituteSchema | include/simdb/sqlite/DatabaseManager.hpp:344-431 | Builds new tables from the rows as ReadSchema says, or fails where it does |
| SchemaStore.AppendSchema | include/simdb/schema/SchemaDef.hpp:488-506 | Fails exactly if a table differs from the one of its name; keeps names distinct and the earlier tables in place, and afterwards holds an equal of every appended table |
| SchemaStore.AppendTable | include/simdb/schema/SchemaDef.hpp:490-504 | One table: new by name and appended, or compared with the one of its name; fails exactly if that one is not equal |
| SchemaStore.Table.AddColumn | include/simdb/schema/SchemaDef.hpp:215-224 | Adds a column at the end unless the name is taken or Id |
| SchemaStore.Table.EnsureUnique | include/simdb/schema/SchemaDef.hpp:143-147 | Marks the column UNIQUE unless it has a default value |
| SchemaStore.Table.CreateCompoundIndexOn | include/simdb/schema/SchemaDef.hpp:286-313 | Adds the command of one more index exactly if all names are columns |
| SchemaStore.Table.GetTableIndexes | include/simdb/schema/SchemaDef.hpp:338-362 | Parses the commands back into what is listed of each index |
| SchemaStore.Table.SetPrimaryKey | include/simdb/schema/SchemaDef.hpp:365-377 | Sets the key to a column or Id, or unsets it |
| SchemaStore.Table.Equals | include/simdb/schema/SchemaDef.hpp:392-423 | True exactly if names, keys, listed indexes and the name, type and default value of every column agree |

## Left out

- ContigDeltas.ClassifyContigChange: its result is the record it leads to instead of the classification struct, and the inline loops for ARRIVE and DEPART are calls of the prefix test they amount to.
- Checkpointer.CollectableCheckpointer.EncodeForPipeline: one class for the three checkpointer classes, which differ only in snapshot type and classifier; `max_container_size_`, which is only written to a table, is not modelled.
- Stager.PipelineStager.Run: concatenates the records where the source leaves that to the compressor, and what the later stages make of a blob is a row at once; statistics for the user interface are not modelled.
- Collector.ArgosCollector.Stage: one typed record list instead of three; a collectable has one type, so its own records keep their order.
- BlobIterator.SnapshotTick: samples are a list in row order instead of a dictionary keyed by tick; row times are distinct. The deep copy is a plain copy, since values are immutable here.
- Retriever.UnpackRange: elements are named by collectable ID instead of path, and the two parallel result lists are one list of pairs.
- Transactions.Connection.SafeTransaction: one thread at a time, as the recursive mutex has it; a rollback of an open transaction is taken to succeed; the pause between attempts is left out; without a retry limit the database is taken to stop failing eventually.
- PauseHandshake.PauseIsSafe: one polling thread and one controlling thread; all runnables of the thread are enabled or disabled together, so the several threads of one disabler, handled one after the other, are not modelled.
- Runtime.Pipeline.Flush: no producer, no aborted transaction and no asynchronous database access in between; the database thread runs the same rounds inside one transaction; every stage is on one thread, as the merge asserts.
- SchemaStore.Reopen: the CREATE statements themselves are not modelled, so nor is that SQLite may refuse a definition before its rows are written; column objects are values inside a table, typed default values are their texts.
- Several clocks: with more than one, windows in which a collectable's clock does not collect are skipped and get no refresh; the model is for one clock.
- zlib is the identity, SQLite a sequence of rows, and the SELECT statements are functions on it; file access and prepared statements are not modelled.
- Element types: a bin is a fixed number of bytes; structs, enums, strings and formatting are left out. Integers on the wire are little-endian, as both ends use the byte order of the machine.
- std::map and std::unordered_map: ascending keys for the first; for the collectables, any fixed order.
- Notifications, table dumps, app registration, loggers, timers, performance reports and the user interface: plumbing.
- `createThreadsAndMergeSpecificApps_`, which always throws before doing anything; the thread lists without merging; the database thread, which takes all database stages and is added behind the merged threads.
- TinyStrings numbers the strings of string-typed elements and writes the numbering to a table at teardown; CircularBuffer is a fixed ring that overwrites its oldest element, ValidValue a value with a validity flag, RunningMean a mean in floating point. Nothing modelled here reads the first two or the last, and a ValidValue is an Option.
