# Baton, verified

Baton is a durable job queue: a single-threaded server keeps jobs in memory, logs every
change as a record before a client hears about it, and rebuilds its state from snapshots
and the log after a crash. This project models the parts of it that are hard to get right
and proves what they promise. `dafny verify dfyconfig.toml` checks everything.

The main results, each for all inputs or all runs:

- **Timing wheel** (`WheelTime`, `Slab`, `TimingWheel`). The hierarchical wheel over a slab
  of linked nodes refines a map of timers; `advance` fires exactly what is due, in order;
  `next_wakeup` is the first tick at which anything happens.
- **Durable log** (`LogFormat`, `LogRecovery`, `LogDamage`, `LogReport`, `SimFs`, `LogDisk`,
  `LogWriter`, `LogProgress`). The two-thread group-commit writer is a step system over a file
  system that loses, keeps or tears unsynced data. Over any run with any number of crashes,
  nothing acknowledged is lost, and recovery delivers an exact prefix; damage with a record of
  the log behind it is refused and touches no file; the writer is never stuck before
  everything is committed and rolls exactly at the segment size.
- **Snapshots and compaction** (`SnapshotStore`, `StoreRuns`, `StoreProgress`, `Images`,
  `ChunkSizes`, `MetaSizes`, `SnapshotFile`, `SnapshotDamage`, `SnapshotRuns`, `JobStore`). Log
  thread, snapshot thread, compaction, crashes and restarts are one step system over that file
  system. Nothing acknowledged is lost in any interleaving, a finished compaction leaves exactly
  what is to be kept, a file is complete or rejected, and a server that crashed anywhere comes
  back with the state it had.
- **Jobs** (`Jobs`, `JobRuns`, `JobHistory`, `KeyHistory`, `JobFacts`, `LeaseModel`, `ReadyHeap`,
  `JobIndex`, `State`, `Restart`, `Engine`). Replay equivalence; every field of every job told
  from the log alone, and which logs are accepted; exact retention and idempotency windows;
  every invariant of `check_invariants()` under every record, tick, rebuild and collection;
  at-most-once completion; exact scheduling; a log checker that is silent if and only if
  nothing is wrong with the log.
- **Server** (`ReplyGate`, `Waiters`). No reply before durability and none held back after it;
  after every command and tick nobody waits on a queue with a ready job; exactly the waits that
  are over time out.
- **Codecs** (`Crc32c`, `CrcErrors`, `Codec`, `RecordCodec`, `WireFormat`, `Resp`,
  `RespGrammar`). Slicing-by-8 equals the definition and sees every burst of four bytes; round
  trips and layouts; parsing that does not depend on chunking and takes exactly the well-formed
  requests within the limits.
- **End to end** (`EndToEnd`, `JobStore`). A released ENQUEUE reply names a job every later
  recovery knows, also with snapshots and compaction.

Where the code has a form of its own, so does the model: objects that are updated in place
are classes, loops are loops with invariants, and each is proved against a function or
predicate that the lemmas are about.

## What turned out not to hold

- `backoff_ceiling` is not `min(cap, base * 2^(attempts - 1))` for base 0 and a positive cap
  from the 33rd attempt on; `Engines.BackoffIsCapped` gives the exact condition.
- A loaded snapshot has its idempotency keys sorted by expiry, so it is the captured state if
  and only if they were in order: `SnapshotRuns.SameStateIffInOrder`. They always are while
  the wall clock does not go back (`SnapshotRuns.RunKeysInOrder`);
  `SnapshotRuns.ClockSetBackDisorders` is a history that leaves them out of order.
- A jobs chunk can exceed the record limit, which `append_record` refuses with a failed check.
  Every chunk of every list of jobs fits if and only if payloads are limited to at most
  58,420,827 bytes (`ChunkSizes.PayloadLimitIsExact`); the option parser accepts up to 64 MiB
  (`ChunkSizes.LargestPayloadsDoNotFit`).
- The meta chunk can exceed the record limit too: it fits for every image with up to n queues if
  and only if n is at most 373,190 (`MetaSizes.QueueLimitIsExact`), and the number of queues is
  not bounded. With 497,589 queues of the longest name it never fits
  (`MetaSizes.LongNamesDoNotFit`). Queues are never erased, so from then on no snapshot is ever
  written again (`SnapshotRuns.NeverWrittenAgain`), and one ENQUEUE to each queue leads there
  (`SnapshotRuns.QueuesOutgrowSnapshots`). Within the limits every snapshot of an Engine is
  written and loads (`SnapshotRuns.WrittenIsTheState`).
- A list piece of an image need not be a count and that many entries: without a readable count
  it passes for an empty one, and this is the only exception (`Images.AcceptedIsCounted`). The
  totals of the end chunk always equal what was loaded
  (`SnapshotFiles.TotalsAreTheContents`), but they do not catch a missing count of nothing
  (`SnapshotFiles.UnreadableCountLoads`).
- A refused recovery can change a file: exactly if the newest segment ends in damage that no
  record follows, before the LSN of the snapshot. It is then cut before the refusal
  (`LogRecovery.Recovery.RefusalKeepsFiles`, `LogRecovery.ShortLogIsCut`).
- A second recovery can end differently: exactly if the first removed a torn newest segment
  that the snapshot made the only one needed, and the segment before it does not end exactly
  at the snapshot (`LogRecovery.Recovery.RecoverAgain`, `LogRecovery.OlderIsUncovered`).

## Model

| member | source | states |
|---|---|---|
| `WheelTime.SlotDeadlineIsNextIndex` | src/sched/timing_wheel.cpp:144-147 | the tick computed for a slot is the first multiple of the slot width after now whose digit on that level is the slot, so the next-rotation case is handled exactly |
| `WheelTime.TargetIsAhead` | src/sched/timing_wheel.cpp:87-88 | a deadline a span or more away is parked on the top level one slot behind the current position, ahead of now and never after the deadline |
| `WheelTime.ChooseIsPlaced` | src/sched/timing_wheel.cpp:90-94 | the level from the highest differing bits and the slot from the target digits put the timer where it belongs |
| `WheelTime.PlacedNotLate` | src/sched/timing_wheel.cpp:66-94 | a slot never comes up after the deadline of a timer in it, and on level 0 exactly at it |
| `WheelTime.PlacedStays` | src/sched/timing_wheel.cpp:130-154 | until a slot comes up, passing time changes neither its tick nor that its timers belong there |
| `WheelTime.NoTies` | src/sched/timing_wheel.cpp:149-151 | two different occupied slots, on any levels, never come up at the same tick |
| `WheelTime.CascadeLeavesSlot` | src/sched/timing_wheel.cpp:168-181 | a timer re-placed when its slot comes up never returns to that slot; below the top level it moves to a lower level |
| `Slab.PartitionLink` | src/sched/timing_wheel.cpp:43-51 | linking a loose node keeps the partition of the slab into slot lists, due list, free list and loose nodes, with consistent prev and next |
| `Slab.PartitionUnlink` | src/sched/timing_wheel.cpp:53-64 | unlinking takes exactly that node out of its list and keeps the partition |
| `Slab.PartitionRelease` | src/sched/timing_wheel.cpp:34-41 | releasing puts a loose node at the head of the free list under a new generation |
| `Slab.PartitionTake` | src/sched/timing_wheel.cpp:24-28 | taking the head of the free list keeps the partition |
| `Slab.PartitionGrow` | src/sched/timing_wheel.cpp:29-31 | growing the slab by one node keeps the partition |
| `Slab.PartitionDetach` | src/sched/timing_wheel.cpp:171-174 | detaching a whole slot leaves its nodes loose and still walkable |
| `TimingWheels.TimingWheel.constructor` | src/sched/timing_wheel.cpp:19-19 | an empty wheel at the given tick |
| `TimingWheels.TimingWheel.Allocate` | src/sched/timing_wheel.cpp:23-32 | a free node, from the free list or by growing the slab by one |
| `TimingWheels.TimingWheel.Link` | src/sched/timing_wheel.cpp:43-51 | the node becomes the head of the list, and the bitmap matches the non-empty lists |
| `TimingWheels.TimingWheel.Unlink` | src/sched/timing_wheel.cpp:53-64 | the node leaves its list, no timer changes, and the bitmap matches |
| `TimingWheels.TimingWheel.Place` | src/sched/timing_wheel.cpp:81-95 | the node goes to the list its deadline and the time call for, and no other node moves |
| `TimingWheels.TimingWheel.Schedule` | src/sched/timing_wheel.cpp:99-108 | refines a map of timers: exactly one timer is added, under a handle that was never valid before |
| `TimingWheels.TimingWheel.Cancel` | src/sched/timing_wheel.cpp:110-118 | removes exactly the timer the handle names and says whether there was one; a stale handle changes nothing at all |
| `TimingWheels.TimingWheel.NextExpiration` | src/sched/timing_wheel.cpp:130-154 | the occupied slot that comes up first over all levels, and its tick |
| `TimingWheels.NearestComesFirst` | src/sched/timing_wheel.cpp:136-142 | the rotate-and-count scan of a level finds the slot of that level that comes up first |
| `TimingWheels.TimingWheel.FireDue` | src/sched/timing_wheel.cpp:157-161 | everything on the due list fires, each once, and the list is empty; with nothing due no node changes |
| `TimingWheels.TimingWheel.SettleOne` | src/sched/timing_wheel.cpp:175-183 | a timer of the slot fires if this tick is its deadline and otherwise moves to another slot |
| `TimingWheels.TimingWheel.ProcessSlot` | src/sched/timing_wheel.cpp:164-184 | time strictly grows to the tick of the slot that comes up first, exactly the timers with that deadline fire, and the slot is empty afterwards |
| `TimingWheels.TimingWheel.Advance` | src/sched/timing_wheel.cpp:156-186 | fires exactly the pending timers with deadline up to now, each once, in non-decreasing order of max(deadline, time at call); all others stay pending; fired and cancelled handles are dead; up to the tick next_wakeup() names nothing fires and no node changes its list, and at that tick a timer fires or moves |
| `TimingWheels.TimingWheel.NextWakeup` | src/sched/timing_wheel.cpp:188-192 | none exactly if no timer is pending; later than now exactly if nothing is due; never after the earliest deadline; before that tick the wheel rests and at it it does not, and if the earliest deadline shares all digits above the lowest with now it is that deadline |
| `TimingWheels.TimePasses` | src/sched/timing_wheel.cpp:164-166 | while time stays below every occupied slot's tick, every node stays where it belongs |
| `LogFormat.Format.ParseIsEncode` | src/log/format.cpp:84-134 | parsing gives a record if and only if the data starts with that record's encoding, for every checksum function |
| `LogFormat.Format.ParseCutShort` | src/log/format.cpp:101-134 | every proper non-empty prefix of a record is recognized as truncated |
| `LogFormat.Format.HeaderRoundTrip` | src/log/format.cpp:45-82 | a segment header reads back, whatever follows it |
| `WireFormat.RecordLayout` | src/log/format.cpp:84-99 | where length, checksum, type, LSN and payload of a record stand, and that the checksum covers all but itself |
| `WireFormat.SegmentLayout` | src/log/format.cpp:45-54 | the 32 bytes of a segment header |
| `LogFormat.Format.EncodeAllAppend` | src/log/format.cpp:84-99 | encoding is a homomorphism from record sequences to bytes |
| `LogRecovery.Recovery.ValidRecordFollows` | src/log/recovery.cpp:30-45 | true exactly if some offset holds a record that parses, with an LSN from the next one on and not so far ahead that the records in between would not have fitted; filtering candidates by their header loses none |
| `LogRecovery.FirstNeededIsLast` | src/log/recovery.cpp:69-78 | the scan starts at the last segment that begins at or before the first LSN needed |
| `LogRecovery.Recovery.ScanSegment` | src/log/recovery.cpp:126-159 | the record loop computes the recursive scan |
| `LogRecovery.Recovery.RecoverSegment` | src/log/recovery.cpp:80-162 | one segment: name, header and torn-creation checks, the scan, and the truncation or removal it leads to |
| `LogRecovery.Recovery.RecoverLog` | src/log/recovery.cpp:61-172 | the loops compute Recover: result, delivered records and the repaired directory; LogDamage and LogReport say what that means on damaged files |
| `LogDamage.DamageIsRefused` | src/log/recovery.cpp:30-172 | a newest segment made of records, bytes that are no record, and any later record of the same log is refused and no file changes, whatever the older segments and the snapshot are |
| `LogDamage.DamagedHeaderIsRefused` | src/log/recovery.cpp:96-124 | so is a newest segment whose header is damaged but which still holds a record |
| `LogDamage.OlderDamageIsRefused` | src/log/recovery.cpp:126-146 | and any older segment that recovery reads and that does not end cleanly, whatever follows |
| `LogReport.ReportIsRight` | src/log/recovery.cpp:61-172 | what a successful recovery reports is true of the files it leaves: the segments in order with their sizes, the last LSN, the bytes cut off and the segment removed |
| `LogRecovery.Recovery.RecoverInSequence` | src/log/recovery.cpp:61-172 | on arbitrary bytes, success means that exactly the LSNs after the snapshot up to the last one were delivered, in order |
| `LogRecovery.Recovery.RefusalKeepsFiles` | src/log/recovery.cpp:61-172 | for every replay_after and directory: a refused recovery changes a file if and only if the newest segment is whole up to damage that no record follows and ends before the snapshot, and then the change is that cut |
| `LogRecovery.ShortLogIsCut` | src/log/recovery.cpp:139-170 | the input that shows it: a snapshot at 5, one segment of a header and a stray byte: refused, and the byte is gone |
| `LogRecovery.Recovery.ScanOfCut` | src/log/recovery.cpp:139-146 | cutting a file where its scan stopped makes the same scan end cleanly there |
| `LogRecovery.Recovery.RecoverAgain` | src/log/recovery.cpp:61-172 | for every replay_after: a second recovery repairs nothing and delivers the same records if and only if the first did not remove a torn newest segment that alone was needed, or the segment before it ends exactly where the snapshot does |
| `LogRecovery.OlderIsUncovered` | src/log/recovery.cpp:69-118 | the input that shows it: a snapshot at 5, a short segment 1 and an empty segment 3: recovered once, refused the second time |
| `SimFs.Fs.TornCoversAll` | src/testing/sim_fs.cpp:289-329 | losing or keeping all unsynced bytes are special cases of tearing them, so the torn mode covers every crash mode |
| `SimFs.Fs.CreateIsValid` | src/testing/sim_fs.cpp:82-105 | creating a file keeps current entries equal to durable ones plus pending changes |
| `SimFs.Fs.SyncDirIsValid` | src/testing/sim_fs.cpp:193-202 | a directory sync makes the current entries the durable ones |
| `LogDisk.ScanTorn` | src/log/recovery.cpp:126-159 | scanning a torn segment delivers a prefix of its records that includes the synced ones |
| `LogDisk.RecoverTorn` | src/log/recovery.cpp:61-172 | recovery of a torn log, if it succeeds, delivers a prefix that includes everything safe and leaves an intact log of exactly that prefix |
| `LogDisk.TornSucceeds` | src/log/recovery.cpp:131-146 | recovery of a torn log succeeds if and only if the torn bytes of the newest segment hold no plausible record |
| `LogDisk.RecoverIntact` | src/log/recovery.cpp:61-172 | an intact log is read to its end, left as it is, and exactly the records after the snapshot are delivered |
| `LogDisk.SkimRecover` | src/log/recovery.cpp:61-172 | on any segments, damaged or not, recovery after a snapshot ends as recovery of everything does, with the same files, the same outcome and the records after the snapshot, except that it also refuses a log that ends before the snapshot |
| `LogDisk.RecoverTornAfter` | src/log/recovery.cpp:61-172 | recovery of a torn log after a snapshot within its safe part succeeds if and only if the torn bytes hold no plausible record, delivers exactly the records after the snapshot, and leaves an intact log of a prefix that includes everything safe |
| `LogWriter.OwnerStep` | src/log/log_writer.cpp:83-109 | append() and flush() keep the invariant |
| `LogWriter.StartStep` | src/log/log_writer.cpp:164-172 | rolling: the full segment is synced first and the new one gets a new name |
| `LogWriter.ListStep` | src/log/log_writer.cpp:65-81 | a new segment joins the log only with the directory sync |
| `LogWriter.WriteStep` | src/log/log_writer.cpp:174-175 | a batch reaches the active segment, possibly unsynced |
| `LogWriter.SyncStep` | src/log/log_writer.cpp:190-199 | after fdatasync everything written is durable |
| `LogWriter.CommitStep` | src/log/log_writer.cpp:178-187 | committed_lsn is stored only for what is synced |
| `LogWriter.CrashStep` | src/testing/sim_fs.cpp:289-329 | a crash after any operation, in any mode, leaves a torn log that holds everything committed |
| `LogWriter.ReopenStep` | src/log/log_writer.cpp:56-61 | a writer opened on what recovery repaired starts out right |
| `LogWriter.StepIsSafe` | src/log/log_writer.cpp:65-199 | every step of owner, log thread, crash and reopen keeps the invariant and never loses or replaces an acknowledged record |
| `LogWriter.NoGarbageIsHonest` | src/testing/sim_fs.cpp:289-329 | the hypothesis about garbage is empty for crashes that leave none |
| `LogWriter.AcknowledgedForever` | src/log/log_writer.cpp:164-188 | over any run with any number of crashes, what was acknowledged stays a prefix of all that is acknowledged later |
| `LogWriter.RecoveryIsExact` | src/log/recovery.cpp:61-172 | after any run, recovery delivers an exact prefix of the appended records that reaches committed_lsn, and succeeds if and only if the torn bytes hold no plausible record |
| `LogProgress.RollsExactly` | src/log/log_writer.cpp:164-172 | in every run a segment that has reached the segment size is never written to again, and a new one is created only if there is none or the newest has reached it |
| `LogProgress.EverythingGetsCommitted` | src/log/log_writer.cpp:95-199 | from every state of every run in which the server is up, owner and log thread can go on, without new records, so that everything appended is committed: no step is ever stuck |
| `SnapshotStore.PickSnapshot` | src/snapshot/recovery.cpp:17-34 | the newest snapshot that loads, or the empty state |
| `SnapshotStore.RecoverState` | src/snapshot/recovery.cpp:12-57 | the state of the newest readable snapshot with the log after it replayed, or the refusal of the log; what a record that does not fit does is the replay of the machine (JobStore: it gives up) |
| `SnapshotStore.TailOfTorn` | src/log/recovery.cpp:61-172 | from any snapshot at or above the floor, recovery of the directory a crash left succeeds if and only if the newest segment ends in no plausible record, whichever older segments are still there, and leaves an intact log that reaches everything safe |
| `SnapshotStore.RebuildsEverything` | src/snapshot/recovery.cpp:12-57 | recover_state() on the directory a crash left succeeds if and only if the torn bytes of the newest segment hold no plausible record, and then gives a right state of a prefix of the records that includes everything safe, also if the newest snapshot is unreadable |
| `StoreRuns.WriteBatchStep` | src/log/log_writer.cpp:164-188 | appending a batch keeps every directory a crash could leave recoverable, whatever snapshot and compaction are doing |
| `StoreRuns.SyncBatchStep` | src/log/log_writer.cpp:190-199 | after the sync every written record is safe in every directory a crash could leave |
| `StoreRuns.CreateSegmentStep` | src/log/log_writer.cpp:65-81 | a segment under construction, surviving or not, changes nothing that recovery relies on |
| `StoreRuns.SyncSegmentStep` | src/log/log_writer.cpp:65-81 | the directory sync makes the new segment the newest of the log in every directory a crash could leave |
| `StoreRuns.RenameStep` | src/snapshot/snapshot.cpp:178-187 | the rename of a complete, synced temporary file keeps every directory a crash could leave good |
| `StoreRuns.StartCompactionStep` | src/snapshot/snapshot.cpp:302-308 | with the snapshots listed, all but the two newest are dispensable and the older of the two may become the floor |
| `StoreRuns.ListSegmentsStep` | src/snapshot/snapshot.cpp:310-328 | with the segments listed later, after removals that a crash may still undo and whatever the log did meanwhile, those before the first one the older snapshot needs are dispensable in every directory a crash could leave; a segment under construction that the listing shows is never among them |
| `StoreRuns.ObsoleteIsBeforeNeeded` | src/snapshot/snapshot.cpp:310-327 | the segments compact() may delete are exactly those before the first one still needed |
| `StoreRuns.CrashStep` | src/testing/sim_fs.cpp:289-329 | a crash that keeps any subset of the unsynced renames, links and unlinks and tears any unsynced file leaves a directory from which everything committed can be recovered |
| `StoreRuns.Mending` | src/log/recovery.cpp:61-172 | recovery from any snapshot it may pick leaves an intact log of a prefix that includes everything safe, under the same snapshots |
| `StoreRuns.StepIsSafe` | src/server/server.cpp:575-580 | every step of group commit, segment creation, snapshot, compaction, crash, crash during recovery and restart, in any interleaving, keeps the invariant, and what is acknowledged stays a prefix of what is acknowledged afterwards; that a snapshot is never ahead of the durable log follows from the gate on the committed LSN |
| `StoreRuns.AcknowledgedForever` | src/log/log_writer.cpp:164-188 | over any run with snapshots, compactions and any number of crashes, what was acknowledged stays, as a prefix, in everything acknowledged later |
| `StoreProgress.CompactionLeaves` | src/snapshot/snapshot.cpp:302-334 | in every run, once a compaction has finished, the snapshots are exactly the two newest it found, and of the segments it found exactly those are gone whose records the older of the two covers, for good, whatever the log thread did meanwhile |
| `StoreProgress.SnapshotGetsWritten` | src/snapshot/snapshot.cpp:164-195 | a wanted snapshot that is committed can be written, also over a stale temporary file: it ends up under its name, whole, synced and in a synced directory |
| `StoreRuns.CrashTransparent` | src/snapshot/snapshot.cpp:302-334 | after any such run recover_state() succeeds if and only if the torn bytes hold no plausible record, and gives a right state of a prefix that includes everything committed, for any machine whose replay is right from the start and from every snapshot |
| `StoreRuns.RecoveryIsAStep` | src/snapshot/recovery.cpp:12-57 | the snapshot recover_state() picks and the log it accepts are ones the restart step of the system starts from, so runs may go on after it |
| `Images.CaptureDescribes` | src/state/state.cpp:448-482 | a captured image says everything there is to say about the durable state, in any hash-table order |
| `Images.CaptureIsEncodable` | src/state/state.cpp:448-482 | the image of a sound state is one the builder accepts |
| `Images.MetaRoundTrip` | src/state/image.cpp:58-143 | the meta piece restores counters, queues and totals |
| `Images.JobsRoundTrip` | src/state/image.cpp:74-209 | any run of the jobs, encoded as a piece and read in its place, adds exactly those jobs |
| `Images.KeysRoundTrip` | src/state/image.cpp:98-229 | any run of the keys, encoded as a piece and read in its place, adds exactly those keys |
| `Images.FinishRoundTrip` | src/state/image.cpp:231-237 | building ends in the state the image describes, with its keys sorted by expiry |
| `WireFormat.JobRow` | src/state/image.cpp:74-96 | the bytes of a job in a snapshot, field by field, and the code of each state |
| `WireFormat.OtherRows` | src/state/image.cpp:58-109 | the bytes of a queue and of a key in a snapshot |
| `Images.ByExpirySorts` | src/state/image.cpp:233-235 | the final sort orders by expiry, loses nothing and is stable |
| `Images.InOrderStays` | src/state/image.cpp:233-235 | keys already in order stay as they are |
| `Images.StateBuilder.TakeAll` | src/state/image.cpp:152-206 | the entry loop computes AddAll: each entry is checked before the next is read |
| `Images.StateBuilder.TakeMeta` | src/state/image.cpp:115-143 | the meta piece is taken or refused as AddMeta says |
| `Images.StateBuilder.TakeList` | src/state/image.cpp:145-229 | a piece of jobs or keys is taken or refused as AddList says |
| `Images.AddListKeepsOk` | src/state/image.cpp:145-229 | from arbitrary bytes, nothing is added that breaks id, queue, token, attempt or key consistency |
| `Images.FinishKeepsOk` | src/state/image.cpp:231-237 | the finished state is consistent and its keys are in order |
| `Images.UnreadableCountPasses` | src/state/image.cpp:149-208 | a list piece without a readable count is accepted and adds nothing |
| `Images.AcceptedIsCounted` | src/state/image.cpp:145-229 | an accepted list piece is a count and exactly that many entries if and only if its count can be read; then it adds that many, and otherwise nothing |
| `SnapshotFiles.HeaderRoundTrip` | src/snapshot/snapshot.cpp:43-53 | the 40-byte header is accepted under its own LSN, whatever follows |
| `WireFormat.SnapshotLayout` | src/snapshot/snapshot.cpp:43-53 | the 40 bytes of a snapshot header |
| `SnapshotFiles.NoProperPrefixLoads` | src/snapshot/snapshot.cpp:197-290 | of any bytes that load, no proper prefix loads under any name |
| `SnapshotFiles.NoExtensionLoads` | src/snapshot/snapshot.cpp:261-264 | no extension of bytes that load loads |
| `SnapshotDamage.LoadsIff` | src/snapshot/snapshot.cpp:197-290 | a file loads as a state if and only if its header is intact and has the LSN in the name, and the rest is the chunks that build the state, numbered from one, and one end chunk with their totals |
| `SnapshotDamage.OneName` | tests/unit/snapshot/snapshot_test.cpp:260-264 | a file loads under one name only |
| `SnapshotDamage.RearrangedIsRefused` | tests/unit/snapshot/snapshot_test.cpp:205-228 | leaving out, repeating or moving records of a file that loads gives one that does not, whatever header and name it gets |
| `SnapshotDamage.FlippedByteIsRefused` | tests/unit/snapshot/snapshot_test.cpp:148-156 | with CRC32C, changing any one byte of a file that loads, except in the length of a chunk, gives a file that does not load |
| `SnapshotFiles.LoadedIsChecked` | src/snapshot/snapshot.cpp:228-290 | whatever bytes load give a state whose jobs, queues, tokens and keys fit together |
| `SnapshotFiles.TotalsAreTheContents` | src/snapshot/snapshot.cpp:252-265 | whatever bytes load, the totals in the end chunk are the number of chunks, of jobs and of keys of the loaded state |
| `SnapshotFiles.UnreadableCountLoads` | src/snapshot/snapshot.cpp:228-290 | the totals do not catch a missing count of nothing: a file with such a jobs chunk loads |
| `SnapshotFiles.LoadsThrough` | src/snapshot/snapshot.cpp:231-289 | loading goes through framed chunks one by one, in sequence |
| `SnapshotFiles.SnapshotRoundTrip` | src/snapshot/snapshot.cpp:164-290 | what was written loads again for every split into chunks: the described state, keys in order of expiry |
| `ChunkSizes.ChunkEndMeans` | src/snapshot/snapshot.cpp:89-95 | a jobs chunk has at most 4096 jobs, all but its last weigh less than 4 MiB, and unless it has the last job it has 4096 or weighs 4 MiB |
| `SnapshotFiles.KeySizesFill` | src/snapshot/snapshot.cpp:102-108 | every chunk of keys has 4096, but for the last, which is not empty |
| `ChunkSizes.JobsChunkFits` | src/snapshot/snapshot.cpp:88-100 | with payloads up to 58,420,827 bytes every jobs chunk fits into a record |
| `ChunkSizes.PayloadLimitIsExact` | src/snapshot/snapshot.cpp:88-100 | every chunk of every list of job images with payloads up to a cap fits if and only if the cap is at most 58,420,827 bytes |
| `ChunkSizes.LargestPayloadsDoNotFit` | src/server/config.cpp:147-150 | with the 64 MiB the option parser accepts, a chunk of a payload of 64 KiB to 4 MiB and one of 64 MiB exceeds the record limit |
| `MetaSizes.MetaFits` | src/snapshot/snapshot.cpp:83-86 | with up to 373,190 queues the meta chunk fits into a record |
| `MetaSizes.QueueLimitIsExact` | src/snapshot/snapshot.cpp:83-86 | the meta chunk of every image with up to n queues fits into a record if and only if n is at most 373,190 |
| `MetaSizes.LongNamesDoNotFit` | src/snapshot/snapshot.cpp:83-86 | with 497,589 queues of the longest name the meta chunk never fits, whatever the counters and other queues |
| `SnapshotFiles.EveryChunkFits` | src/snapshot/snapshot.cpp:83-117 | every chunk of an image fits into a record if payloads and the number of queues stay within their exact limits and names, keys and messages within the limits the server enforces |
| `SnapshotFiles.ChunkWriter.Add` | src/snapshot/snapshot.cpp:60-63 | the next chunk, framed and numbered, follows what was written, flushed or not |
| `SnapshotFiles.ChunkWriter.Flush` | src/snapshot/snapshot.cpp:65-70 | the buffer moves to the file; what was written stays the same |
| `SnapshotFiles.PickEnd` | src/snapshot/snapshot.cpp:89-95 | the loop stops where the chunk rule says |
| `SnapshotFiles.WriteJobs` | src/snapshot/snapshot.cpp:88-100 | the jobs are written in the chunks the rule makes, none left out; the process ends exactly if one of them does not fit into a record |
| `SnapshotFiles.WriteKeys` | src/snapshot/snapshot.cpp:102-108 | the keys are written in chunks of 4096; the process ends exactly if one of them does not fit |
| `SnapshotFiles.WriteChunks` | src/snapshot/snapshot.cpp:83-117 | meta, jobs, keys and the end chunk with the totals, in sequence; the process ends exactly if a chunk does not fit |
| `SnapshotFiles.WriteSnapshot` | src/snapshot/snapshot.cpp:164-195 | a file is written if and only if every chunk fits into a record, always so within the limits; its bytes are the specified file, and they load back |
| `SnapshotFiles.ChunkReader.Read` | src/common/fs.h:48-49 | a read may give any number of bytes up to the maximum, and none only at the end |
| `SnapshotFiles.ChunkReader.Ensure` | src/snapshot/snapshot.cpp:124-135 | n bytes become available exactly if the file still has them, and nothing is lost or repeated |
| `SnapshotFiles.NextChunk` | src/snapshot/snapshot.cpp:232-245 | the next record through the window is the one parsing the whole rest would give |
| `SnapshotFiles.LoadFile` | src/snapshot/snapshot.cpp:197-290 | the loading loop equals the specification for every sequence of read sizes |
| `SnapshotRuns.RunKeysInOrder` | src/state/state.cpp:183-203 | with one window and a clock that does not go back, keys are in order of expiry |
| `SnapshotRuns.RunIsStorable` | src/state/state.cpp:448-482 | every state of an Engine run within the field widths can be stored |
| `SnapshotRuns.SnapshotIsTheState` | src/snapshot/snapshot.cpp:164-290 | a snapshot file of a running Engine loads as the very state it was taken of |
| `SnapshotRuns.RestartFromSnapshot` | src/snapshot/recovery.cpp:12-57 | loading a snapshot file taken anywhere in a run and replaying the later records ends where the live state does |
| `SnapshotRuns.SameStateIffInOrder` | src/state/image.cpp:231-237 | in general a snapshot restores the same state if and only if its keys are in order of expiry |
| `SnapshotRuns.ClockSetBackDisorders` | src/state/state.cpp:183-203 | two accepted ENQUEUEs, the second under a clock set back, leave the keys out of order |
| `SnapshotRuns.RunIsWritable` | src/snapshot/snapshot.cpp:83-117 | whatever an Engine with payloads, keys and errors within the limits has been through, its image can be written as long as it has at most 373,190 queues |
| `SnapshotRuns.WrittenIsTheState` | src/snapshot/snapshot.cpp:164-290 | and then the file is written and loads as the very state, with nothing assumed about the chunks |
| `SnapshotRuns.QueuesStay` | src/state/state.cpp:213-241 | queues are never erased, by no record and no collection |
| `SnapshotRuns.NeverWrittenAgain` | src/log/format.cpp:84-86 | once a run has had 497,589 queues with the longest names, no snapshot of it can ever be written again |
| `SnapshotRuns.QueuesOutgrowSnapshots` | src/log/format.cpp:84-86 | an Engine gets there: one ENQUEUE to each of that many queues is an accepted history, and every continuation of it has no snapshot |
| `Jobs.ApplyKeepsSound` | src/state/state.cpp:209-337 | every accepted record keeps ids, counters, tokens, attempts and queues consistent |
| `Jobs.CollectKeepsSound` | src/state/state.cpp:421-437 | so does garbage collection |
| `Jobs.DropExpiredSplits` | src/state/state.cpp:436-436 | collection drops the longest expired prefix of the keys |
| `JobRuns.TrailsApply` | src/state/state.cpp:209-337 | simulation step: a record the live state accepts is accepted by the replayed one with the same effect |
| `JobRuns.TrailsCollect` | src/state/state.cpp:421-437 | simulation step: collecting moves only entries past retention out of the live state |
| `JobRuns.ReplayEquivalence` | src/state/state.cpp:209-381 | from the start or any captured image, no record of an Engine run is refused on replay, and ending replay at T gives what the live state becomes when it collects at T |
| `JobHistory.LogTells` | src/state/state.cpp:205-337 | after every accepted log each field of each job is told by the log alone: run time by the latest enqueue, retry or revival, attempts by the leases since they started over, error, token, lease end and finish time by the latest record on each, and so are queue totals, keys and both counters |
| `JobHistory.AcceptedIff` | src/state/state.cpp:205-337 | a log is accepted if and only if each record follows from those before it, said without a state |
| `JobHistory.RunTells` | src/state/state.cpp:205-437 | the same of the live state of any Engine run, with collections in between |
| `JobHistory.RunKeeps` | src/state/state.cpp:421-437 | in any Engine run a job is there if and only if it was enqueued, not purged, and no collection came at or after the end of its retention |
| `KeyHistory.RunRemembers` | src/state/state.cpp:421-437 | in any Engine run a key has exactly the entry of the last job enqueued under it, until the first collection at or after its expiry |
| `KeyHistory.KeyAnswers` | src/state/engine.cpp:114-120 | a key answers with a job exactly if that is the last one enqueued under it and the window is not over, whatever was collected |
| `JobRuns.ReplayAfterTick` | src/state/engine.cpp:72-85 | after a tick at T the live state itself is what a replay ending at T gives |
| `JobRuns.RestartContinues` | src/state/state.cpp:341-381 | a restart is one more event of the same run |
| `JobFacts.OneSuccess` | src/state/engine.cpp:206-218 | at most one JobSucceeded record per job id in any Engine log |
| `JobFacts.SucceededIsLogged` | src/state/state.cpp:274-279 | a succeeded job carries the token of the record that completed it |
| `JobFacts.OneToken` | src/state/engine.cpp:206-218 | only one token can have completed a job |
| `JobFacts.KeysApart` | src/state/engine.cpp:114-120 | two JobEnqueued records with the same key are at least the idempotency window apart |
| `JobFacts.PendingCanRun` | src/state/engine.cpp:321-344 | a pending job always has an attempt left |
| `LeaseModels.LeaseModel.StartFrom` | src/check/lease_model.cpp:10-19 | the checker knows exactly what the image says, in whatever order it lists the jobs |
| `LeaseModels.LeaseModel.CheckCurrent` | src/check/lease_model.cpp:35-50 | objects exactly if the lease is unknown or the token is not current |
| `LeaseModels.LeaseModel.On` | src/check/lease_model.cpp:52-115 | what the checker learns and objects to, record by record; SilentIffRight says on the log what that comes to |
| `LeaseModels.LeaseModel.Feed` | src/check/lease_model.cpp:21-24 | record after record: afterwards the checker knows and has reported what the whole sequence comes to |
| `LeaseModels.SilentIffRight` | src/check/lease_model.cpp:52-115 | on arbitrary records: nothing is reported if and only if ids and tokens only grow, no job has two leases or is retried or purged under one, whoever extends or ends a lease holds it, and none is ended as expired before its last announced end |
| `LeaseModels.DoubleCompletionIsSeen` | tests/unit/check/lease_model_test.cpp:163-172 | a second completion of a lease is reported, wherever it is |
| `LeaseModels.LostEndIsSeen` | tests/unit/check/lease_model_test.cpp:113-140 | a log that has lost the end of a lease is reported as soon as the job is leased again |
| `LeaseModels.SameVerdictFromImage` | tests/unit/check/lease_model_test.cpp:103-111 | fed on from an image after any accepted records the checker reports what it would have reported fed from the start |
| `LeaseModels.CheckerAgrees` | src/check/lease_model.cpp:52-115 | whatever apply() accepts, the checker objects at most to an early expiry, and it then knows what the new state says |
| `LeaseModels.AcceptedIsConsistent` | src/check/lease_model.cpp:52-115 | the same over any accepted sequence |
| `LeaseModels.EngineLogIsClean` | src/check/lease_model.cpp:52-115 | an Engine log gives the checker nothing to object to, from the start or from an image anywhere |
| `LeaseModels.StartAnywhere` | src/check/lease_model.cpp:10-19 | start_from() at any cut reaches what feeding the whole prefix reaches |
| `ReadyHeaps.SiftUp` | src/state/ready_heap.cpp:41-50 | restores heap order upwards, keeps the elements and the stored indexes |
| `ReadyHeaps.SiftDown` | src/state/ready_heap.cpp:52-63 | restores heap order downwards, keeps the elements and the stored indexes |
| `ReadyHeaps.Push` | src/state/ready_heap.cpp:18-24 | adds exactly that job and keeps the heap consistent |
| `ReadyHeaps.Remove` | src/state/ready_heap.cpp:26-39 | removes exactly that job, wherever it is, and keeps the heap consistent |
| `ReadyHeaps.TopIsFirst` | src/state/ready_heap.cpp:7-11 | the top comes before every other job by priority, run time and id |
| `JobIndex.OthersKeep` | src/state/state.cpp:525-602 | changing one job and its queue keeps what every other job and queue relies on |
| `JobIndex.TimersCounted` | src/state/state.cpp:525-602 | as many timers in the wheel as jobs that hold one |
| `JobIndex.SizesCounted` | src/state/state.cpp:525-602 | heap and dead-letter sizes agree with the counters |
| `States.State.LeaveIndexes` | src/state/state.cpp:134-140 | the job is in no heap and has no timer; all others are as indexed as before |
| `States.State.SetStage` | src/state/state.cpp:102-106 | the state counters of the queue follow the job |
| `States.State.EnterPending` | src/state/state.cpp:123-132 | ready exactly if due and not replaying, otherwise waiting on a timer at its run time; a gained ready job is announced |
| `States.State.ScheduleLeaseTimer` | src/state/state.cpp:142-146 | the expiry timer is at exactly the later of the expiry and the end of the grace period |
| `States.State.Finish` | src/state/state.cpp:148-160 | a terminal job, on the list that will lead to its collection |
| `States.State.EraseJob` | src/state/state.cpp:162-171 | the job is gone from jobs and every index; nothing else changes |
| `States.State.UpsertIdem` | src/state/state.cpp:183-196 | the key has one entry, at the end |
| `States.State.ApplyEnqueued` | src/state/state.cpp:213-241 | accepted exactly if it fits, with the specified effect, or nothing changes; indexes, timing and announcements stay right |
| `States.State.ApplyLeased` | src/state/state.cpp:243-264 | likewise for JobLeased |
| `States.State.ApplyExtended` | src/state/state.cpp:266-272 | likewise for LeaseExtended |
| `States.State.ApplySucceeded` | src/state/state.cpp:274-279 | likewise for JobSucceeded |
| `States.State.ApplyFailed` | src/state/state.cpp:281-298 | accepted exactly if it fits, with the specified effect, or nothing changes; a retried job is ready exactly if its retry time has come, indexes, timing and announcements stay right |
| `States.State.ApplyCancelled` | src/state/state.cpp:300-309 | likewise for JobCancelled |
| `States.State.ApplyRetried` | src/state/state.cpp:311-323 | likewise for DeadJobRetried |
| `States.State.ApplyPurged` | src/state/state.cpp:325-337 | likewise for JobsPurged, which may list an id twice |
| `States.State.ApplyRecord` | src/state/state.cpp:209-337 | every invariant of check_invariants() is kept by every accepted record, and a rejected one changes nothing |
| `States.State.RebuildDerived` | src/state/state.cpp:349-381 | all indexes anew from the durable state: every invariant holds, every pending job is ready exactly if due, and every lease gets its own expiry or the end of the grace period, whichever is later |
| `States.State.EndReplay` | src/state/state.cpp:341-347 | leaves replay with all invariants and the durable state collected at now, and every lease is spared until the grace period is over |
| `States.State.HandleEvent` | src/state/state.cpp:383-413 | a fired timer makes its job ready if and only if it is pending and due, reports its lease if and only if it is leased and over, and otherwise waits on with a new timer at the job's deadline; nothing durable changes |
| `States.State.AdvanceTimers` | src/state/state.cpp:383-413 | durable state untouched; exactly the leases whose timer has come are reported and all had expired; with clocks together every pending job is ready exactly if due and no lease is overdue |
| `States.State.CollectRefs` | src/state/state.cpp:421-434 | pops exactly the references past retention and skips stale ones |
| `States.State.CollectGarbage` | src/state/state.cpp:421-437 | only what is past retention goes; all of it goes if the clock has not gone back; no timer changes |
| `States.State.TakeReadyNotifications` | src/state/state.cpp:439-441 | the announced queues, once |
| `States.State.Opened` | src/state/image.cpp:111-143 | the counters, queues, totals and keys of the durable state, no jobs yet, in replay |
| `States.State.Restore` | src/state/image.cpp:152-206 | one job joins, counted and listed as apply() would during replay |
| `States.State.RestoreAll` | src/state/image.cpp:145-209 | all jobs of the durable state, in any order |
| `States.State.Fill` | src/state/image.cpp:111-237 | the object that StateBuilder makes: valid, in replay, and holding exactly the durable state |
| `Restarts.ReplayTail` | src/snapshot/recovery.cpp:36-52 | the replay loop succeeds if and only if every record fits, and ends in the replayed state |
| `Restarts.Begin` | src/snapshot/recovery.cpp:17-34 | a State in replay mode that holds what the loaded snapshot describes, or nothing without one |
| `Restarts.Restart` | src/snapshot/recovery.cpp:36-57 | from a loaded snapshot or none and a log tail: given up exactly if a record does not fit; otherwise a State object with every invariant and all timing exact, every lease spared for the grace period, whose durable state is the replayed one collected at now unless a job finished later than now |
| `Engines.Engine.constructor` | src/state/engine.cpp:32-44 | an engine over an empty or recovered state whose history accounts for it |
| `Engines.Engine.LogAndApply` | src/state/engine.cpp:49-56 | a resolved record is never refused: it is applied, logged under the next LSN, and continues the run |
| `Engines.Engine.FindLeased` | src/state/engine.cpp:178-191 | the job exactly if the token holds its current lease; otherwise not-found or stale-token |
| `Engines.Engine.Heartbeat` | src/state/engine.cpp:193-204 | extends exactly the current lease, to now plus the asked time, and changes nothing else; any other token gets its error and changes neither state nor log |
| `Engines.Engine.Ack` | src/state/engine.cpp:206-218 | OK exactly for the token that completes the job now or completed it before; the job is succeeded, now, with its token, and no other changes; at most one success is logged |
| `Engines.Engine.DecideFailure` | src/state/engine.cpp:321-344 | dead exactly if no attempt is left or no retry is wanted; otherwise a retry as asked or within the backoff; the error is cut at 1024 bytes |
| `Engines.BackoffDoubles` | src/state/engine.cpp:310-315 | the ceiling is the base at the first attempt and doubles with each one up to the cap, with base 0 up to the 32nd |
| `Engines.Engine.Fail` | src/state/engine.cpp:220-230 | the job is dead, or pending with exactly the run time answered, its error cut to 1024 bytes, its token gone and all else as before, and no other job changes; ready exactly if that time has come; or the exact error and no change |
| `Engines.Engine.Cancel` | src/state/engine.cpp:232-241 | cancels exactly a job that is not terminal, now, and changes no other job |
| `Engines.Engine.DlqRetry` | src/state/engine.cpp:273-278 | revives exactly a dead job: pending now with no attempts, nothing else changed |
| `Engines.Engine.DlqRetryAll` | src/state/engine.cpp:280-289 | exactly the dead jobs of the queue start over, smallest id first, one record each, and no other job changes; what became ready is announced and timing stays exact |
| `Engines.Engine.DlqPurge` | src/state/engine.cpp:291-295 | purges exactly a dead job, and no other |
| `Engines.Engine.DlqPurgeAll` | src/state/engine.cpp:297-308 | exactly the dead jobs of the queue are gone, ten thousand ids to a record, and all others are as before; timing and announcements stay right |
| `Engines.Engine.Enqueue` | src/state/engine.cpp:87-144 | refused exactly for a bad name, payload, key, delay, run time or number of attempts, each with its error, or when full; a live key answers with its job and changes nothing; otherwise there is one new job under the next id, field by field as requested or by default, to run at the requested time or after the delay but not before now, with a cap not below the base, no attempts, ready exactly if due, and no other job changes |
| `WireFormat.QueueNames` | src/state/engine.cpp:24-30 | a queue name is one to 128 letters, digits or . _ : - |
| `Engines.Engine.Reserve` | src/state/engine.cpp:146-176 | leases the first job by priority, run time and id of the first listed queue that has a ready one, never before its run time, until now plus the asked time, under the next token, one attempt up and otherwise as it was; empty only if none is ready |
| `Engines.Engine.DetectClockJump` | src/state/engine.cpp:61-70 | a jump of more than the tolerance is found exactly; then every timer is again exactly where its job calls for, every lease spared for the grace period, queues with ready jobs are announced and the jump is counted, and without one nothing changes; durable state untouched either way |
| `Engines.Engine.EndLease` | src/state/engine.cpp:72-85 | one AttemptFailed record, for expiry and with the token of the lease, ends a lease that has run out |
| `Engines.Engine.Tick` | src/state/engine.cpp:72-85 | logs only expiries, one for each lease whose timer had come; afterwards the durable state is what a replay ending now gives, and with clocks together or after a jump a pending job is ready exactly if due and no lease outlives its expiry and the grace period |
| `Engines.BackoffIsCapped` | src/state/engine.cpp:310-315 | the ceiling is min(cap, base*2^(attempts-1)) if and only if base > 0, cap = 0 or attempts <= 32 |
| `Engines.BackoffOfZeroJumps` | src/state/engine.cpp:310-315 | with base 0 the 33rd attempt jumps to the cap |
| `ReplyGates.ReplyGate.QueueReply` | src/server/server.cpp:332-349 | the reply is the connection's next; it goes out at once exactly if nothing waits before it and everything logged is committed |
| `ReplyGates.ReplyGate.Release` | src/server/server.cpp:351-371 | output only grows, replies stay the same, nothing that waits only for committed records is held back, and whoever got output is listed for writing |
| `ReplyGates.ReplyGate.NothingEarly` | src/server/server.cpp:330-371 | what has gone out is the first replies, whole and in order, each covered by the committed LSN |
| `ReplyGates.ReplyGate.Open` | src/server/server.cpp:202-235 | a new connection has no replies |
| `ReplyGates.ReplyGate.Close` | src/server/server.cpp:429-434 | the connection and what it was owed are gone |
| `ReplyGates.Admit` | src/server/server.cpp:332-344 | one connection: straight to the output or behind a mark for the last LSN |
| `ReplyGates.Drain` | src/server/server.cpp:358-366 | one connection: the marks up to the committed LSN go, and the bytes they cover |
| `Waiters.Dedupe` | src/server/server.cpp:460-464 | each queue once, in the order in which they were first named |
| `Waiters.Lines.Park` | src/server/server.cpp:459-470 | the connection joins the end of each line it named, once and in that order, and one timer with its deadline joins the wheel |
| `Waiters.Lines.Unpark` | src/server/server.cpp:472-481 | the connection leaves every line, the others keep their order, and its timer is gone |
| `Waiters.Lines.TryReserve` | src/server/server.cpp:438-457 | for a parked connection with a ready queue it never fails and never comes back empty: it gets the first ready job of the first such queue it named; one lease is logged for the reply |
| `Waiters.Lines.ServeQueue` | src/server/server.cpp:486-499 | the jobs go to a prefix of the line, longest waiting first, one lease and one reply each, until line or heap is empty; history and timing stay exact |
| `Waiters.Lines.ServeReadyWaiters` | src/server/server.cpp:485-500 | afterwards no queue has both a ready job and a waiter; whoever got a job waited for one of its queues and got one only; the two checks never fail; history and timing stay exact |
| `Waiters.Lines.ReserveOrPark` | src/server/commands.cpp:415-440 | an error, a job exactly as RESERVE grants it, or a place in line, with the queues and lease it asked for, until the timeout, and in line only if no listed queue has a ready job and the timeout is positive; history and timing stay exact |
| `Waiters.Lines.ReserveAndServe` | src/server/server.cpp:301-326 | after an answered RESERVE nobody waits on a queue with a ready job; one that parks leaves that as it was; history and timing stay exact |
| `Waiters.Lines.Leave` | src/server/server.cpp:429-434 | a close takes the connection out of every line and off the wheel; nobody else is worse off |
| `Waiters.Lines.ExpireTimeouts` | src/server/server.cpp:502-514 | exactly the parked connections whose deadline has come get a null reply, each once and in order of deadline, leave every line and are resumed; no event is ever stale |
| `Waiters.Lines.ReplyNull` | src/server/server.cpp:505-513 | every timer that fired ends the wait of its own connection |
| `Waiters.Lines.EnqueueAndServe` | src/server/server.cpp:485-500 | no wake-up is lost across ENQUEUE and the hand-over, and the records and leases they log keep history and timing exact |
| `Waiters.Lines.Settle` | src/server/server.cpp:323-326 | after any command whose new ready jobs were announced, the hand-over leaves nobody waiting on a ready queue; history and timing stay exact |
| `Waiters.Lines.AckAndServe` | src/server/server.cpp:301-326 | no wake-up is lost across ACK; the answer, the records logged and the hand-overs after them; history and timing stay exact |
| `Waiters.Lines.HeartbeatAndServe` | src/server/server.cpp:301-326 | no wake-up is lost across HEARTBEAT; the answer, the records logged and the hand-overs after them; history and timing stay exact |
| `Waiters.Lines.FailAndServe` | src/server/server.cpp:301-326 | no wake-up is lost across FAIL, whose retry may be ready at once; the answer, the records logged and the hand-overs after them; history and timing stay exact |
| `Waiters.Lines.CancelAndServe` | src/server/server.cpp:301-326 | no wake-up is lost across CANCEL; the answer, the records logged and the hand-overs after them; history and timing stay exact |
| `Waiters.Lines.DlqRetryAndServe` | src/server/server.cpp:301-326 | no wake-up is lost across DLQ.RETRY of one job, which is ready at once; the answer, the records logged and the hand-overs after them; history and timing stay exact |
| `Waiters.Lines.DlqPurgeAndServe` | src/server/server.cpp:301-326 | no wake-up is lost across DLQ.PURGE of one job; the answer, the records logged and the hand-overs after them; history and timing stay exact |
| `Waiters.Lines.DlqRetryAllAndServe` | src/server/server.cpp:301-326 | no wake-up is lost across DLQ.RETRY of all dead jobs of a queue; the answer, the records logged and the hand-overs after them; history and timing stay exact |
| `Waiters.Lines.DlqPurgeAllAndServe` | src/server/server.cpp:301-326 | no wake-up is lost across DLQ.PURGE of all dead jobs of a queue; the answer counts exactly the ids of the records logged; history and timing stay exact |
| `Waiters.Lines.TickAndServe` | src/server/server.cpp:485-500 | no wake-up is lost across a tick, also after a clock jump; afterwards the history accounts for the state, a pending job is ready exactly if due and no lease is overdue |
| `Waiters.StaysAwake` | src/state/state.cpp:113-132 | a queue with a ready job and a waiter is always announced |
| `Crc32c.ExtendAppend` | src/common/crc32c.cpp:143-148 | extending over b after a gives the checksum of a followed by b |
| `Crc32c.ByteStep` | src/common/crc32c.cpp:126-130 | a table lookup does eight steps of the bit-at-a-time register |
| `Crc32c.FirstTable` | src/common/crc32c.cpp:30-35 | entry by entry the bit-at-a-time remainder |
| `Crc32c.NextTable` | src/common/crc32c.cpp:36-40 | table k advances a byte through one more zero byte than table k-1 |
| `Crc32c.MakeTables` | src/common/crc32c.cpp:28-42 | all eight tables |
| `Crc32c.RegisterIsLinear` | src/common/crc32c.cpp:111-132 | the register is linear in its start value |
| `Crc32c.EightAtOnce` | src/common/crc32c.cpp:115-125 | eight bytes at once: the register is mixed into the first four and the lookups are summed |
| `Crc32c.Slice` | src/common/crc32c.cpp:115-125 | one round of the word loop equals eight bytes of the definition |
| `Crc32c.Software` | src/common/crc32c.cpp:111-132 | the sliced loop equals the bit-at-a-time CRC32C for every input and seed |
| `CrcErrors.CheckValue` | tests/unit/common/crc32c_test.cpp:26-26 | the checksum of the digits 1 to 9 is 0xE3069283 |
| `CrcErrors.BurstIsSeen` | src/common/crc32c.cpp:111-132 | two strings that differ only within four adjacent bytes have different checksums |
| `CrcErrors.DamagedRecord` | src/log/format.cpp:101-134 | a record changed within four adjacent bytes behind its length is recognized as damaged |
| `CrcErrors.FlippedBytesAreRefused` | src/log/recovery.cpp:30-172 | recovery refuses a newest segment with such damage in any record but the last, and changes no file |
| `Resp.ParseExtend` | src/net/resp.cpp:52-160 | what is decided stays decided, and after kNeedMore the parser goes on as if it had seen everything at once |
| `Resp.AnyChunking` | src/net/resp.cpp:52-160 | any split of any byte stream gives the same requests, oversized flags and failure |
| `Resp.BufferBound` | src/net/resp.cpp:52-160 | what is left to buffer after kNeedMore is bounded by max(max_request_bytes, 33) + 32 |
| `Resp.HeaderRoundTrip` | src/net/resp.cpp:24-43 | a printed header line is read back |
| `Resp.RequestRoundTrip` | src/net/resp.cpp:186-198 | a printed request parses back to its arguments |
| `Resp.PipelineRoundTrip` | src/net/resp.cpp:186-198 | any chunking of a printed pipeline within the limits parses back to the same requests |
| `RespGrammar.RequestIff` | src/net/resp.cpp:52-122 | the parser gives a request if and only if the bytes are an array header and that many bulk strings, in decimal, within every limit, and then exactly their contents and length |
| `RespGrammar.OversizedIff` | src/net/resp.cpp:52-160 | a request is skipped as oversized if and only if it is well-formed within the hard limits and breaks a soft one |
| `RespGrammar.InDecimal` | src/net/resp.cpp:24-43 | numbers are written in decimal, the highest digit first, with a minus sign for negative ones |
| `Resp.RespParser.ReadHeaderLine` | src/net/resp.cpp:24-43 | the loop computes the line as specified |
| `Resp.RespParser.ParseDiscarding` | src/net/resp.cpp:124-160 | skips the rest of an oversized request as it arrives |
| `Resp.RespParser.ParseMore` | src/net/resp.cpp:52-122 | parse() computes the specified outcome and leaves the specified mode |
| `Codec.VarintRoundTrip` | src/common/codec.h:83-95 | LEB128 round-trips for every 64-bit value, whatever follows |
| `Codec.SignedRoundTrip` | src/common/codec.h:97-100 | zigzag round-trips for every signed 64-bit value |
| `Codec.BytesRoundTrip` | src/common/codec.h:103-110 | a length-prefixed string round-trips |
| `Codec.FieldsRoundTrip` | src/common/codec.h:83-110 | so does any sequence of fields, leaving exactly what follows |
| `WireFormat.StoredByte` | src/common/codec.h:29-30 | fixed-width numbers are little-endian: the i-th byte is the i-th digit to the base 256 |
| `WireFormat.VarintByte` | src/common/codec.h:33-39 | the i-th byte of a varint has the i-th seven bits and is marked unless it is the last |
| `WireFormat.VarintLength` | src/common/codec.h:33-39 | a varint takes n bytes or fewer exactly if the value is below 128^n |
| `WireFormat.ZigZagCounts` | src/common/codec.h:42-44 | signed numbers are counted 0, -1, 1, -2, 2 and so on |
| `Codec.ByteWriter.Varint` | src/common/codec.h:33-39 | the loop appends the encoding |
| `Codec.ByteWriter.Signed` | src/common/codec.h:42-44 | appends the zigzag encoding |
| `Codec.ByteWriter.Text` | src/common/codec.h:47-50 | appends length and bytes |
| `Codec.ByteReader.Varint` | src/common/codec.h:83-95 | the loop reads what the function says; a failure is sticky and empties the input |
| `RecordCodec.RecordRoundTrip` | src/state/records.cpp:107-214 | all eight record types decode to what was encoded, every byte consumed, with times in [0, 2^50] |
| `RecordCodec.AcceptedReencodes` | src/state/records.cpp:113-214 | whatever is accepted re-encodes to a payload that decodes to the same record |
| `WireFormat.EnqueuedBytes` | src/state/records.cpp:42-54 | type and bytes of JobEnqueued, field by field |
| `WireFormat.LaterBytes` | src/state/records.cpp:55-88 | type and bytes of JobLeased, LeaseExtended, JobSucceeded, JobCancelled and DeadJobRetried |
| `WireFormat.FailedBytes` | src/state/records.cpp:72-80 | type and bytes of AttemptFailed |
| `WireFormat.PurgedBytes` | src/state/records.cpp:90-93 | type and bytes of JobsPurged |
| `JobStore.ReplayOfCarried` | src/snapshot/recovery.cpp:37-49 | replaying log bytes is replaying the records they carry, and gives up exactly if one does not fit |
| `JobStore.JobsRestore` | src/snapshot/recovery.cpp:12-57 | the job state meets the hypothesis of the store for every part of the log: replay from the start and from every snapshot file an Engine may have written, garbage collected or not, refuses no record and is right |
| `JobStore.CrashedServerComesBack` | src/snapshot/recovery.cpp:12-57 | after any history, group commits, snapshots, compactions and crashes, recovery succeeds if and only if the torn bytes hold no plausible record; then no record is refused, everything committed is there, and ending the replay at T gives exactly what the live state would become by collecting at T, had its history ended with the last surviving record; also if the newest snapshot is unreadable |
| `JobStore.RestartFromFile` | src/snapshot/recovery.cpp:12-57 | the object path: a snapshot file taken anywhere in an Engine run and the records after it give a State object with every invariant and exact timing, holding what the live state becomes by collecting at T |
| `JobStore.ReleasedJobSurvives` | src/server/server.cpp:330-387 | a released ENQUEUE reply names a job that recovery after any later crash brings back, on the system with group commit, torn tails, snapshots and compaction, unless a purge of it was logged or its retention is over |
| `EndToEnd.CarriedDecodes` | src/snapshot/recovery.cpp:37-49 | recovered payloads decode to the records that were logged |
| `EndToEnd.CommittedComesBack` | src/log/log_writer.cpp:164-188 | whatever happens after a commit, a recovery that succeeds brings back every record up to it |
| `EndToEnd.EnqueuedIsKnown` | src/state/state.cpp:213-241 | a job is known from its JobEnqueued record until a record purges it |
| `EndToEnd.ReleasedJobIsRecovered` | src/server/server.cpp:330-387 | every released ENQUEUE reply names a job that any later recovery knows, after any number of crashes |

## Left out

- Values instead of objects: `SimFs`, the two-thread `LogWriter` and the snapshot and compaction
  cycle are step systems on values, with each file-system operation and each hand-over
  between threads as one step; mutexes and condition variables are the atomicity of steps.
- ReadyHeaps.SiftUp, ReadyHeaps.SiftDown, ReadyHeaps.Push and ReadyHeaps.Remove work on a heap
  value that carries the index of each job, where the source keeps `heap_index` in the job.
- TimingWheels.TimingWheel.Schedule requires a free slab entry, which the source checks and aborts
  on; node generations are unbounded, so their wrap-around after 2^32 reuses is not modelled.
- The bit tricks of the wheel (`countl_zero`, `rotr`, `countr_zero`) are the base-64 digit and
  distance computations they stand for; `heads_` and `occupied_` are a sequence and sets.
- States.State.ApplyRecord requires room in the timer slab for JobEnqueued (fewer jobs than the
  wheel can address). The memory estimate is left out; in `Engines.Engine.Enqueue` reaching the
  limit is the parameter `full`.
- States.State.RebuildDerived admits the jobs anew one by one where the source walks them in place.
- Engines.Engine.DecideFailure takes any jitter up to the ceiling; the generator is left out.
- LogWriter.StepIsSafe covers fsync `always`; under `interval` the committed LSN runs ahead of the disk.
- LogWriter.RecoveryIsExact and StoreRuns.CrashTransparent assume, for crashes that leave garbage
  bytes, that nothing parses out of the surviving bytes of a segment except what was written
  there; `LogWriter.NoGarbageIsHonest` shows that nothing is assumed otherwise.
- StoreRuns.StepIsSafe takes a batch as one step: how it is handed over between owner and log
  thread is in `LogWriter`. It covers fsync `always`, lets a segment be created at any size, and
  leaves out I/O errors, which end or fail the operation.
- JobStore.CrashedServerComesBack has every record of the history in the log, and snapshot files as
  the writer makes them: of states within the field widths, and with every chunk within the
  record limit (`AllFit`), since otherwise no file is written.
- SnapshotRuns.SnapshotIsTheState, SnapshotRuns.RestartFromSnapshot and JobStore.RestartFromFile are
  about files that were written, so they assume `AllFit`; `SnapshotRuns.WrittenIsTheState`
  discharges it within the limits on payloads and queues.
- States.State.Opened and States.State.Fill build the object from the finished durable value, which
  `Images` shows to be what the pieces describe; the source fills it piece by piece.
- SnapshotFiles.WriteSnapshot writes the bytes only; temporary file, rename and syncs are steps of
  `StoreRuns`. A chunk that does not fit ends the process in the source and gives no file here.
- CrcErrors.DamagedRecord and SnapshotDamage.FlippedByteIsRefused leave out damage to the length field of
  a record, which changes what the checksum is computed over: no bound on the checksum alone
  excludes that it fits there.
- LogProgress.EverythingGetsCommitted and StoreProgress.SnapshotGetsWritten say that the steps can be
  taken; that threads are scheduled is not modelled.
- SnapshotFiles.LoadFile distinguishes no error messages; an unsupported version is one more refusal.
- RecordCodec.RecordRoundTrip models encoder and decoder as lists of typed fields, on values.
- ReplyGates.ReplyGate.Release stops before the writes to sockets: flushing, output limits and
  closing slow clients are left out.
- Waiters.Lines.Park requires room in the slab of reserve timeouts, as for the job timers. Null
  replies and hand-overs are lists of their own (`timedOut`, `handed`), and pausing of reads is
  left out.
- File names (formatting and parsing), command parsing, INFO, AUTH, backpressure, disk-space
  checks, metrics, the hardware CRC path, RESP3 replies and the client SDK.
- The process-fatal paths (`BATON_CHECK`, `die`) other than those proved unreachable.
