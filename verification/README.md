# A verified model of Rewind

Rewind records a supervised command as an ordered event log together with snapshots of its workspace over
a content-addressed object store, and later replays, restores, compares, exports and garbage-collects what
it has recorded. This project models that machinery in Dafny and proves what it is for: that the log is
whole and ordered, that nothing referenced is ever lost, that what is stored can be read back, and that
the loops which page, poll and walk end where they should.

`dafny verify dfyconfig.toml` checks the whole project.

## Layout

| file | subject |
|---|---|
| `bytes.dfy`, `sorting.dfy`, `digests.dfy`, `wrappers.dfy` | byte strings and their order, sorting by key, digests and their hexadecimal text |
| `events.dfy`, `run_store.dfy` | events, derived index rows, and the run tables with one method per transaction |
| `recorder.dfy`, `capture.dfy` | the single writer of a run: sequencer, pending batch, two-phase checkpoints, quota, finish; terminal bytes stored before they are named |
| `shutdown.dfy` | the deadlines of the supervising loop |
| `objects.dfy`, `accesses.dfy`, `durability.dfy`, `object_writer.dfy`, `power_loss.dfy` | object envelopes and their readers; the order of storing and referring; installation, reference and deletion cut by crashes; storing an object call by call; losing power |
| `key_pages.dfy`, `gc.dfy` | bounded pages over ordered keys, and the collector that deletes from the table it walks |
| `readers.dfy`, `bundles.dfy`, `bundle_writer.dfy`, `timelines.dfy`, `exports.dfy` | the bundle codec, the streaming writer, timeline pages and the export driver |
| `snapshots.dfy`, `diff.dfy`, `glob.dfy` | canonical manifests, the merge diff, ignore patterns |
| `trees.dfy`, `restores.dfy`, `checkouts.dfy`, `scans.dfy`, `round_trips.dfy` | directory trees, building one from a snapshot, installing it, scanning one, and the two together |
| `replay.dfy`, `terminal_view.dfy`, `preview.dfy` | replay navigation, the object cache with the terminal tail, the text preview |
| `ancestry.dfy`, `processes.dfy` | run ancestry and the supervised process tree |

## How the outside world appears

- Hashing, UTF-8 validation, case folding and JSON rendering are arbitrary functions passed as parameters;
  every theorem holds for all of them. No theorem assumes that digests do not collide.
- The database, the file system and byte sources fail when a schedule says so, and other processes act on a
  checkout's destination when one says so. A statement over all schedules covers every pattern of failures,
  of interference and of short reads.
- Clocks are left free. A database transaction is one step; installing or deleting an object is one step
  for each system call.
- `Text` is a sequence of bytes: the program's own comparisons are byte-wise.
- Permissions are those of an unprivileged owner. Unsigned and SQL integer limits, saturating counters and
  page limits are written out with the program's constants.

## What the proofs turned up

- **References are durable against crashes, not against every loss of power.** A loss of power keeps every
  reference exactly when every referenced entry has been flushed and the entry of its fan-out directory is
  permanent (`PowerLosses.PowerLossSafeExactly`). Two branches of a put leave something unflushed. Making a
  fan-out directory adds an entry to `objects/` that nothing ever flushes, so even the first, uninterrupted
  put under a prefix can lose its reference (`PowerLosses.FirstPutLosesReference`). And a put that finds its
  file in place does not flush the directory, so a put that was cut off before its flush can be relied on by
  a second one (`PowerLosses.UncoveredPutLosesReference`). Once everything is permanent, power may fail at any
  moment as long as puts take neither branch (`PowerLosses.SettledRunSurvivesPowerLoss`). The controls listed
  at docs/threat-model.md lines 219-235 synchronize directory metadata before publishing a reference; these
  branches are the exceptions.
- **A row does not prove that there is a file**, though a row is all the store asks for when it is given a
  reference (`PowerLosses.RowsMayLackFiles`). What keeps references backed is that each session stores an
  object before it refers to it; the recorder is proved to do so (`Recording.FlushKeepsAccesses`,
  `Recording.CommitKeepsAccesses`, `Recording.Recorder.Valid`), which is what
  `Durability.EveryRunDurable` asks of a session.
- **An unforced checkout can destroy what arrives late.** The destination is looked at once to refuse an
  occupant and a second time to choose how to install. Something that arrives between the two looks, or
  fills an empty directory after the second, is moved aside and removed (`Checkouts.ArrivalLost`,
  `Checkouts.FilledLost`). Without force nothing is destroyed provided that nothing arrives after the first
  of these looks (`Checkouts.QuietInstallKeeps`, `Checkouts.Materialize`).
- **A restored tree cannot always be scanned again.** Restoring succeeds for any modes, because directories
  get theirs last, but an unprivileged scan succeeds exactly when the recorded modes let the owner read
  files and read and search directories (`RoundTrips.RestoreAndScan`, `RoundTrips.LockedDirectory`).
- **A failed checkpoint commit ends a session.** It consumes a sequence number without an event, and the
  store then rejects every batch the session can still offer (`Recording.GapStaysClosed`). What is durable
  stays exact, whatever fails, and recovery keeps it so (`Recording.RecoveredAfterCrash`).
- **A failed finish can complete a run twice.** The completion stays in the pending batch, and when capture
  then closes the run another way (crates/rewind-capture/src/recorder.rs lines 343-352) it is made durable in
  the middle of an active run (`Recording.FailedFinishLeavesCompletion`). A finished run has one completion,
  at its end, exactly when no earlier finish had failed (`Recording.Recorder.Finish`).
- **Previews of lines with carriage returns are not patches.** The return is shown as a symbol, so the
  preview gives the second file exactly when no line of the hunk holds one (`Previews.PreviewIsPatch`,
  `Previews.ReturnsBreakPatch`).
- **Comparison mirrors only on forests.** On a cyclic parent table, which the store never builds, swapping
  the two runs can change the reported ancestor (`Ancestry.CyclesBreakMirror`).

## Model

| member | source | states |
|---|---|---|
| `Recording.EveryRunOrdered` | crates/rewind-capture/src/recorder.rs:1160-1173 | over every run of emits, flushes and commits, durable plus pending events are numbered 1 to next-1 with offsets that never decrease, every outcome closes its own start, no completion comes early, and what was recorded earlier is a prefix of what is recorded later |
| `Recording.StepKeepsOrder` | crates/rewind-capture/src/recorder.rs:1160-1173 | each single step keeps that order and only extends the timeline |
| `Recording.QueueKeepsOrder` | crates/rewind-capture/src/recorder.rs:1168-1173 | queueing the sequencer's next event keeps the timeline contiguous |
| `Recording.FlushKeepsOrder` | crates/rewind-capture/src/recorder.rs:1262-1269 | making a batch durable changes nothing about durable plus pending events |
| `Recording.CommitKeepsOrder` | crates/rewind-capture/src/recorder.rs:1376-1393 | the committed event extends the timeline and its row keeps the checkpoint table an exact projection |
| `Recording.FlushAccepted` | crates/rewind-store/src/event.rs:107-289 | the store never rejects a recorder's batch for its order or its references, only for numbers beyond SQL integers |
| `Recording.CommitReady` | crates/rewind-store/src/snapshot.rs:182-228 | the same for a checkpoint commit, up to the range of numbers and a snapshot already linked elsewhere |
| `Recording.CommitStep` | crates/rewind-capture/src/recorder.rs:1376-1397 | one commit keeps the order, extends the timeline by its event alone, leaves the durable log exact and refers only to what was stored |
| `Recording.GapRejected` | crates/rewind-store/src/event.rs:107-160 | a batch that starts beyond the next number of its run is refused |
| `Recording.GapStaysClosed` | crates/rewind-capture/src/recorder.rs:1376-1393 | after a failed commit every batch and every commit the session can still offer, whatever it goes on to queue, is refused |
| `Recording.QueueKeepsGap` | crates/rewind-capture/src/recorder.rs:1168-1173 | queueing keeps the gap, so what a session offers later is among what it could offer before |
| `Recording.RecoveredAfterCrash` | crates/rewind-store/src/recovery.rs:40-101 | from any durable log, after whatever failures: recovery keeps its events, its checkpoints as their exact projection and its brackets, marks it interrupted, and ends it at its last durable event |
| `Recording.FlushKeepsLog` | crates/rewind-capture/src/recorder.rs:1262-1269 | a flush keeps the durable log exact, and free of completions unless one is pending |
| `Recording.CommittedLog` | crates/rewind-capture/src/recorder.rs:1376-1393 | after a commit everything recorded is durable and the durable log is exact |
| `Recording.FlushKeepsAccesses` | crates/rewind-capture/src/recorder.rs:1262-1269 | a flush refers only to objects this session has stored, and to all that its batch names |
| `Recording.CommitKeepsAccesses` | crates/rewind-capture/src/recorder.rs:1376-1393 | a checkpoint commit refers only to objects this session has stored |
| `Recording.FailedFinishLeavesCompletion` | crates/rewind-capture/src/recorder.rs:1405-1423 | after a finish that failed the store accepts the pending completion together with what follows it, so the completion is neither last nor the run over |
| `Recording.Sequencer.Next` | crates/rewind-capture/src/recorder.rs:1566-1592 | the next number with an offset that is the later of the clock and the last offset; refusals consume nothing |
| `Recording.Recorder.Flush` | crates/rewind-capture/src/recorder.rs:1262-1269 | the batch becomes durable whole, or stays pending with nothing changed; after a lost sequence number nothing pending is ever stored |
| `Recording.Recorder.QueueEvent` | crates/rewind-capture/src/recorder.rs:1168-1173 | exactly one event with the returned number is appended to the batch |
| `Recording.Recorder.Emit` | crates/rewind-capture/src/recorder.rs:1160-1166 | one event more, and never a full batch left pending |
| `Recording.Recorder.Warning` | crates/rewind-capture/src/recorder.rs:1175-1187 | one warning event more |
| `Recording.Recorder.ProjectedObjectBytes` | crates/rewind-capture/src/recorder.rs:1209-1233 | the counter plus the sizes of the distinct new objects, or nothing exactly when that passes the limit |
| `Recording.Recorder.EmitObjectReference` | crates/rewind-capture/src/recorder.rs:1189-1207 | a frame within the limit is emitted and its object counted once; one over it leaves counter and objects alone behind a durable warning |
| `Recording.Recorder.RefuseReference` | crates/rewind-capture/src/recorder.rs:1196-1201 | the refusal of a frame is a durable warning |
| `Recording.Recorder.StartCheckpoint` | crates/rewind-capture/src/recorder.rs:1280-1290 | the started event is durable before the workspace is scanned |
| `Recording.Recorder.CheckpointAllocated` | crates/rewind-capture/src/recorder.rs:1280-1318 | every attempt that starts gets exactly one outcome: committed within the limit, failed with a warning over it, failed when the scan fails; only a commit counts objects |
| `Recording.Recorder.ScanObjects` | crates/rewind-snapshot/src/scan.rs:217-247 | every file of a scan is stored before the snapshot may refer to it; without outages it fails exactly on two sizes for one digest |
| `Recording.Recorder.ScanAndCommit` | crates/rewind-capture/src/recorder.rs:1293-1317 | the scan of an attempt that has started, and its one outcome |
| `Recording.Recorder.StoreCommit` | crates/rewind-capture/src/recorder.rs:1391-1393 | snapshot, row and event together; a failure loses the sequence number and nothing that is durable |
| `Recording.Recorder.CommitScanned` | crates/rewind-capture/src/recorder.rs:1335-1403 | which of the two outcomes a scan has, decided by the run limit |
| `Recording.Recorder.CommitAdmitted` | crates/rewind-capture/src/recorder.rs:1376-1397 | a commit within the limit; a failing store call consumes the sequence number without an event |
| `Recording.Recorder.RefuseScan` | crates/rewind-capture/src/recorder.rs:1359-1374 | the outcome over the limit: warning, failed attempt, both durable |
| `Recording.Recorder.FailAttempt` | crates/rewind-capture/src/recorder.rs:1300-1315 | the failed outcome is durable before the error is reported |
| `Recording.Recorder.Finish` | crates/rewind-capture/src/recorder.rs:1405-1423 | the completion is the last event, stored with the run row in one transaction; it is the only one exactly when no earlier finish has failed; its duration is not before the last offset while the clock is steady |
| `Recording.Recorder.CommitFinish` | crates/rewind-capture/src/recorder.rs:1476-1481 | the transaction itself; a failure leaves the batch with its completion pending |
| `Captures.TerminalRecorder.RecordOutput` | crates/rewind-capture/src/recorder.rs:688-724 | output is stored by this session before one event names it; the counter is the output in the timeline; over the terminal limit there is a durable warning and nothing is stored; within both limits only an outage, a conflicting object or exhausted numbers refuse it |
| `Captures.TerminalRecorder.RecordInput` | crates/rewind-capture/src/recorder.rs:726-749 | redacted input leaves its length only, and stores nothing; the first input whose echo setting is unknown is preceded by one warning, and no later one is; only an outage, a limit, a conflicting object, exhausted numbers or empty input refuse it |
| `Captures.TerminalRecorder.RecordRetainedInput` | crates/rewind-capture/src/recorder.rs:751-768 | kept input is stored before one event names it, and refused only for an outage, a limit, a conflicting object, exhausted numbers or empty input |
| `Captures.KeptExactly` | crates/rewind-capture/src/recorder.rs:1088-1098 | typed input is kept exactly when the policy always keeps it, or keeps what is known to be echoed |
| `Captures.OutputGrew` | crates/rewind-capture/src/recorder.rs:694-722 | only output events add to the terminal output of a timeline |
| `Recording.Recorder.PutObject` | crates/rewind-store/src/lib.rs:370-375 | storing an object changes nothing about the run, and is what allows a later reference |
| `Recording.Recorder.MarkRunning` | crates/rewind-store/src/run.rs:149-170 | only the status and the initial snapshot change |
| `Recording.CommitKeepsAccounts` | crates/rewind-capture/src/recorder.rs:1349-1393 | after a commit the counter is again the size of the distinct objects of frames and checkpoints |
| `Recording.FrameAccounted` | crates/rewind-capture/src/recorder.rs:1189-1207 | after a frame too |
| `Recording.SumUnion` | crates/rewind-capture/src/recorder.rs:1209-1238 | objects already accounted for are not counted again |
| `RunStores.AppendExact` | crates/rewind-store/src/event.rs:107-289 | a batch is accepted exactly when it continues the timeline of an active run by rows that are each acceptable |
| `RunStores.AcceptsExactly` | crates/rewind-store/src/event.rs:107-346 | exactly the batches of one active run are accepted that number on from its events, in offsets that never decrease, with every number below the SQL limit and every terminal frame naming a stored object of exactly its length |
| `RunStores.ResolvedExactly` | crates/rewind-store/src/event.rs:291-346 | a row is free of defects exactly when its numbers fit and the object it names, as input or as output, is stored with the length it claims |
| `RunStores.StoredRunsBacked` | crates/rewind-store/src/event.rs:291-346 | no event of any stored run dangles, and neither does a checkpoint: what either names is stored, with the length an event claims |
| `RunStores.RunStore.AppendEventBatch` | crates/rewind-store/src/event.rs:38-55 | outside an outage a batch is appended exactly when it continues the run and all it names is stored; it is appended whole with its index rows, or the tables stay as they were |
| `RunStores.RunStore.ValidateBatch` | crates/rewind-store/src/event.rs:252-289 | the first defect of a batch seen by itself |
| `RunStores.RunStore.AppendRows` | crates/rewind-store/src/event.rs:181-249 | rows are inserted one by one up to the first that does not fit or names nothing stored |
| `RunStores.RunStore.InsertRow` | crates/rewind-store/src/event.rs:181-249 | an event brings its warning or terminal index row along |
| `RunStores.RunStore.CommitCheckpointWithEvent` | crates/rewind-store/src/snapshot.rs:67-105 | outside an outage it succeeds exactly when the event continues the run and the snapshot may be linked; snapshot, row, link and matching event appear together or not at all |
| `RunStores.LinkedFields` | crates/rewind-store/src/snapshot.rs:463-496 | a commit of an initial checkpoint links the initial snapshot, one of a final checkpoint the final one, and neither replaces another; the row repeats the event's numbers |
| `RunStores.CommittableExactly` | crates/rewind-store/src/snapshot.rs:67-228 | a commit is possible exactly when the event continues the run and repeats its row, the identity is new, every file of the snapshot is stored, a stored snapshot is the same one, and no link is replaced |
| `RunStores.CommitKeepsDistinct` | crates/rewind-store/src/snapshot.rs:182-215 | no two checkpoints of any runs ever share an identity |
| `RunStores.RunStore.MarkRunRunning` | crates/rewind-store/src/run.rs:149-170 | only a preparing run with a stored snapshot starts running |
| `RunStores.RunStore.FinishRunWithEvents` | crates/rewind-store/src/run.rs:194-237 | the terminal batch and the terminal row commit together; exactly when that succeeds |
| `RunStores.FinishableExactly` | crates/rewind-store/src/run.rs:194-237 | a run is finished once, from an active state to a final one, and completed only from running |
| `Events.TransitionsExactly` | crates/rewind-domain/src/run.rs:129-143 | a run only moves on, never leaves its last stage, and completes only after running |
| `RunStores.RunStore.MarkInterruptedRuns` | crates/rewind-store/src/recovery.rs:40-101 | it fails only in an outage, and then changes nothing; otherwise exactly the active runs become interrupted, and nothing else changes |
| `RunStores.RunStore.RecordObject` | crates/rewind-store/src/lib.rs:417-459 | an existing row is kept and must agree |
| `RunStores.RecoveryKeepsLog` | crates/rewind-store/src/recovery.rs:63-91 | recovery leaves the timeline alone, takes the last offset as duration and adds one warning row numbered behind all others |
| `RunStores.MaxIsLast` | crates/rewind-store/src/recovery.rs:63-75 | the largest offset is the last one |
| `RunStores.ComparisonEvidence` | crates/rewind-store/src/recovery.rs:146-165 | the indexed terminal total is the total over the event log, and warnings exceed the log by at most the recovery row |
| `RunStores.AppendKeepsLog` | crates/rewind-store/src/event.rs:181-249 | the index rows stay exact projections of the timeline |
| `RunStores.CommitKeepsState` | crates/rewind-store/src/snapshot.rs:182-228 | a commit keeps every stored run valid |
| `Events.IndexedOutput` | crates/rewind-store/src/recovery.rs:146-165 | the sum over terminal rows equals the sum over output events |
| `Events.IndexedRows` | crates/rewind-store/src/event.rs:181-249 | a row is indexed exactly for an event of its kind, and repeats its number, time and contents |
| `Events.IndexedInOrder` | crates/rewind-store/src/event.rs:181-249 | the rows stand in the order of their numbers, each once |
| `Events.ProjectConcat` | crates/rewind-store/src/event.rs:181-249 | the derived rows of two batches are the rows of both together |
| `Events.TrackedMeaning` | crates/rewind-capture/src/recorder.rs:1280-1403 | an outcome follows its own start, and an attempt has at most one start and one outcome |
| `Timelines.LoadTimeline` | crates/rewind-store/src/event.rs:58-104 | a page is the next slice behind the cursor, and the flag tells whether anything follows |
| `Timelines.RowsAreSuffix` | crates/rewind-store/src/event.rs:71-77 | on a numbered timeline the rows after a sequence number are a suffix |
| `Exports.StreamExportEvents` | crates/rewind-cli/src/export.rs:338-395 | page by page the lines of the whole timeline are written once and in order, with every typed input replaced by its length when redacting; it fails exactly when the text passes the limit; the objects named are those of output and, unless redacting, of input |
| `Exports.NamedExactly` | crates/rewind-cli/src/export.rs:355-367 | an object is needed for the events exactly when an output names it or, unless redacting, an input does |
| `Exports.PartsShow` | crates/rewind-cli/src/export.rs:71-215 | the event text of an export is the lines of the timeline as it may be shown, and its objects are exactly those of the snapshots and of the shown frames |
| `Exports.RedactedExportHidesInput` | crates/rewind-cli/src/export.rs:355-367 | an object that only typed input names, and no snapshot holds, is not part of a redacted export |
| `Exports.ObjectPathOrder` | crates/rewind-cli/src/export.rs:543-546 | object paths keep digest order although the digest text is split |
| `Exports.SnapshotPathOrder` | crates/rewind-cli/src/export.rs:130-135 | snapshot paths keep digest order |
| `Exports.ExportSorted` | crates/rewind-cli/src/export.rs:494-524 | the driver supplies its parts in strictly increasing path order, exactly as many as it declares |
| `Exports.ExportSafe` | crates/rewind-cli/src/export.rs:494-524 | every path it supplies is a valid archive path |
| `Exports.WriteBundleFile` | crates/rewind-cli/src/export.rs:468-541 | a success is the bundle of the parts with every object intact; the writer never refuses a path, the order or the count |
| `Exports.WriteObjects` | crates/rewind-cli/src/export.rs:506-521 | objects are copied from readers with any short reads and must have their declared size and digest |
| `Exports.CollectObjects` | crates/rewind-cli/src/export.rs:152-161 | every needed object is found, in digest order, within the limit |
| `Exports.ExportBundle` | crates/rewind-cli/src/export.rs:71-215 | a successful export shows the whole timeline, holds exactly the needed objects, and a manifest with the checksum of every other entry in path order; when redacting it holds no typed input; it fails only for a limit, a missing or damaged object or a failing reader |
| `Exports.ManifestExact` | crates/rewind-cli/src/export.rs:136-164 | sorting the collected checksums lists every other entry once, in path order |
| `Exports.ExportDecodes` | crates/rewind-cli/src/export.rs:468-541 | a decoder with large enough ceilings reads an export back part by part |
| `Bundles.DecodeEncoded` | crates/rewind-store/src/bundle.rs:256-342 | decoding the encoding of acceptable entries gives them back |
| `Bundles.EncodeDecoded` | crates/rewind-store/src/bundle.rs:256-342 | accepted bytes re-encode to exactly themselves, and what was decoded is acceptable |
| `Bundles.DecodeExact` | crates/rewind-store/src/bundle.rs:256-342 | the decoder accepts exactly the printed forms of acceptable lists |
| `Bundles.DecodeBundle` | crates/rewind-store/src/bundle.rs:256-342 | the cursor-based decoder returns what the specification returns, errors included |
| `Bundles.Take` | crates/rewind-store/src/bundle.rs:360-368 | the next bytes or a truncation |
| `BundleWriters.EncodeDecodeRoundTrip` | crates/rewind-store/src/bundle.rs:236-253 | entries with distinct valid paths come back sorted by path |
| `BundleWriters.EncodeBundle` | crates/rewind-store/src/bundle.rs:236-253 | exactly the encodable inputs are encoded, as the sorted bundle |
| `BundleWriters.BundleStreamWriter.WriteEntry` | crates/rewind-store/src/bundle.rs:144-151 | a whole entry, or a refusal that leaves the output as it was |
| `BundleWriters.BundleStreamWriter.WritePrehashedEntry` | crates/rewind-store/src/bundle.rs:157-187 | whatever the sizes of the reads, the result is that of a whole write; wrong lengths and checksums fail |
| `BundleWriters.BundleStreamWriter.WriteEntryHeader` | crates/rewind-store/src/bundle.rs:189-216 | the refusals in their order |
| `BundleWriters.BundleStreamWriter.Finish` | crates/rewind-store/src/bundle.rs:224-232 | bytes are handed over exactly when the declared count has been written |
| `Digests.HexKeepsOrder` | crates/rewind-domain/src/id.rs:225-232 | the order of digest text is the order of digest bytes |
| `Digests.HexInjective` | crates/rewind-domain/src/id.rs:225-232 | different digests have different text |
| `Digests.ParseDigest` | crates/rewind-domain/src/id.rs:166-191 | parsing inverts printing and accepts nothing else, naming the first bad character |
| `Collection.Collect` | crates/rewind-cli/src/gc.rs:26-103 | a whole run: exactly the unreferenced rows and then exactly the files without rows are reported and, when deleting, gone; no reference loses its row or file, even if the run fails part-way |
| `Collection.CollectObjects` | crates/rewind-cli/src/gc.rs:46-74 | for any page size the merge-join visits every row once and picks exactly the unreferenced ones while deleting from the table it walks |
| `Collection.CollectPage` | crates/rewind-cli/src/gc.rs:47-70 | one page of that walk |
| `Collection.VisitObject` | crates/rewind-cli/src/gc.rs:48-69 | a referenced object is kept; any other is counted and, on request, deleted |
| `Collection.CollectOrphans` | crates/rewind-cli/src/gc.rs:75-101 | every recognised file without a row is visited once, in path order, although earlier ones are already deleted |
| `Collection.ReferenceCursor.AdvanceBefore` | crates/rewind-cli/src/gc.rs:124-136 | the cursor stops at the target exactly when the target is referenced, across any number of pages |
| `Collection.ReferenceCursor.Fetch` | crates/rewind-cli/src/gc.rs:133-134 | the next page leaves no reference out and brings the end nearer |
| `Collection.GcStore.SelectIds` | crates/rewind-store/src/maintenance.rs:438-477 | selecting by text pages through identities in byte order |
| `Collection.GcStore.ListObjects` | crates/rewind-store/src/maintenance.rs:242-300 | the next rows after a digest, with measured sizes |
| `Collection.GcStore.DeleteObject` | crates/rewind-store/src/maintenance.rs:382-436 | only an unreferenced object goes, its file before its row |
| `Collection.GcStore.ListPhysicalOrphans` | crates/rewind-store/src/maintenance.rs:133-217 | the next artifacts in path order, whatever the order of enumeration |
| `Collection.GcStore.DeletePhysicalOrphan` | crates/rewind-store/src/maintenance.rs:221-239 | an artifact that has gained a row or a reference is not removed |
| `Collection.Recognize` | crates/rewind-store/src/maintenance.rs:480-502 | a name is an object's or a temporary file's exactly when it has that form |
| `Collection.RecognizeTemporary` | crates/rewind-store/src/maintenance.rs:491-502 | splitting at the first dash recognises exactly `.tmp-digits-digits` |
| `Collection.TextPage` | crates/rewind-store/src/maintenance.rs:438-477 | a page of hexadecimal texts is a page of digests |
| `KeyPages.Query` | crates/rewind-store/src/maintenance.rs:438-477 | one more row than the page tells whether more exist |
| `KeyPages.TrimSmallest` | crates/rewind-store/src/maintenance.rs:204-209 | dropping the largest of one too many keeps the smallest |
| `KeyPages.SmallestPage` | crates/rewind-store/src/maintenance.rs:212-215 | the retained names, cut to the limit, are the next page |
| `KeyPages.SweepStep` | crates/rewind-cli/src/gc.rs:46-74 | from any position inside a page the next key of the page is the next key of all |
| `KeyPages.SweepEnd` | crates/rewind-cli/src/gc.rs:71-73 | a page without successors completes the sweep |
| `KeyPages.PagesAgree` | crates/rewind-cli/src/gc.rs:46-74 | deleting keys at or below the cursor does not disturb the pages to come |
| `Objects.DecodeExact` | crates/rewind-store/src/object.rs:391-444 | the envelope codec accepts exactly the envelopes of byte strings |
| `Objects.HeaderEncodes` | crates/rewind-store/src/object.rs:408-429 | a header that decodes is the header of that length |
| `Objects.ObjectReader.Read` | crates/rewind-store/src/object.rs:59-102 | the end is reported only for a payload of the declared length and digest that has been delivered whole |
| `Objects.OpenReader` | crates/rewind-store/src/object.rs:219-265 | the refusals before any payload is read |
| `Objects.Get` | crates/rewind-store/src/object.rs:268-297 | succeeds for exactly the files that are the envelope of bytes with the digest, within the limit |
| `Objects.Verify` | crates/rewind-store/src/object.rs:301-366 | on an unchanging file accepts exactly what reading accepts |
| `Durability.EveryRunDurable` | crates/rewind-store/src/lib.rs:370-375 | over every run of capture and collection sessions, cut by process crashes anywhere, in which each session stores before it refers, a reference has its row and a whole file |
| `Durability.EveryRunWhole` | crates/rewind-store/src/object.rs:147-216 | in every run at all, with power losses and careless references, no final path ever holds part of an envelope |
| `Durability.StepKeeps` | crates/rewind-store/src/object.rs:147-216 | each step of put, record, disciplined reference and delete keeps every reference backed |
| `Durability.RecordedIsStored` | crates/rewind-store/src/lib.rs:370-375 | what a session has recorded is what its accesses have stored |
| `Durability.StoredFirstDisciplines` | crates/rewind-store/src/event.rs:291-346 | a session that stores first never refers to what it has not put, though the store only asks for a row |
| `Accesses.AccessLast` | crates/rewind-store/src/lib.rs:370-375 | what one more access adds to the stored and the referred, and when the order of the two is kept |
| `ObjectWriters.Writer.PutObject` | crates/rewind-store/src/lib.rs:370-375 | success lets the session refer to the object and leaves no temporary file; failure at any call changes no reference and touches no other file; it fails only for a failing call, other bytes in the object's place, the length, or 32 temporary names in use |
| `ObjectWriters.Writer.FindOrInstall` | crates/rewind-store/src/object.rs:147-216 | the fan-out directory, then the file found in place or installed |
| `ObjectWriters.Writer.Install` | crates/rewind-store/src/object.rs:166-208 | temporary file, flush, second name, directory flush, removal, in an order that is safe to cut |
| `PowerLosses.PowerLossSafeExactly` | crates/rewind-store/src/object.rs:157-186 | losing power keeps every reference exactly when every referenced entry has been flushed and the entry of its fan-out directory is permanent |
| `PowerLosses.CoveredRunSurvivesPowerLoss` | crates/rewind-store/src/object.rs:157-191 | if every put that finds a file finds a flushed one, and every confirmed put has a permanent fan-out directory, power may fail at any moment |
| `PowerLosses.SettledRunSurvivesPowerLoss` | crates/rewind-store/src/object.rs:157-191 | once everything is permanent power may fail at any later moment as long as no put makes a directory or finds its file in place |
| `PowerLosses.UncoveredPutLosesReference` | crates/rewind-store/src/object.rs:162-164 | a put that finds an unflushed file flushes nothing, and its committed reference can be lost with the power |
| `PowerLosses.FirstPutLosesReference` | crates/rewind-store/src/lib.rs:511-524 | the first put under a prefix makes a directory whose own entry nothing flushes, and its committed reference can be lost with the power |
| `PowerLosses.RowsMayLackFiles` | crates/rewind-store/src/maintenance.rs:408-424 | a collector cut off between file and row leaves a row without a file, which the store would let a careless session refer to |
| `Snapshots.FromCanonicalEntries` | crates/rewind-domain/src/snapshot.rs:300-337 | neighbour comparisons accept exactly the valid, strictly sorted lists; rejections name the first defect |
| `Snapshots.NewManifest` | crates/rewind-domain/src/snapshot.rs:294-297 | any valid entries with distinct paths become a canonical manifest, and nothing else does |
| `Snapshots.ValidPathDescends` | crates/rewind-domain/src/snapshot.rs:46-74 | a path is valid exactly when, short and free of NUL and backslash, following it descends once for every piece |
| `Snapshots.ValidPathStaysWithin` | crates/rewind-domain/src/snapshot.rs:46-74 | every beginning of a valid path stays within the root it starts from |
| `Snapshots.ValidEntryExactly` | crates/rewind-domain/src/snapshot.rs:242-265 | what an acceptable entry is: an executable flag that agrees with the three execute bits, and a link target that is neither empty, nor long, nor holds NUL |
| `Snapshots.DefectMeans` | crates/rewind-domain/src/snapshot.rs:300-330 | what each rejection says about the entry at its index |
| `Diff.DiffSnapshots` | crates/rewind-snapshot/src/diff.rs:78-133 | the two-index loop computes the merge |
| `Diff.MergePatches` | crates/rewind-snapshot/src/diff.rs:78-133 | applying the diff to the first snapshot gives the second |
| `Diff.MergeExact` | crates/rewind-snapshot/src/diff.rs:78-133 | it reports exactly the paths at which the snapshots disagree |
| `Diff.MergeSorted` | crates/rewind-snapshot/src/diff.rs:78-133 | it is strictly sorted by path |
| `Diff.EmptyDiff` | crates/rewind-snapshot/src/diff.rs:78-133 | it is empty only for equal entries |
| `Diff.ReversedDiff` | crates/rewind-snapshot/src/diff.rs:37-73 | reversing it is diffing the other way round |
| `Glob.GlobMatches` | crates/rewind-snapshot/src/scan.rs:275-300 | the row-by-row table computes the declarative meaning: literals match themselves, `*` any run without a slash, `**` any run |
| `Glob.WildcardRow` | crates/rewind-snapshot/src/scan.rs:284-290 | one wildcard row of the table |
| `Glob.LiteralRow` | crates/rewind-snapshot/src/scan.rs:291-296 | one literal row of the table |
| `Glob.LiteralPattern` | crates/rewind-snapshot/src/scan.rs:275-300 | a pattern without wildcards matches only itself |
| `Glob.PatternJoin` | crates/rewind-snapshot/src/scan.rs:275-300 | a pattern may be taken apart anywhere but between two stars: it matches what some cut of the path lets its two parts match |
| `Glob.TwoStarsFirst` | crates/rewind-snapshot/src/scan.rs:279-290 | two stars in front of any pattern skip any beginning of the path |
| `Glob.OneStar` | crates/rewind-snapshot/src/scan.rs:279-290 | one star alone matches exactly the texts without a slash |
| `Glob.SubtreePattern` | crates/rewind-snapshot/src/scan.rs:307-314 | two stars between plain texts stand for any text at all |
| `Glob.ChildPattern` | crates/rewind-snapshot/src/scan.rs:307-314 | one star between plain texts stands for any text without a slash |
| `Glob.DocumentedPatterns` | crates/rewind-snapshot/src/scan.rs:307-314 | the documented patterns, for any directory, extension and nesting: `build/**` reaches nested paths, `build/*` and `*.log` do not, `**/*.log` does |
| `Restores.ValidateManifest` | crates/rewind-snapshot/src/lib.rs:156-196 | accepts exactly the manifests whose paths stay distinct under case folding and whose parents are directories; each error names a real defect |
| `Restores.CheckParents` | crates/rewind-snapshot/src/lib.rs:174-194 | the parent of every prefix is looked up |
| `Restores.PreflightObjects` | crates/rewind-snapshot/src/restore.rs:129-171 | accepts exactly when every file's object is stored with its size, within the limit |
| `Restores.BuildTree` | crates/rewind-snapshot/src/restore.rs:173-256 | in an empty directory every valid manifest is built exactly, whatever its modes; only failing calls and missing objects stop it, and a success has made no failing call |
| `Restores.CanCreateNext` | crates/rewind-snapshot/src/restore.rs:189-245 | every creation finds all directories above it made, private and writable, and its name free |
| `Restores.CanFinishNext` | crates/rewind-snapshot/src/restore.rs:246-254 | finishing a directory walks only ancestors whose final mode is not yet applied |
| `Restores.MakeDirectories` | crates/rewind-snapshot/src/restore.rs:189-194 | the first pass |
| `Restores.WriteFiles` | crates/rewind-snapshot/src/restore.rs:196-230 | the second pass, checking each object again |
| `Restores.MakeLinks` | crates/rewind-snapshot/src/restore.rs:232-244 | the third pass |
| `Restores.FinishDirectories` | crates/rewind-snapshot/src/restore.rs:246-254 | the last pass, innermost directories first |
| `Restores.DirectoryRoot.OpenParentBeneath` | crates/rewind-platform/src/filesystem.rs:483-502 | opens exactly the paths whose ancestors are passable directories |
| `Restores.DirectoryRoot.CreateFileBeneath` | crates/rewind-platform/src/filesystem.rs:380-395 | contents before mode: what a failure leaves is private, and empty or whole |
| `Restores.DirectoryRoot.FinishDirectoryBeneath` | crates/rewind-platform/src/filesystem.rs:420-441 | a mode is applied through a directory that can still be opened; a failure may come after it |
| `Scans.Scanner.ScanDirectory` | crates/rewind-snapshot/src/scan.rs:156-188 | succeeds exactly when every reached path can be dealt with, and then records or visibly omits each of them once |
| `Scans.Scanner.ScanEntry` | crates/rewind-snapshot/src/scan.rs:190-265 | directories with all beneath them, files within the limit, links by their target |
| `Scans.Scanner.FindPattern` | crates/rewind-snapshot/src/scan.rs:171-175 | the first pattern that matches |
| `Scans.ScanWorkspace` | crates/rewind-snapshot/src/scan.rs:106-144 | the manifest holds exactly what is reached, not ignored and not too large; the exclusions are exactly the rest of what is reached |
| `Scans.BranchIs` | crates/rewind-snapshot/src/scan.rs:156-188 | an ignored directory hides all that is beneath it; any other adds what is reached from it |
| `Scans.KeptParents` | crates/rewind-snapshot/src/scan.rs:129-131 | the parents of kept paths are kept |
| `RoundTrips.RestoreAndScan` | crates/rewind-snapshot/src/restore.rs:173-256 | any valid snapshot is restored, and scanning it gives it back up to link modes exactly when the restored modes admit the owner |
| `RoundTrips.LockedDirectory` | crates/rewind-snapshot/src/restore.rs:173-256 | a snapshot of one directory without permission bits meets every condition of a restore, and no scan can deal with the result |
| `RoundTrips.RestoredIsCaptured` | crates/rewind-snapshot/src/scan.rs:106-144 | what has been restored is captured again, up to the modes of links |
| `RoundTrips.ScannableExactly` | crates/rewind-snapshot/src/scan.rs:190-232 | the scan of a restored tree can deal with every path exactly when its modes admit the owner |
| `Checkouts.Materialize` | crates/rewind-snapshot/src/restore.rs:63-112 | under every schedule of failures and of other processes no other name is touched; unless something arrives after the first look of the installation, a success leaves exactly the snapshot's tree, a failure is safe, and without force nothing is destroyed; an occupant is the only reason to refuse an available snapshot when nothing interferes, and a refusal for one has met it |
| `Checkouts.CalmInstalls` | crates/rewind-snapshot/src/restore.rs:89-105 | with nothing in the way an installation succeeds, and without force exactly when nothing occupies the destination |
| `Checkouts.RefusedFor` | crates/rewind-snapshot/src/restore.rs:89-96 | an installation is refused only when its own look meets something in the way |
| `Checkouts.FaultsInstalled` | crates/rewind-snapshot/src/restore.rs:258-281 | an installation that succeeds has made no failing call, and its private name is in use no more |
| `Checkouts.QuietInstallKeeps` | crates/rewind-snapshot/src/restore.rs:89-107 | from the first look on undisturbed: without force nothing is destroyed, and only what was seen standing there can be replaced |
| `Checkouts.ArrivalLost` | crates/rewind-snapshot/src/restore.rs:89-105 | something that arrives between the two looks is destroyed although the checkout is not forced |
| `Checkouts.FilledLost` | crates/rewind-snapshot/src/restore.rs:258-270 | an empty directory filled after the second look is destroyed although the checkout is not forced |
| `Checkouts.InstallTouches` | crates/rewind-snapshot/src/restore.rs:258-281 | whatever others do and whichever calls fail, no other name is touched |
| `Checkouts.StillOver` | crates/rewind-snapshot/src/restore.rs:258-281 | undisturbed, the occupant is replaced exactly, or left, or left whole under a private name |
| `Checkouts.ParentDirectory.InstallOverExisting` | crates/rewind-snapshot/src/restore.rs:258-281 | the occupant is moved aside, and back when the new tree cannot be moved in |
| `Checkouts.ParentDirectory.Install` | crates/rewind-snapshot/src/restore.rs:89-105 | the two looks and the final moves |
| `Checkouts.SafeOutcome` | crates/rewind-snapshot/src/restore.rs:258-281 | whatever a failed installation leaves is safe |
| `Replay.App.StepNextRaw` | crates/rewind-tui/src/model.rs:524-547 | moves forward by exactly one event, across pages too |
| `Replay.App.StepPreviousRaw` | crates/rewind-tui/src/model.rs:549-573 | moves back by exactly one event, across pages too |
| `Replay.App.PeekNextOffset` | crates/rewind-tui/src/model.rs:495-522 | the next event's offset, without moving; a prefetched page is exactly the next slice |
| `Replay.App.JumpTo` | crates/rewind-tui/src/model.rs:575-589 | lands on the requested event |
| `Replay.App.Tick` | crates/rewind-tui/src/model.rs:240-272 | follows the playback target by at most 64 events, never passes it, and stops short only at the last event due or at the end |
| `Replay.DueAtSpeed` | crates/rewind-tui/src/model.rs:24-30 | at normal speed the target moves by exactly the time that has passed, and at the other four by twice, four times, a half or a quarter of it |
| `Replay.DueAdvances` | crates/rewind-tui/src/model.rs:245-250 | the target never moves back, not even when the clock does, and saturates |
| `Replay.App.StepEvent` | crates/rewind-tui/src/model.rs:274-285 | a step by hand stops playback and takes the target along |
| `Replay.App.StepCheckpoint` | crates/rewind-tui/src/model.rs:287-306 | the nearest checkpoint in the direction, if any |
| `Replay.App.SelectionShown` | crates/rewind-tui/src/model.rs:197-203 | what is selected is the event at the position |
| `TerminalViews.ObjectCache.Insert` | crates/rewind-tui/src/model.rs:892-912 | gives up the least recently used entries, and no more of them than it takes |
| `TerminalViews.ObjectCache.MakeRoom` | crates/rewind-tui/src/model.rs:901-908 | the eviction loop |
| `TerminalViews.ObjectCache.Touch` | crates/rewind-tui/src/model.rs:914-921 | moves an entry to the most recent end, each entry staying once |
| `TerminalViews.ObjectCache.GetOrLoad` | crates/rewind-tui/src/model.rs:867-890 | stored bytes, or nothing only for objects larger than the cache |
| `TerminalViews.RefreshTerminal` | crates/rewind-tui/src/model.rs:647-700 | exactly the bytes of the longest run of newest output frames that fits the budget; none of them is lost to eviction |
| `TerminalViews.CollectFrames` | crates/rewind-tui/src/model.rs:661-685 | that run of frames |
| `TerminalViews.LongestTailUnique` | crates/rewind-tui/src/model.rs:661-685 | there is only one such run |
| `Previews.PreviewIsPatch` | crates/rewind-tui/src/model.rs:757-827 | an untruncated preview, read as a patch, gives the second file exactly when no line of the hunk holds a carriage return |
| `Previews.ReturnsBreakPatch` | crates/rewind-tui/src/model.rs:836-851 | for two one-line files ending in CR LF no hunk around the difference is a patch |
| `Previews.UnifiedTextPreview` | crates/rewind-tui/src/model.rs:757-827 | the preview is the whole hunk or its first lines with a notice, never more than 400 lines |
| `Previews.HunkSides` | crates/rewind-tui/src/model.rs:793-819 | the two sides of the hunk are the files' lines there, as many as the header counts |
| `Previews.Locate` | crates/rewind-tui/src/model.rs:780-792 | the hunk encloses all differences, and nothing shared is shown as changed |
| `Previews.RenderHunk` | crates/rewind-tui/src/model.rs:793-825 | context, deletions, additions, context, cut at the limit |
| `Previews.JoinLines` | crates/rewind-tui/src/model.rs:772-773 | splitting keeps every byte |
| `Previews.LinesEnd` | crates/rewind-tui/src/model.rs:772-773 | only the last line may lack its newline |
| `Ancestry.CreationKeepsForest` | crates/rewind-store/src/run.rs:79-81 | creating a run keeps the parent links acyclic |
| `Ancestry.RunTable.CreateRun` | crates/rewind-store/src/run.rs:52-146 | exactly the runs with a new identity and a parent that has the checkpoint they fork from are created; a cycle is refused as such |
| `Ancestry.RunTable.WouldCycle` | crates/rewind-store/src/run.rs:503-528 | the closure over parent links finds every ancestor |
| `Ancestry.Ancestors` | crates/rewind-cli/src/compare.rs:132-141 | the walk, on any table |
| `Ancestry.WalkClimbs` | crates/rewind-cli/src/compare.rs:132-141 | it climbs link by link, meets no run twice and ends, even on cyclic tables |
| `Ancestry.WalkComplete` | crates/rewind-cli/src/compare.rs:132-141 | it meets every ancestor |
| `Ancestry.CompareAncestry` | crates/rewind-cli/src/compare.rs:104-130 | the relationship of two runs |
| `Ancestry.RelateExact` | crates/rewind-cli/src/compare.rs:104-130 | what each answer means in a forest; the common ancestor is the nearest on both chains |
| `Ancestry.RelateDecides` | crates/rewind-cli/src/compare.rs:104-130 | which answer is given: the same run exactly for equal runs, a parent exactly when that fork exists, the nearest common ancestor exactly when neither holds and there is one, unrelated exactly when there is none |
| `Ancestry.RelateMirrors` | crates/rewind-cli/src/compare.rs:104-130 | swapping the runs mirrors the answer |
| `Ancestry.CyclesBreakMirror` | crates/rewind-cli/src/compare.rs:104-130 | on a cyclic table it need not |
| `Processes.SupervisedProcesses` | crates/rewind-platform/src/process.rs:49-71 | lists, in order and once each, exactly the listed processes reachable from the root |
| `Processes.CollectReachable` | crates/rewind-platform/src/process.rs:57-65 | breadth first, ending on any sample |
| `Processes.IndexChildren` | crates/rewind-platform/src/process.rs:51-56 | the child map is the parent links turned round |
| `Processes.ClosedHoldsAll` | crates/rewind-platform/src/process.rs:57-65 | a set closed under children holds everything reachable |
| `Shutdown.Coordinator.Supervise` | crates/rewind-capture/src/recorder.rs:446-465 | while the loop still waits for output after the exit, its last look came before the bound: two seconds and one after the exit, or one second after a repeated signal, plus polling delay; and without a signal the output is not given up before those three seconds are over, nor a child killed before its signal's grace is, unless the run fails or the signal is repeated |
| `Shutdown.Coordinator.TakeTurn` | crates/rewind-capture/src/recorder.rs:446-465 | one turn, with its looks at the child, the drain and the workspace, keeps a deadline set while draining; a child that ignores a signal is killed once its grace has passed |
| `Shutdown.Coordinator.PollWorkspace` | crates/rewind-capture/src/recorder.rs:1029-1076 | looks at the workspace only while the child runs, and a failing look makes the run fail |
| `Shutdown.Coordinator.HandleSignal` | crates/rewind-capture/src/recorder.rs:827-882 | a first signal is forwarded with a deadline, a repeated one kills |
| `Shutdown.Coordinator.SignalBeforeExit` | crates/rewind-capture/src/recorder.rs:874-880 | before the exit a first signal sets a deadline one grace period ahead, and a repeated one kills; it fails exactly when forwarding or killing does |
| `Shutdown.Coordinator.EnforceTermination` | crates/rewind-capture/src/recorder.rs:896-906 | the kill comes only when the deadline of the signal has passed, and always then |
| `Shutdown.Coordinator.SignalAfterExit` | crates/rewind-capture/src/recorder.rs:853-874 | a first signal can only shorten the drain; a repeated one sets it to one second |
| `Shutdown.Coordinator.PollChild` | crates/rewind-capture/src/recorder.rs:884-921 | the exit starts the drain; a child is killed only past its deadline or when it cannot be waited for, and always then |
| `Shutdown.Coordinator.PollPostRootDrain` | crates/rewind-capture/src/recorder.rs:923-952 | an expired drain is extended once, past its deadline only, and output is given up only after that, past the second deadline |
| `Shutdown.Coordinator.ExtendDrain` | crates/rewind-capture/src/recorder.rs:939-951 | the one extension |
| `Shutdown.Coordinator.Handle` | crates/rewind-capture/src/recorder.rs:625-686 | after a failure only the end of the output still counts |
| `Shutdown.Coordinator.ShortenPostRootDeadline` | crates/rewind-capture/src/recorder.rs:1019-1027 | the deadline never moves back |
| `Shutdown.Coordinator.Fail` | crates/rewind-capture/src/recorder.rs:1078-1085 | the first failure terminates a child that is still there |

## Left out

- SQLite itself, schema migration and SQL text: tables are maps and sequences, queries are sorted slices.
- System calls below the level of directory entries, and races that the program detects by comparing stat fields: a scanned tree and a read file do not change meanwhile, except that an object file may differ from its measured length.
- Threads, channels, the pseudo-terminal, the control socket and terminal modes: the supervising loop receives an arbitrary sequence of observations.
- `NAME_MAX`, `umask`, disk space and allocation failures.
- I/O errors of the stream a bundle is written to: the writer's output is a byte string.
- Malformed JSON in stored events, which the collector refuses to trust before it deletes anything.
- Run arguments, branches, labels, excluded-path cleanup, the spelling of enumerations and the validation of most event payloads, which one reading of a branch settles; payloads that carry no reference are one `Plain` kind.
- `Recorder.manual_checkpoint`: a marker event before a checkpoint, hence two operations that are modelled.
- The counters and warnings of a restore report, and the identity check that re-encodes a manifest as JSON.
- Clocks that leave the range of their types, which the recorder reports as errors.
- Captures.TerminalRecorder.RecordInput: a redacted input keeps its length; the reason recorded beside it is not modelled.
- Recording.Recorder.CheckpointAllocated: takes the files of a scan as digests with sizes, in the order the scan reads them; the walk itself is in `scans.dfy`.
- Recording.Recorder.Valid: claims the byte counter only up to the first failing store transaction of a session; an event that failed to be flushed stays pending without being counted.
- RunStores.RunStore.CreateRun: the row only; parents are modelled in `ancestry.dfy`.
- Shutdown.Coordinator.Supervise: bounds the last look at the drain; a loop whose turns stop coming is outside the model.
- PowerLosses.PowerLossSafeExactly: about object files and fan-out directories; the store root, `objects/` itself and the database are taken to keep what they have.
- Checkouts.Materialize: other processes act on the destination only, not on the private names or within a call.
- Replay.App.StepNextRaw: the timeline does not grow while it is replayed, so a page that was announced is never empty.
- Collection.GcStore.ListPhysicalOrphans: enumerates all fan-out directories as one, in any order.
- Previews.UnifiedTextPreview: header numbers are kept as numbers, not as decimal text.
- Scans.ScanWorkspace: storing the bytes of a file is not repeated here; an entry carries the digest and size that storing returns.
- The HTML page, styling, drawing, configuration, diagnostics, native cloning and build tooling.
